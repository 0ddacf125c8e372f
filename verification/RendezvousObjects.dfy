/** The two registries as objects whose fields the code updates in place. */
module RendezvousObjects {
  import opened Basics
  import opened Rendezvous

  /** proxy/src/pending-do.js. `told` is the response the waiting request was sent. */
  class PendingVerification {
    var registered: bool
    var outcome: Option<Outcome>
    var notify: bool
    var timer: bool
    var told: Option<Outcome>

    ghost function View(): Object
      reads this
    {
      Object(registered, outcome, notify, timer, told)
    }

    constructor ()
      ensures View() == FRESH
    {
      registered, outcome, notify, timer, told := false, None, false, false, None;
    }

    method Register()
      modifies this`registered
      ensures View() == ObjectStep(old(View()), Action.Register).0
    {
      registered := true;
    }

    method Wait()
      modifies this`notify, this`timer, this`told
      ensures View() == ObjectStep(old(View()), Action.Wait).0
    {
      if outcome.Some? {
        told := outcome;
        return;
      }
      notify := true;
      timer := true;
    }

    method Settle(result: string) returns (delivered: bool)
      modifies this
      ensures (View(), delivered) == ObjectStep(old(View()), Action.Settle(result))
    {
      delivered := FinishWith(Delivered(result));
    }

    method Cancel(failure: string, message: string) returns (delivered: bool)
      modifies this
      ensures (View(), delivered) == ObjectStep(old(View()), Action.Cancel(failure, message))
    {
      delivered := FinishWith(Failed(failure, message));
    }

    /** The timer's callback; a cleared timer does not call back. */
    method Fire()
      modifies this
      ensures View() == ObjectStep(old(View()), Action.Fire).0
    {
      if timer { var _ := FinishWith(TimedOut); }
    }

    method FinishWith(answer: Outcome) returns (delivered: bool)
      modifies this
      ensures (View(), delivered) == Finish(old(View()), answer)
    {
      if !registered || outcome.Some? { return false; }
      outcome := Some(answer);
      timer := false;
      if notify {
        notify := false;
        told := Some(answer);
      }
      return true;
    }
  }

  /** `createPendingRegistry()`: an entry for every waiter, and its timer running as long as the entry is there.
      `told` is what each promise was settled with. */
  class PendingRegistry {
    var pending: set<string>
    var timers: set<string>
    var told: map<string, Outcome>

    ghost predicate Valid()
      reads this
    {
      timers == pending
    }

    ghost function View(): Registry
      reads this
    {
      Registry(pending, told)
    }

    constructor ()
      ensures Valid() && View() == EMPTY
    {
      pending, timers, told := {}, {}, map[];
    }

    method Await(id: string)
      requires Valid()
      modifies this`pending, this`timers
      ensures Valid() && View() == RegistryStep(old(View()), Event(id, Register)).0
    {
      timers := timers + {id};
      pending := pending + {id};
    }

    method Settle(id: string, result: string) returns (delivered: bool)
      requires Valid()
      modifies this
      ensures Valid() && (View(), delivered) == RegistryStep(old(View()), Event(id, Action.Settle(result)))
    {
      if id !in pending { return false; }
      Resolve(id, Delivered(result));
      return true;
    }

    method Cancel(id: string, failure: string, message: string) returns (delivered: bool)
      requires Valid()
      modifies this
      ensures Valid() && (View(), delivered) == RegistryStep(old(View()), Event(id, Action.Cancel(failure, message)))
    {
      if id !in pending { return false; }
      Resolve(id, Failed(failure, message));
      return true;
    }

    /** The timer's callback, which asks nothing about the entry; a cleared timer does not call back. */
    method Fire(id: string)
      requires Valid()
      modifies this
      ensures Valid() && View() == RegistryStep(old(View()), Event(id, Action.Fire)).0
    {
      if id in timers {
        timers := timers - {id};
        pending := pending - {id};
        told := told[id := TimedOut];
      }
    }

    method Resolve(id: string, answer: Outcome)
      requires Valid() && id in pending
      modifies this
      ensures Valid() && (View(), true) == Release(old(View()), id, answer)
    {
      timers := timers - {id};
      pending := pending - {id};
      told := told[id := answer];
    }
  }

  datatype TriggerAnswer = Accepted | Refused(message: string)

  const TRIGGER_REJECTED := "trigger_rejected"

  /** `verify`: the waiter is registered, then the trigger is sent, and the waiter is released again when the
      trigger is refused. `callback` is what the workflow may send back before the trigger is even answered:
      it is never lost, and no waiter is left behind by a refusal. */
  method Verify(registry: PendingRegistry, id: string, callback: Option<string>, answer: TriggerAnswer)
    returns (thrown: Option<Outcome>)
    requires registry.Valid()
    modifies registry
    ensures registry.Valid()
    ensures thrown == if answer.Refused? then Some(Failed(TRIGGER_REJECTED, answer.message)) else None
    ensures id in registry.pending <==> answer.Accepted? && callback.None?
    ensures callback.Some? ==> Told(registry.View(), id) == Some(Delivered(callback.value))
    ensures callback.None? && answer.Refused? ==> Told(registry.View(), id) == thrown
    ensures forall other :: other != id ==>
      (other in registry.pending <==> other in old(registry.pending))
          && Told(registry.View(), other) == old(Told(registry.View(), other))
  {
    registry.Await(id);
    if callback.Some? { var _ := registry.Settle(id, callback.value); }
    if answer.Refused? {
      var _ := registry.Cancel(id, TRIGGER_REJECTED, answer.message);
      return Some(Failed(TRIGGER_REJECTED, answer.message));
    }
    return None;
  }
}
