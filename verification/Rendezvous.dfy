/** proxy/src/pending-do.js and the registry of proxy/src/verification.js: one request waits, and callbacks,
    cancellations and a timer race to answer it. */
module Rendezvous {
  import opened Basics

  /** What a waiter is told. The texts of the two timeout messages differ and are not part of this model. */
  datatype Outcome = Delivered(result: string) | Failed(failure: string, message: string) | TimedOut

  /** `Register` is the start of a `/wait` request, `Wait` the moment its body has been read; callbacks can land
      in between. `Fire` is the timer, `Trigger` the request that makes the workflow call back. */
  datatype Action = Register | Wait | Settle(result: string) | Cancel(failure: string, message: string) | Fire | Trigger

  function OutcomeOf(a: Action): Option<Outcome> {
    match a
    case Settle(result) => Some(Delivered(result))
    case Cancel(failure, message) => Some(Failed(failure, message))
    case Fire => Some(TimedOut)
    case _ => None
  }

  datatype Event = Event(id: string, action: Action)

  // ---------------------------------------------------------------- one Durable Object

  datatype Object = Object(registered: bool, outcome: Option<Outcome>, notify: bool, timer: bool, told: Option<Outcome>)

  const FRESH := Object(false, None, false, false, None)

  function Finish(o: Object, outcome: Outcome): (Object, bool) {
    if !o.registered || o.outcome.Some? then (o, false)
    else (Object(o.registered, Some(outcome), false, false, if o.notify then Some(outcome) else o.told), true)
  }

  /** The new state, and whether a settle or cancel reports it was delivered. */
  function ObjectStep(o: Object, a: Action): (Object, bool) {
    match a
    case Register => (o.(registered := true), false)
    case Wait => (if o.outcome.Some? then o.(told := o.outcome) else o.(notify := true, timer := true), false)
    case Settle(result) => Finish(o, Delivered(result))
    case Cancel(failure, message) => Finish(o, Failed(failure, message))
    case Fire => (if o.timer then Finish(o, TimedOut).0 else o, false)
    case Trigger => (o, false)
  }

  /** Each request id has its own object, so only its own events reach it. */
  function ObjectAfter(trace: seq<Event>, id: string): Object {
    if trace == [] then FRESH
    else
      var o := ObjectAfter(trace[..|trace| - 1], id);
      var last := trace[|trace| - 1];
      if last.id == id then ObjectStep(o, last.action).0 else o
  }

  function ObjectReply(trace: seq<Event>, i: nat): bool
    requires i < |trace|
  {
    ObjectStep(ObjectAfter(trace[..i], trace[i].id), trace[i].action).1
  }

  // ---------------------------------------------------------------- the in-memory map

  /** Entries are waiters with their timer armed; `told` is what each waiter's promise was settled with. */
  datatype Registry = Registry(pending: set<string>, told: map<string, Outcome>)

  const EMPTY := Registry({}, map[])

  function Release(r: Registry, id: string, outcome: Outcome): (Registry, bool) {
    if id in r.pending then (Registry(r.pending - {id}, r.told[id := outcome]), true) else (r, false)
  }

  function RegistryStep(r: Registry, e: Event): (Registry, bool) {
    match e.action
    case Register => (r.(pending := r.pending + {e.id}), false)
    case Wait => (r, false)
    case Settle(result) => Release(r, e.id, Delivered(result))
    case Cancel(failure, message) => Release(r, e.id, Failed(failure, message))
    case Fire => (Release(r, e.id, TimedOut).0, false)
    case Trigger => (r, false)
  }

  function RegistryAfter(trace: seq<Event>): Registry {
    if trace == [] then EMPTY else RegistryStep(RegistryAfter(trace[..|trace| - 1]), trace[|trace| - 1]).0
  }

  function RegistryReply(trace: seq<Event>, i: nat): bool
    requires i < |trace|
  {
    RegistryStep(RegistryAfter(trace[..i]), trace[i]).1
  }

  function Told(r: Registry, id: string): Option<Outcome> { if id in r.told then Some(r.told[id]) else None }

  // ---------------------------------------------------------------- which event wins

  ghost predicate Happened(trace: seq<Event>, e: Event) { e in trace }

  /** A request id waits at most once, and its timer is armed by that wait. */
  ghost predicate Legal(trace: seq<Event>) {
    forall i :: 0 <= i < |trace| ==>
      && (trace[i].action.Register? ==> !Happened(trace[..i], Event(trace[i].id, Register)))
      && (trace[i].action.Wait? ==>
            Happened(trace[..i], Event(trace[i].id, Register)) && !Happened(trace[..i], Event(trace[i].id, Wait)))
      && (trace[i].action.Fire? ==> Happened(trace[..i], Event(trace[i].id, Wait)))
  }

  /** The event could answer the waiter: its own callback, cancellation or timer, after registration. */
  ghost predicate Answers(trace: seq<Event>, id: string, i: nat)
    requires i < |trace|
  {
    && trace[i].id == id && (trace[i].action.Settle? || trace[i].action.Cancel? || trace[i].action.Fire?)
    && Happened(trace[..i], Event(id, Register))
  }

  ghost predicate Wins(trace: seq<Event>, id: string, i: nat)
    requires i < |trace|
  {
    Answers(trace, id, i) && forall k :: 0 <= k < i ==> !Answers(trace, id, k)
  }

  /** What the waiter for `id` is due: the payload of the first event that could answer it. */
  ghost function Due(trace: seq<Event>, id: string): Option<Outcome> {
    if trace == [] then None
    else
      var init := trace[..|trace| - 1];
      if Due(init, id).Some? then Due(init, id)
      else if Answers(trace, id, |trace| - 1) then OutcomeOf(trace[|trace| - 1].action)
      else None
  }

  lemma {:induction false} DueIsTheWinners(trace: seq<Event>, id: string)
    ensures Due(trace, id).None? <==> forall i :: 0 <= i < |trace| ==> !Answers(trace, id, i)
    ensures forall i :: 0 <= i < |trace| && Wins(trace, id, i) ==> Due(trace, id) == OutcomeOf(trace[i].action)
  {
    if trace != [] {
      var init := trace[..|trace| - 1];
      DueIsTheWinners(init, id);
      forall i | 0 <= i < |init| ensures Answers(init, id, i) <==> Answers(trace, id, i) {
        assert init[..i] == trace[..i];
      }
    }
  }

  lemma LegalPrefix(trace: seq<Event>, n: nat)
    requires Legal(trace) && n <= |trace|
    ensures Legal(trace[..n])
  {
    forall i | 0 <= i < n ensures trace[..n][..i] == trace[..i] {}
  }

  lemma HappenedStep(trace: seq<Event>, e: Event)
    requires trace != []
    ensures Happened(trace, e) <==> Happened(trace[..|trace| - 1], e) || trace[|trace| - 1] == e
  {
    assert trace == trace[..|trace| - 1] + [trace[|trace| - 1]];
  }

  lemma DueStep(trace: seq<Event>, id: string)
    requires trace != []
    ensures var (init, last) := (trace[..|trace| - 1], trace[|trace| - 1]);
            Due(trace, id)
            == if Due(init, id).Some? then Due(init, id)
               else if last.id == id && Happened(init, Event(id, Register)) then OutcomeOf(last.action)
               else None
  {
    hide Happened;
  }

  /** The object's fields, told from the trace alone. */
  ghost predicate Tracks(o: Object, trace: seq<Event>, id: string) {
    && o.registered == Happened(trace, Event(id, Register))
    && o.outcome == Due(trace, id)
    && o.notify == (Happened(trace, Event(id, Wait)) && Due(trace, id).None?)
    && o.timer == o.notify
    && o.told == if Happened(trace, Event(id, Wait)) then Due(trace, id) else None
  }

  lemma LegalStep(trace: seq<Event>)
    requires Legal(trace) && trace != []
    ensures var (init, last) := (trace[..|trace| - 1], trace[|trace| - 1]);
            && Legal(init)
            && (last.action.Register? ==> !Happened(init, Event(last.id, Register)))
            && (last.action.Wait? ==> Happened(init, Event(last.id, Register)) && !Happened(init, Event(last.id, Wait)))
            && (last.action.Fire? ==> Happened(init, Event(last.id, Wait)))
  {
    LegalPrefix(trace, |trace| - 1);
    hide Happened;
  }

  lemma {:induction false} ObjectTracks(trace: seq<Event>, id: string)
    requires Legal(trace)
    ensures Tracks(ObjectAfter(trace, id), trace, id)
  {
    hide Happened, Legal, Due;
    if trace == [] {
      NothingYet(id);
    } else {
      LegalStep(trace);
      ObjectTracks(trace[..|trace| - 1], id);
      HappenedStep(trace, Event(id, Register));
      HappenedStep(trace, Event(id, Wait));
      DueStep(trace, id);
    }
  }

  lemma NothingYet(id: string)
    ensures forall e :: !Happened([], e)
    ensures Due([], id) == None
  {
  }

  lemma {:induction false} NothingDueUnregistered(trace: seq<Event>, id: string)
    ensures Due(trace, id).Some? ==> Happened(trace, Event(id, Register))
  {
    if trace != [] {
      NothingDueUnregistered(trace[..|trace| - 1], id);
      HappenedStep(trace, Event(id, Register));
    }
  }

  lemma {:induction false} RegistryTracks(trace: seq<Event>, id: string)
    requires Legal(trace)
    ensures id in RegistryAfter(trace).pending <==> Happened(trace, Event(id, Register)) && Due(trace, id).None?
    ensures Told(RegistryAfter(trace), id) == Due(trace, id)
  {
    hide Happened, Legal, Due;
    if trace == [] {
      NothingYet(id);
    } else {
      LegalStep(trace);
      RegistryTracks(trace[..|trace| - 1], id);
      HappenedStep(trace, Event(id, Register));
      NothingDueUnregistered(trace[..|trace| - 1], id);
      DueStep(trace, id);
    }
  }

  // ---------------------------------------------------------------- the two registries agree

  /** On any interleaving, a settle or cancel is reported delivered exactly when it is the event that wins its
      request; and the waiter is told the winner's payload. */
  lemma OneEventWins(trace: seq<Event>, i: nat)
    requires Legal(trace) && i < |trace|
    ensures trace[i].action.Settle? || trace[i].action.Cancel?
            ==> (ObjectReply(trace, i) <==> Wins(trace, trace[i].id, i))
    ensures Wins(trace, trace[i].id, i) && Happened(trace, Event(trace[i].id, Wait)) ==>
      var (a, told) := (trace[i].action, ObjectAfter(trace, trace[i].id).told);
      && (a.Settle? ==> told == Some(Delivered(a.result)))
      && (a.Cancel? ==> told == Some(Failed(a.failure, a.message)))
      && (a.Fire? ==> told == Some(TimedOut))
    ensures Wins(trace, trace[i].id, i) ==> forall j :: 0 <= j < |trace| && Wins(trace, trace[i].id, j) ==> j == i
  {
    var id := trace[i].id;
    LegalPrefix(trace, i);
    ObjectTracks(trace[..i], id);
    ObjectTracks(trace, id);
    DueIsTheWinners(trace[..i], id);
    DueIsTheWinners(trace, id);
    hide Happened, Legal, Due;
    forall k | 0 <= k < i ensures Answers(trace[..i], id, k) <==> Answers(trace, id, k) {
      assert trace[..i][..k] == trace[..k];
    }
  }

  lemma {:induction false} FirstAnswerWins(trace: seq<Event>, id: string, k: nat)
    requires k < |trace| && Answers(trace, id, k)
    ensures exists w :: 0 <= w <= k && Wins(trace, id, w)
  {
    hide Answers;
    if j :| 0 <= j < k && Answers(trace, id, j) {
      FirstAnswerWins(trace, id, j);
    } else {
      assert Wins(trace, id, k);
    }
  }

  /** While no event has won, nothing is told. */
  lemma NothingToldUntilAnswered(trace: seq<Event>, id: string)
    requires Legal(trace) && forall k :: 0 <= k < |trace| ==> !Wins(trace, id, k)
    ensures ObjectAfter(trace, id).told == None && Told(RegistryAfter(trace), id) == None
  {
    hide Answers, Wins, Legal, Happened;
    forall k | 0 <= k < |trace| ensures !Answers(trace, id, k) {
      if Answers(trace, id, k) { FirstAnswerWins(trace, id, k); }
    }
    DueIsTheWinners(trace, id);
    ObjectTracks(trace, id);
    RegistryTracks(trace, id);
  }

  lemma SameReply(trace: seq<Event>, i: nat)
    requires Legal(trace) && i < |trace|
    ensures ObjectReply(trace, i) == RegistryReply(trace, i)
  {
    LegalPrefix(trace, i);
    hide Legal, Happened, Due, ObjectAfter, RegistryAfter;
    ObjectTracks(trace[..i], trace[i].id);
    RegistryTracks(trace[..i], trace[i].id);
  }

  lemma SameAnswer(trace: seq<Event>, id: string)
    requires Legal(trace) && Happened(trace, Event(id, Wait))
    ensures ObjectAfter(trace, id).told == Told(RegistryAfter(trace), id)
  {
    hide Legal, Happened, Due, ObjectAfter, RegistryAfter;
    ObjectTracks(trace, id);
    RegistryTracks(trace, id);
  }

  /** The Durable Objects answer every settle and cancel as the map does, in every interleaving, including a
      callback that lands between `Register` and `Wait`; and once a request has waited, it is told the same. */
  lemma ObjectsRefineTheMap(trace: seq<Event>)
    requires Legal(trace)
    ensures forall i :: 0 <= i < |trace| ==> ObjectReply(trace, i) == RegistryReply(trace, i)
    ensures forall id :: Happened(trace, Event(id, Wait)) ==>
                           ObjectAfter(trace, id).told == Told(RegistryAfter(trace), id)
  {
    hide *;
    forall i | 0 <= i < |trace| ensures ObjectReply(trace, i) == RegistryReply(trace, i) { SameReply(trace, i); }
    forall id | Happened(trace, Event(id, Wait)) ensures ObjectAfter(trace, id).told == Told(RegistryAfter(trace), id) {
      SameAnswer(trace, id);
    }
  }

  // ---------------------------------------------------------------- verify registers before it triggers

  /** The workflow calls back only because it was triggered. */
  ghost predicate Caused(trace: seq<Event>) {
    forall i :: 0 <= i < |trace| && trace[i].action.Settle? ==> Happened(trace[..i], Event(trace[i].id, Trigger))
  }

  /** `verify` sends the trigger only after the request has registered. */
  ghost predicate RegistersFirst(trace: seq<Event>) {
    forall i :: 0 <= i < |trace| && trace[i].action.Trigger? ==> Happened(trace[..i], Event(trace[i].id, Register))
  }

  /** However fast the callback is, it is accepted unless the waiter was already answered. */
  lemma CallbackIsNotLost(trace: seq<Event>, i: nat)
    requires Legal(trace) && Caused(trace) && RegistersFirst(trace) && i < |trace| && trace[i].action.Settle?
    ensures ObjectReply(trace, i) || exists k :: 0 <= k < i && Wins(trace, trace[i].id, k)
  {
    var id := trace[i].id;
    assert Happened(trace[..i], Event(id, Trigger));
    var t :| 0 <= t < i && trace[..i][t] == Event(id, Trigger);
    assert Happened(trace[..t], Event(id, Register));
    var r :| 0 <= r < t && trace[..t][r] == Event(id, Register);
    assert trace[..i][r] == Event(id, Register);
    OneEventWins(trace, i);
    hide Happened, Legal;
    if !Wins(trace, id, i) {
      var k :| 0 <= k < i && Answers(trace, id, k);
      FirstAnswerWins(trace, id, k);
    }
  }

  /** The other order loses the payload: a callback that beats registration is refused for good. */
  lemma TriggerFirstLosesTheCallback(id: string, result: string)
    ensures var trace := [Event(id, Trigger), Event(id, Settle(result)), Event(id, Register), Event(id, Wait)];
            Legal(trace) && Caused(trace) && !ObjectReply(trace, 1) && ObjectAfter(trace, id).told == None
  {
    var trace := [Event(id, Trigger), Event(id, Settle(result)), Event(id, Register), Event(id, Wait)];
    assert trace[..1][0] == Event(id, Trigger);
    assert trace[..3][2] == Event(id, Register);
    assert Legal(trace);
    ObjectTracks(trace[..1], id);
    ObjectTracks(trace, id);
    DueIsTheWinners(trace, id);
    hide Due, ObjectAfter;
    assert !Happened(trace[..1], Event(id, Register));
    forall i | 0 <= i < 4 ensures !Answers(trace, id, i) {}
  }
}
