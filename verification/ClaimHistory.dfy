/** What the record of a run says about its deposits: where the money of each went since it was last
    funded, and that none leaves before the calls it backs are past their filing deadline. */
module ClaimHistory {
  import opened Basics
  import opened Sums
  import opened ClaimRules
  import opened ClaimBookkeeping
  import opened ClaimProtocol
  import opened ClaimSolvency
  import Judge = ClaimJudge
  import Token

  function Last<T>(xs: seq<T>): T requires xs != [] { xs[|xs| - 1] }

  function Init<T>(xs: seq<T>): seq<T> requires xs != [] { xs[..|xs| - 1] }

  // ---------------------------------------------------------------- the deposit ledger

  /** What `slug` was allotted when it was last funded. */
  ghost function Allotted(log: seq<Event>, slug: string): int {
    if log == [] then 0
    else match Last(log)
      case Funded(s, amount) => if s == slug then amount else Allotted(Init(log), slug)
      case _ => Allotted(Init(log), slug)
  }

  /** What has been paid out of the slug's deposit since then: settlements and withdrawals. */
  ghost function PaidSince(log: seq<Event>, slug: string): int {
    if log == [] then 0
    else match Last(log)
      case Funded(s, _) => if s == slug then 0 else PaidSince(Init(log), slug)
      case Withdrawn(s, paid, _) => PaidSince(Init(log), slug) + (if s == slug then paid else 0)
      case Closed(s, _, paid) => PaidSince(Init(log), slug) + (if s == slug then paid else 0)
      case _ => PaidSince(Init(log), slug)
  }

  ghost predicate Balanced(w: World, slug: string) {
    Allotted(w.log, slug) == Get(w.judge.depositAmount, slug) + PaidSince(w.log, slug)
  }

  lemma Extends(log: seq<Event>, e: Event)
    ensures Last(log + [e]) == e && Init(log + [e]) == log
  {
  }

  /** A settlement takes out of the deposit exactly what the claim says it paid. */
  lemma SettleBalanced(c: Judge.Config, self: Account, w: World, key: string, outcome: Outcome, reasoning: string,
                       resolver: Account, slug: string)
    requires Solvent(c, self, w) && key in w.judge.claims && !w.judge.claims[key].resolved && outcome != Open
    ensures var j' := Judge.Settle(c, w.judge, w.token, self, key, outcome, reasoning, resolver).0;
            && key in j'.claims && j'.claims[key].slug == w.judge.claims[key].slug
            && Get(j'.depositAmount, slug)
               == Get(w.judge.depositAmount, slug)
                  - (if slug == w.judge.claims[key].slug then PaidByProvider(j'.claims[key]) else 0)
  {
    hide Consistent, Token.Sound;
    var claim := w.judge.claims[key];
    if c.hasToken { EscrowClampsAreInert(c, self, w, key); }
    UnresolvedIsBlank(w.judge, key);
    hide Solvent, Judge.DepositAvailable, Judge.BondAvailable, Judge.Payouts;
  }

  lemma CloseBalanced(c: Judge.Config, self: Account, w: World, sender: Account, request: Judge.Call, slug: string)
    requires Solvent(c, self, w) && (request.ResolveClaim? || request.CancelClaim?)
    requires Judge.Apply(c, w.judge, w.token, self, sender, request).Done? && Balanced(w, slug)
    ensures Balanced(Next(c, self, w, JudgeStep(sender, request)), slug)
  {
    hide Solvent, Judge.Settle;
    var key, outcome, reasoning := ClosingSettles(c, w.judge, w.token, self, sender, request);
    SettleBalanced(c, self, w, key, outcome, reasoning, sender, slug);
    Extends(w.log, EventOf(c, self, w, sender, request));
  }

  lemma OpenBalanced(c: Judge.Config, self: Account, w: World, sender: Account, request: Judge.Call, slug: string)
    requires Judge.Apply(c, w.judge, w.token, self, sender, request).Done? && Balanced(w, slug)
    requires !request.ResolveClaim? && !request.CancelClaim?
    ensures Balanced(Next(c, self, w, JudgeStep(sender, request)), slug)
  {
    hide CheckEligibility, ClaimKey;
    Extends(w.log, EventOf(c, self, w, sender, request));
    if request.WithdrawDeposit? {
      EmitSum(sender, sender, Get(w.judge.depositAmount, request.slug), AmountOf());
    }
  }

  lemma StepBalanced(c: Judge.Config, self: Account, w: World, step: Step, slug: string)
    requires Solvent(c, self, w) && Balanced(w, slug)
    ensures Balanced(Next(c, self, w, step), slug)
  {
    hide Solvent, Judge.Apply, Balanced;
    if step.JudgeStep? && Judge.Apply(c, w.judge, w.token, self, step.sender, step.request).Done? {
      hide Next;
      if step.request.ResolveClaim? || step.request.CancelClaim? {
        CloseBalanced(c, self, w, step.sender, step.request, slug);
      } else {
        OpenBalanced(c, self, w, step.sender, step.request, slug);
      }
    } else {
      SameRecord(w, Next(c, self, w, step), slug);
    }
  }

  lemma SameRecord(w: World, w': World, slug: string)
    requires w'.log == w.log && w'.judge == w.judge && Balanced(w, slug)
    ensures Balanced(w', slug)
  {
  }

  /** In every state careful accounts reach, slug by slug: allotted at the last funding = what is left of
      the deposit + everything settlements and withdrawals have paid out of it since. */
  lemma {:induction false} DepositsBalance(c: Judge.Config, self: Account, start: nat, steps: seq<Step>, slug: string)
    requires CarefulRun(c, self, start, steps)
    ensures Balanced(Exec(c, self, start, steps), slug)
  {
    if steps != [] {
      var before := steps[..|steps| - 1];
      DepositsBalance(c, self, start, before, slug);
      CarefulRunsAreSolvent(c, self, start, before);
      hide Solvent, Balanced, Next, Possible, Careful;
      StepBalanced(c, self, Exec(c, self, start, before), steps[|steps| - 1], slug);
    }
  }

  // ---------------------------------------------------------------- the record of requests and filings

  /** The request a withdrawal of `slug` would be made on, if one stands. */
  ghost function StandingRequest(log: seq<Event>, slug: string): Option<nat> {
    if log == [] then None
    else match Last(log)
      case Requested(s, at) => if s == slug then Some(at) else StandingRequest(Init(log), slug)
      case Funded(s, _) => if s == slug then None else StandingRequest(Init(log), slug)
      case StoodDown(s) => if s == slug then None else StandingRequest(Init(log), slug)
      case Withdrawn(s, _, _) => if s == slug then None else StandingRequest(Init(log), slug)
      case _ => StandingRequest(Init(log), slug)
  }

  ghost function OpenFilings(log: seq<Event>, slug: string): int {
    if log == [] then 0
    else match Last(log)
      case Filed(s, _, _, _) => OpenFilings(Init(log), slug) + (if s == slug then 1 else 0)
      case Closed(s, _, _) => OpenFilings(Init(log), slug) - (if s == slug then 1 else 0)
      case _ => OpenFilings(Init(log), slug)
  }

  function RequestWord(request: Option<nat>): nat {
    match request case None => 0 case Some(at) => Bucketed(at)
  }

  ghost predicate RecordAgrees(w: World, slug: string) {
    && Get(w.judge.withdrawalRequestedAt, slug) == RequestWord(StandingRequest(w.log, slug))
    && Get(w.judge.openClaims, slug) == OpenFilings(w.log, slug)
  }

  /** What was true when an event was recorded after `before`. */
  ghost predicate Grounded(c: Judge.Config, before: seq<Event>, e: Event) {
    match e
    case Withdrawn(slug, _, at) =>
      && StandingRequest(before, slug).Some?
      && CooldownElapsed(at, Bucketed(StandingRequest(before, slug).value), c.cooldown)
      && OpenFilings(before, slug) == 0
    case Filed(slug, _, writtenAt, at) => WithinFilingWindow(Verdict(OfSlug(slug), writtenAt, 0), at, c.filingWindow)
    case _ => true
  }

  predicate Timed(e: Event) { e.Requested? || e.Withdrawn? || e.Filed? }

  ghost predicate Chronological(log: seq<Event>, clock: nat) {
    && (forall i :: 0 <= i < |log| && Timed(log[i]) ==> log[i].at <= clock)
    && (forall i, j :: 0 <= i < j < |log| && Timed(log[i]) && Timed(log[j]) ==> log[i].at <= log[j].at)
  }

  ghost predicate Recorded(c: Judge.Config, w: World) {
    && Consistent(w.judge)
    && (forall slug :: RecordAgrees(w, slug))
    && (forall i :: 0 <= i < |w.log| ==> Grounded(c, w.log[..i], w.log[i]))
    && Chronological(w.log, w.clock)
  }

  lemma CloseAgrees(c: Judge.Config, self: Account, w: World, sender: Account, request: Judge.Call, slug: string)
    requires Consistent(w.judge) && (request.ResolveClaim? || request.CancelClaim?)
    requires Judge.Apply(c, w.judge, w.token, self, sender, request).Done? && RecordAgrees(w, slug)
    ensures RecordAgrees(Next(c, self, w, JudgeStep(sender, request)), slug)
    ensures EventOf(c, self, w, sender, request).Closed?
  {
    hide Consistent, Judge.Settle;
    var key, outcome, reasoning := ClosingSettles(c, w.judge, w.token, self, sender, request);
    SettleCloses(c, w.judge, w.token, self, key, outcome, reasoning, sender);
    OpenBondWithinBonded(w.judge, key);
    Extends(w.log, EventOf(c, self, w, sender, request));
  }

  lemma OpenCallAgrees(c: Judge.Config, self: Account, w: World, sender: Account, request: Judge.Call, slug: string)
    requires !request.ResolveClaim? && !request.CancelClaim?
    requires Judge.Apply(c, w.judge, w.token, self, sender, request).Done? && RecordAgrees(w, slug)
    ensures RecordAgrees(Next(c, self, w, JudgeStep(sender, request)), slug)
  {
    hide CheckEligibility, ClaimKey;
    Extends(w.log, EventOf(c, self, w, sender, request));
  }

  lemma NewEventGrounded(c: Judge.Config, self: Account, w: World, sender: Account, request: Judge.Call)
    requires Judge.Apply(c, w.judge, w.token, self, sender, request).Done? && ReadsClock(request, w.clock)
    requires request.WithdrawDeposit? ==> RecordAgrees(w, request.slug)
    ensures var e := EventOf(c, self, w, sender, request);
            Grounded(c, w.log, e) && (Timed(e) ==> e.at == w.clock)
  {
    hide Judge.Settle, ClaimKey, StandingRequest, OpenFilings;
  }

  lemma JudgeStepRecorded(c: Judge.Config, self: Account, w: World, sender: Account, request: Judge.Call)
    requires Recorded(c, w) && ReadsClock(request, w.clock)
    requires Judge.Apply(c, w.judge, w.token, self, sender, request).Done?
    ensures Recorded(c, Next(c, self, w, JudgeStep(sender, request)))
  {
    hide Consistent, RecordAgrees, Grounded, EventOf, Judge.Apply, ReadsClock;
    var w' := Next(c, self, w, JudgeStep(sender, request));
    ApplyKeepsConsistent(c, w.judge, w.token, self, sender, request);
    NewEventGrounded(c, self, w, sender, request);
    forall slug ensures RecordAgrees(w', slug) {
      if request.ResolveClaim? || request.CancelClaim? {
        CloseAgrees(c, self, w, sender, request, slug);
      } else {
        OpenCallAgrees(c, self, w, sender, request, slug);
      }
    }
    forall i | 0 <= i < |w'.log| ensures Grounded(c, w'.log[..i], w'.log[i]) {
      assert w'.log[..i] == w.log[..i];
      if i == |w.log| { assert w.log[..i] == w.log; }
    }
  }

  lemma {:induction false} RunsAreRecorded(c: Judge.Config, self: Account, start: nat, steps: seq<Step>)
    requires Legal(c, self, start, steps)
    ensures Recorded(c, Exec(c, self, start, steps))
  {
    if steps == [] {
      ReachableIsConsistent(c, self, []);
      assert Run(c, self, []) == Judge.EMPTY;
    } else {
      var before, last := steps[..|steps| - 1], steps[|steps| - 1];
      var w := Exec(c, self, start, before);
      RunsAreRecorded(c, self, start, before);
      hide Consistent, Judge.Apply, RecordAgrees, Grounded;
      if last.JudgeStep? && Judge.Apply(c, w.judge, w.token, self, last.sender, last.request).Done? {
        JudgeStepRecorded(c, self, w, last.sender, last.request);
      } else {
        QuietStepRecorded(c, self, w, last);
      }
    }
  }

  lemma QuietStepRecorded(c: Judge.Config, self: Account, w: World, step: Step)
    requires Recorded(c, w) && Possible(self, w, step)
    requires step.JudgeStep? ==> Judge.Apply(c, w.judge, w.token, self, step.sender, step.request).Refused?
    ensures Recorded(c, Next(c, self, w, step))
  {
    hide Consistent, Judge.Apply, Grounded;
    var w' := Next(c, self, w, step);
    assert w'.log == w.log && w'.judge == w.judge && w.clock <= w'.clock;
    forall slug ensures RecordAgrees(w', slug) { assert RecordAgrees(w, slug); }
  }

  // ---------------------------------------------------------------- the cooldown outlasts the exposure

  lemma {:induction false} RequestStands(log: seq<Event>, slug: string) returns (j: nat)
    requires StandingRequest(log, slug).Some?
    ensures j < |log| && log[j] == Requested(slug, StandingRequest(log, slug).value)
    ensures forall k :: j < k < |log| && log[k].slug == slug ==> log[k].Filed? || log[k].Closed?
  {
    if Last(log).Requested? && Last(log).slug == slug {
      j := |log| - 1;
    } else {
      j := RequestStands(Init(log), slug);
      assert forall k :: 0 <= k < |log| - 1 ==> log[k] == Init(log)[k];
    }
  }

  /** The deposit of `log[i]` left on the request `log[j]`: nothing on that slug was funded, stood down or
      withdrawn in between, no claim on it was open, and no claim filed later is about a call whose verdict
      was on record when the withdrawal was requested. */
  ghost predicate LeftSafely(log: seq<Event>, i: nat, j: nat)
    requires j < i < |log| && log[i].Withdrawn? && log[j].Requested?
  {
    var slug := log[i].slug;
    && log[j].slug == slug
    && (forall k :: j < k < i && log[k].slug == slug ==> log[k].Filed? || log[k].Closed?)
    && OpenFilings(log[..i], slug) == 0
    && (forall k :: i < k < |log| && log[k].Filed? ==> log[k].writtenAt > log[j].at)
  }

  lemma RecordIsSafe(c: Judge.Config, log: seq<Event>, clock: nat, i: nat) returns (j: nat)
    requires forall k :: 0 <= k < |log| ==> Grounded(c, log[..k], log[k])
    requires Chronological(log, clock) && c.cooldown >= c.filingWindow + CLOCK_BUCKET_SECONDS
    requires i < |log| && log[i].Withdrawn?
    ensures j < i && log[j].Requested? && LeftSafely(log, i, j)
  {
    assert Grounded(c, log[..i], log[i]);
    j := RequestStands(log[..i], log[i].slug);
    hide StandingRequest, OpenFilings;
    forall k | i < k < |log| && log[k].Filed? ensures log[k].writtenAt > log[j].at {
      assert Grounded(c, log[..k], log[k]);
      assert Timed(log[i]) && Timed(log[j]) && Timed(log[k]);
      CooldownOutlastsExposure(log[j].at, log[k].at, Verdict(OfSlug(log[k].slug), log[k].writtenAt, 0), c.filingWindow,
          c.cooldown);
    }
  }

  /** In every run, whoever acts and however carelessly: whenever a withdrawal has paid, an earlier request
      stands behind it and the deposit left safely. */
  lemma WithdrawalsAreSafe(c: Judge.Config, self: Account, start: nat, steps: seq<Step>, i: nat) returns (j: nat)
    requires Legal(c, self, start, steps) && c.cooldown >= c.filingWindow + CLOCK_BUCKET_SECONDS
    requires var log := Exec(c, self, start, steps).log; i < |log| && log[i].Withdrawn?
    ensures var log := Exec(c, self, start, steps).log;
            j < i && log[j].Requested? && LeftSafely(log, i, j)
  {
    hide Consistent, RecordAgrees, Exec, Legal, LeftSafely, Grounded, Chronological;
    RunsAreRecorded(c, self, start, steps);
    var w := Exec(c, self, start, steps);
    j := RecordIsSafe(c, w.log, w.clock, i);
  }
}
