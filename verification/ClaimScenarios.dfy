/** Runs from deployment, by accounts that are careful at every step, that reach the limits of what the calls
    promise: a failed read that hides an open claim, and a cooldown that is too short. */
module ClaimScenarios {
  import opened Basics
  import opened Sums
  import opened ClaimRules
  import opened ClaimBookkeeping
  import opened ClaimProtocol
  import opened ClaimHistory
  import opened ClaimRuns
  import Judge = ClaimJudge
  import Token

  function Provider(self: Account): Account { Token.Account.Account(self.id + 1) }

  function Consumer(self: Account): Account { Token.Account.Account(self.id + 2) }

  // ---------------------------------------------------------------- single calls that go through

  /** One unit of escrow behind `slug`, and nothing else. */
  ghost function Backing(a: Account, slug: string, requestedAt: nat): Judge.State {
    Judge.EMPTY.(depositOwner := map[slug := a], depositAmount := map[slug := 1], depositCommitted := map[a := 1],
                 withdrawalRequestedAt := map[slug := requestedAt])
  }

  lemma Funds(c: Judge.Config, self: Account, w: World, a: Account, slug: string)
    requires c.hasToken && w.judge == Judge.EMPTY && Token.EscrowOf(w.token, a, self) == 1
    ensures Next(c, self, w, JudgeStep(a, Judge.FundDeposit(slug)))
            == w.(judge := Backing(a, slug, 0), log := w.log + [Funded(slug, 1)])
  {
    hide Token.EscrowOf;
    assert w.pending + multiset([]) == w.pending;
  }

  /** The provider mints, escrows and funds `slug` with one unit. */
  lemma Back(c: Judge.Config, self: Account, start: nat, slug: string) returns (steps: seq<Step>)
    requires c.hasToken
    ensures CarefulFrom(c, self, Start(start), steps)
    ensures var w := Onward(c, self, Start(start), steps);
            && w == World(w.token, Backing(Provider(self), slug, 0), multiset{}, start, [Funded(slug, 1)])
            && Token.Sound(w.token) && Token.EscrowOf(w.token, Provider(self), self) == 1
  {
    var a := Provider(self);
    Token.ReachableIsSound([]);
    steps := Endow(c, self, Start(start), a, 1);
    var w := Onward(c, self, Start(start), steps);
    var step := JudgeStep(a, Judge.FundDeposit(slug));
    Funds(c, self, w, a, slug);
    hide Token.Sound, Next, Onward, CarefulFrom;
    Then(c, self, Start(start), steps, step);
    steps := steps + [step];
  }

  /** The filing that a consumer with enough escrow makes at `now`, on a verdict written at `writtenAt`. */
  function Filing(requestId: string, slug: string, writtenAt: nat, now: nat): Judge.Call {
    Judge.SubmitClaim(requestId, "", slug, "0x", Judge.Read(Verdict(OfSlug(slug), writtenAt, 0), now), Some(""))
  }

  lemma Files(c: Judge.Config, self: Account, w: World, b: Account, requestId: string, slug: string, writtenAt: nat)
    requires c.hasToken && IsRequestId(requestId) && w.judge.claims == map[]
    requires Get(w.judge.depositCommitted, b) == 0 && Get(w.judge.bonded, b) == 0
    requires Token.EscrowOf(w.token, b, self) >= c.bondAmount
    requires 0 < writtenAt <= w.clock <= writtenAt + c.filingWindow
    ensures var w' := Next(c, self, w, JudgeStep(b, Filing(requestId, slug, writtenAt, w.clock)));
            var key := Judge.KeyOf(requestId, "");
            && w' == w.(judge := w'.judge, log := w.log + [Filed(slug, key, writtenAt, w.clock)])
            && w'.judge == w.judge.(claims := w'.judge.claims, claimKeys := w'.judge.claimKeys,
                                    bonded := w'.judge.bonded, openClaims := w'.judge.openClaims)
            && key in w'.judge.claims && !w'.judge.claims[key].resolved && w'.judge.claims[key].slug == slug
            && Get(w'.judge.openClaims, slug) == Get(w.judge.openClaims, slug) + 1
  {
    hide Token.EscrowOf, ClaimKey, Bucketed;
    assert w.pending + multiset([]) == w.pending;
  }

  /** The consumer mints and escrows the bond, and files. */
  lemma File(c: Judge.Config, self: Account, w: World, requestId: string, slug: string, writtenAt: nat)
    returns (steps: seq<Step>)
    requires c.hasToken && IsRequestId(requestId) && w.judge.claims == map[] && Token.Sound(w.token)
    requires Get(w.judge.depositCommitted, Consumer(self)) == 0 && Get(w.judge.bonded, Consumer(self)) == 0
    requires Owed(w, Consumer(self)) == 0
    requires 0 < writtenAt <= w.clock <= writtenAt + c.filingWindow
    ensures CarefulFrom(c, self, w, steps)
    ensures var w' := Onward(c, self, w, steps);
            var key := Judge.KeyOf(requestId, "");
            && w'.pending == w.pending && w'.clock == w.clock
            && w'.log == w.log + [Filed(slug, key, writtenAt, w.clock)]
            && w'.judge == w.judge.(claims := w'.judge.claims, claimKeys := w'.judge.claimKeys,
                                    bonded := w'.judge.bonded, openClaims := w'.judge.openClaims)
            && key in w'.judge.claims && !w'.judge.claims[key].resolved && w'.judge.claims[key].slug == slug
            && Get(w'.judge.openClaims, slug) == Get(w.judge.openClaims, slug) + 1
  {
    var b := Consumer(self);
    steps := Endow(c, self, w, b, c.bondAmount);
    var w1 := Onward(c, self, w, steps);
    var step := JudgeStep(b, Filing(requestId, slug, writtenAt, w.clock));
    Files(c, self, w1, b, requestId, slug, writtenAt);
    hide Token.Sound, Next, Onward, CarefulFrom, IsRequestId;
    Then(c, self, w, steps, step);
    steps := steps + [step];
  }

  lemma NothingOwed(w: World, o: Account)
    requires forall m <- w.pending :: m.owner != o
    ensures Owed(w, o) == 0
    decreases |w.pending|
  {
    if w.pending != multiset{} {
      var m :| m in w.pending;
      BagSumWithout(w.pending, OwedBy(o), m);
      var rest := w.(pending := w.pending - multiset{m});
      NothingOwed(rest, o);
    }
  }

  // ---------------------------------------------------------------- a failed read hides an open claim

  /** In every deployment with a token there is a run, by careful accounts, after which a claim against the slug
      stands open, its depositor is told so whenever the clock is read, and is told that the read failed
      when it does. */
  lemma FailedReadHidesTheOpenClaim(c: Judge.Config, self: Account, requestId: string, slug: string)
    returns (steps: seq<Step>)
    requires c.hasToken && IsRequestId(requestId)
    ensures CarefulRun(c, self, CLOCK_BUCKET_SECONDS, steps)
    ensures var j := Exec(c, self, CLOCK_BUCKET_SECONDS, steps).judge;
            && (exists k <- j.claims :: j.claims[k].slug == slug && !j.claims[k].resolved)
            && Judge.Withdraw(c, j, Provider(self), slug, None) == Judge.Refused(ReadFailed)
            && forall now: nat :: Judge.Withdraw(c, j, Provider(self), slug, Some(now)) == Judge.Refused(ClaimsOpen)
  {
    var start := CLOCK_BUCKET_SECONDS;
    var backed := Back(c, self, start, slug);
    var w1 := Onward(c, self, Start(start), backed);
    NothingOwed(w1, Consumer(self));
    var filed := File(c, self, w1, requestId, slug, start);
    var w2 := Onward(c, self, w1, filed);
    var step := JudgeStep(Provider(self), Judge.RequestWithdrawal(slug, Some(start)));
    steps := backed + filed + [step];
    Requests(c, self, w2, Provider(self), slug);
    hide Onward, CarefulFrom, Next, Token.Sound, Max, CooldownElapsed;
    Joined(c, self, Start(start), backed, filed);
    Then(c, self, Start(start), backed + filed, step);
    FromTheStart(c, self, start, steps);
    assert Judge.KeyOf(requestId, "") in w2.judge.claims;
  }

  // ---------------------------------------------------------------- a cooldown that is too short

  /** Every withdrawal on record left on a request made before any verdict that is claimed on later. */
  ghost predicate SafeRecord(log: seq<Event>) {
    forall i :: 0 <= i < |log| && log[i].Withdrawn? ==>
      exists j :: 0 <= j < i && log[j].Requested? && LeftSafely(log, i, j)
  }

  lemma BackingLeaves(a: Account, slug: string)
    ensures var j := Backing(a, slug, 0);
            && Judge.OwnerOf(j, slug) == Some(a) && Get(j.depositAmount, slug) == 1 && Get(j.openClaims, slug) == 0
            && var j' := Gone(j, a, slug);
               j'.claims == map[] && j'.bonded == map[] && j'.depositCommitted == map[a := 0]
  {
  }

  /** A deposit withdrawn as soon as the cooldown counted from the rounded request time allows. */
  lemma LeavesEarly(c: Judge.Config, self: Account, w: World, slug: string, left: nat) returns (steps: seq<Step>)
    requires c.hasToken && Token.Sound(w.token) && w.clock == 2 * CLOCK_BUCKET_SECONDS - 1
    requires w == World(w.token, Backing(Provider(self), slug, 0), multiset{}, w.clock, [Funded(slug, 1)])
    requires left >= w.clock && left >= CLOCK_BUCKET_SECONDS + c.cooldown
    ensures CarefulFrom(c, self, w, steps)
    ensures var w' := Onward(c, self, w, steps);
            && Token.Sound(w'.token) && w'.clock == left && w'.judge.claims == map[] && w'.judge.bonded == map[]
            && w'.judge.depositCommitted == map[Provider(self) := 0] && Owed(w', Consumer(self)) == 0
            && w'.log == [Funded(slug, 1), Requested(slug, w.clock), Withdrawn(slug, 1, left)]
  {
    hide Onward, CarefulFrom, Token.Sound, Leaving, Backing, Gone, Owed;
    var a := Provider(self);
    assert Bucketed(w.clock) == CLOCK_BUCKET_SECONDS;
    BackingLeaves(a, slug);
    Leaves(c, self, w, a, slug, w.clock, left);
    steps := Leaving(a, slug, w.clock, left);
    NothingOwed(Onward(c, self, w, steps), Consumer(self));
  }

  /** With a cooldown below the filing window and one clock bucket, careful accounts can withdraw a deposit and
      then file a claim on a call whose verdict was on record when the withdrawal was requested. */
  lemma ShortCooldownLeaks(c: Judge.Config, self: Account, requestId: string, slug: string)
    returns (start: nat, left: nat, steps: seq<Step>)
    requires c.hasToken && IsRequestId(requestId) && c.cooldown < c.filingWindow + CLOCK_BUCKET_SECONDS
    ensures CarefulRun(c, self, start, steps)
    ensures Exec(c, self, start, steps).log
            == [Funded(slug, 1), Requested(slug, start), Withdrawn(slug, 1, left)]
               + [Filed(slug, Judge.KeyOf(requestId, ""), start, left)]
  {
    hide Onward, CarefulFrom, Token.Sound, Owed, Backing, Token.EscrowOf, IsRequestId, ClaimKey, CanonicalRequestId;
    start := 2 * CLOCK_BUCKET_SECONDS - 1;
    left := Max(start, CLOCK_BUCKET_SECONDS + c.cooldown);
    var backed := Back(c, self, start, slug);
    var leaving := LeavesEarly(c, self, Onward(c, self, Start(start), backed), slug, left);
    Joined(c, self, Start(start), backed, leaving);
    var filed := File(c, self, Onward(c, self, Start(start), backed + leaving), requestId, slug, start);
    steps := backed + leaving + filed;
    Joined(c, self, Start(start), backed + leaving, filed);
    FromTheStart(c, self, start, steps);
  }

  lemma LeakIsUnsafe(slug: string, key: string, start: nat, left: nat)
    ensures !SafeRecord([Funded(slug, 1), Requested(slug, start), Withdrawn(slug, 1, left)]
                        + [Filed(slug, key, start, left)])
  {
    var log := [Funded(slug, 1), Requested(slug, start), Withdrawn(slug, 1, left)] + [Filed(slug, key, start, left)];
    assert log[2].Withdrawn? && log[3].Filed? && log[3].writtenAt <= log[1].at;
    forall j | 0 <= j < 2 && log[j].Requested? ensures !LeftSafely(log, 2, j) { assert j == 1; }
  }

  /** Without a token nothing is ever funded, so nothing withdrawn. */
  lemma {:induction false} NothingWithdrawn(c: Judge.Config, self: Account, start: nat, steps: seq<Step>)
    requires !c.hasToken
    ensures Unfunded(Exec(c, self, start, steps))
  {
    hide Next, Unfunded;
    if steps == [] {
      StartsUnfunded(start);
    } else {
      NothingWithdrawn(c, self, start, steps[..|steps| - 1]);
      StaysUnfunded(c, self, Exec(c, self, start, steps[..|steps| - 1]), steps[|steps| - 1]);
    }
  }

  ghost predicate Unfunded(w: World) {
    w.judge.depositOwner == map[] && forall i :: 0 <= i < |w.log| ==> !w.log[i].Withdrawn?
  }

  lemma StartsUnfunded(start: nat)
    ensures Unfunded(Start(start))
  {
  }

  lemma SettleBindsNothing(c: Judge.Config, j: Judge.State, token: Token.State, self: Account, key: string,
                           outcome: Outcome, reasoning: string, resolver: Account)
    requires key in j.claims
    ensures Judge.Settle(c, j, token, self, key, outcome, reasoning, resolver).0.depositOwner == j.depositOwner
  {
    hide Judge.Decided, Judge.Payouts, Judge.Drawn, Judge.DepositAvailable, Max;
  }

  lemma UnfundedCalls(c: Judge.Config, j: Judge.State, token: Token.State, self: Account, a: Account, call: Judge.Call)
    requires !c.hasToken && j.depositOwner == map[]
    ensures Judge.After(c, j, token, self, a, call).depositOwner == map[]
    ensures Judge.Apply(c, j, token, self, a, call).Done? ==> !call.WithdrawDeposit?
  {
    hide Judge.Settle, CheckEligibility, ClaimKey;
    if (call.ResolveClaim? || call.CancelClaim?) && Judge.Apply(c, j, token, self, a, call).Done? {
      var key, outcome, reasoning := ClosingSettles(c, j, token, self, a, call);
      SettleBindsNothing(c, j, token, self, key, outcome, reasoning, a);
    }
  }

  lemma StaysUnfunded(c: Judge.Config, self: Account, w: World, step: Step)
    requires !c.hasToken && Unfunded(w)
    ensures Unfunded(Next(c, self, w, step))
  {
    hide Judge.Apply;
    if step.JudgeStep? { UnfundedCalls(c, w.judge, w.token, self, step.sender, step.request); }
  }

  const SOME_REQUEST := "0x" + seq(64, _ => '0')

  /** Over whole runs, careful or not: withdrawals are safe exactly when the cooldown is at least the filing
      window and one bucket of the clock (or there is no token to deposit). */
  lemma WithdrawalsAreSafeIff(c: Judge.Config, self: Account)
    ensures (forall start: nat, steps | Legal(c, self, start, steps) :: SafeRecord(Exec(c, self, start, steps).log))
            <==> !c.hasToken || c.cooldown >= c.filingWindow + CLOCK_BUCKET_SECONDS
    ensures (forall start: nat, steps | CarefulRun(c, self, start, steps) ::
               SafeRecord(Exec(c, self, start, steps).log))
            <==> !c.hasToken || c.cooldown >= c.filingWindow + CLOCK_BUCKET_SECONDS
  {
    hide Exec, Legal, CarefulRun, SafeRecord;
    forall start: nat, steps | CarefulRun(c, self, start, steps) ensures Legal(c, self, start, steps) {
      FromTheStart(c, self, start, steps);
      CarefulIsPossible(c, self, Start(start), steps);
    }
    if !c.hasToken || c.cooldown >= c.filingWindow + CLOCK_BUCKET_SECONDS {
      forall start: nat, steps | Legal(c, self, start, steps) ensures SafeRecord(Exec(c, self, start, steps).log) {
        RecordsAreSafe(c, self, start, steps);
      }
    } else {
      assert IsRequestId(SOME_REQUEST);
      var start, left, steps := ShortCooldownLeaks(c, self, SOME_REQUEST, "");
      LeakIsUnsafe("", Judge.KeyOf(SOME_REQUEST, ""), start, left);
    }
  }

  lemma RecordsAreSafe(c: Judge.Config, self: Account, start: nat, steps: seq<Step>)
    requires Legal(c, self, start, steps)
    requires !c.hasToken || c.cooldown >= c.filingWindow + CLOCK_BUCKET_SECONDS
    ensures SafeRecord(Exec(c, self, start, steps).log)
  {
    hide Exec, Legal, LeftSafely;
    var log := Exec(c, self, start, steps).log;
    if !c.hasToken {
      NothingWithdrawn(c, self, start, steps);
    } else {
      forall i | 0 <= i < |log| && log[i].Withdrawn?
        ensures exists j :: 0 <= j < i && log[j].Requested? && LeftSafely(log, i, j)
      {
        var j := WithdrawalsAreSafe(c, self, start, steps, i);
      }
    }
  }
}
