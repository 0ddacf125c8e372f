/** Why solvency needs the care taken in `ClaimSolvency`: an account that funds a deposit while one of its own
    releases is still undelivered has taken more than its escrow holds, and winding everything down shows it. */
module CarelessFunding {
  import opened Basics
  import opened Sums
  import opened ClaimRules
  import opened ClaimBookkeeping
  import opened ClaimProtocol
  import opened ClaimSolvency
  import opened ClaimDeposits
  import opened ClaimRuns
  import opened ClaimScenarios
  import Judge = ClaimJudge
  import Token

  /** Nobody funds, files or touches the token: claims are closed, deposits withdrawn, releases delivered. */
  predicate WindsDown(step: Step) {
    !step.TokenStep? && (step.JudgeStep? ==> !step.request.FundDeposit? && !step.request.SubmitClaim?)
  }

  predicate WindingDown(steps: seq<Step>) { forall step <- steps :: WindsDown(step) }

  /** `o`'s deposits and bonds fit its escrow, but not together with the releases already on their way. */
  ghost predicate Overdrawn(c: Judge.Config, self: Account, w: World, o: Account) {
    && c.hasToken && Token.Sound(w.token) && Consistent(w.judge) && Backed(w.judge, o)
    && (forall m <- w.pending :: m.amount > 0)
    && Get(w.judge.depositCommitted, o) + Get(w.judge.bonded, o) <= Token.EscrowOf(w.token, o, self) < Liability(w, o)
  }

  // ---------------------------------------------------------------- closing a claim

  /** Anybody's resolution of an open claim as undetermined: nobody wins, the bond goes back. */
  function Undecided(claim: Judge.Claim): Judge.Call {
    Judge.ResolveClaim(claim.requestId, claim.clauseId, Judge.Judged(Undetermined, ""))
  }

  lemma UndecidedSettles(c: Judge.Config, j: Judge.State, token: Token.State, self: Account, a: Account, key: string)
    requires Consistent(j) && key in j.claims && !j.claims[key].resolved
    ensures var (j', emitted) := Judge.Settle(c, j, token, self, key, Undetermined, "", a);
            Judge.Apply(c, j, token, self, a, Undecided(j.claims[key])) == Judge.Done(j', emitted)
  {
    assert WellFiled(j, key);
    hide Judge.Settle;
  }

  lemma UndecidedOwes(c: Judge.Config, self: Account, w: World, claim: Judge.Claim, a: Account, o: Account)
    requires c.hasToken && (claim.claimant == o ==> claim.bond <= Token.EscrowOf(w.token, o, self))
    ensures SeqSum(Judge.Payouts(c, w.judge, w.token, self, claim, Undetermined, a), OwedBy(o))
            == if claim.claimant == o then claim.bond else 0
  {
    hide Judge.Payouts, Token.EscrowOf;
    PayoutsSum(c, w, self, claim, Undetermined, a, OwedBy(o));
  }

  lemma BondFits(c: Judge.Config, self: Account, w: World, o: Account, key: string)
    requires Overdrawn(c, self, w, o) && key in w.judge.claims && !w.judge.claims[key].resolved
    ensures w.judge.claims[key].claimant == o ==>
      w.judge.claims[key].bond <= Get(w.judge.bonded, o) <= Token.EscrowOf(w.token, o, self)
  {
    hide Consistent, Token.Sound, Backed, Token.EscrowOf, Liability;
    OpenBondWithinBonded(w.judge, key);
  }

  /** It moves the bond from what is reserved to what is on its way, and nothing else of `o`'s. */
  lemma UndecidedKeepsLiability(c: Judge.Config, self: Account, w: World, w': World, a: Account,
                                key: string, o: Account)
    requires Overdrawn(c, self, w, o) && key in w.judge.claims && !w.judge.claims[key].resolved
    requires w'.judge == Judge.Settle(c, w.judge, w.token, self, key, Undetermined, "", a).0
    requires w'.pending == w.pending + multiset(Judge.Settle(c, w.judge, w.token, self, key, Undetermined, "", a).1)
    ensures Liability(w', o) == Liability(w, o) && Backed(w'.judge, o)
    ensures w'.judge.depositCommitted == w.judge.depositCommitted
    ensures Get(w'.judge.bonded, o) <= Get(w.judge.bonded, o)
  {
    hide Judge.Settle, Judge.Payouts, Consistent, Token.Sound, Backed, Token.EscrowOf, Owed, Judge.Decided;
    var claim := w.judge.claims[key];
    SettlePays(c, self, w, key, Undetermined, "", a);
    SettleCloses(c, w.judge, w.token, self, key, Undetermined, "", a);
    UndecidedDraws(c, w.judge, w.token, self, key, a);
    SameBacked(w.judge, w'.judge, o);
    BondFits(c, self, w, o, key);
    OwedAfter(w, w', Judge.Payouts(c, w.judge, w.token, self, claim, Undetermined, a), o);
    UndecidedOwes(c, self, w, claim, a, o);
  }

  lemma UndecidedDraws(c: Judge.Config, j: Judge.State, token: Token.State, self: Account, key: string, a: Account)
    requires key in j.claims
    ensures var j' := Judge.Settle(c, j, token, self, key, Undetermined, "", a).0;
            && j'.depositOwner == j.depositOwner && j'.depositAmount == j.depositAmount
            && j'.depositCommitted == j.depositCommitted
  {
    hide Judge.Decided, Judge.Payouts;
  }

  /** Open claims, anybody's. */
  ghost function OpenKeys(j: Judge.State): set<string> { set k | k in j.claims && !j.claims[k].resolved }

  lemma ClosesOne(c: Judge.Config, self: Account, w: World, o: Account, key: string) returns (step: Step)
    requires Overdrawn(c, self, w, o) && key in OpenKeys(w.judge)
    ensures WindsDown(step) && Possible(self, w, step)
    ensures var w' := Next(c, self, w, step);
            && Overdrawn(c, self, w', o) && OpenKeys(w'.judge) == OpenKeys(w.judge) - {key}
            && w'.judge.depositCommitted == w.judge.depositCommitted
  {
    hide Consistent, Judge.Settle, Judge.Apply, Token.Sound, Backed, Token.EscrowOf, EventOf, Liability, Closes;
    step := JudgeStep(o, Undecided(w.judge.claims[key]));
    var w' := Next(c, self, w, step);
    UndecidedSettles(c, w.judge, w.token, self, o, key);
    ApplyKeepsConsistent(c, w.judge, w.token, self, o, step.request);
    EmitsPositive(c, w.judge, w.token, self, o, step.request);
    SettleCloses(c, w.judge, w.token, self, key, Undetermined, "", o);
    ClosedIsNotOpen(w.judge, w'.judge, key);
    UndecidedKeepsLiability(c, self, w, w', o, key, o);
  }

  lemma ClosedIsNotOpen(j: Judge.State, j': Judge.State, key: string)
    requires key in j'.claims && Closes(j, j', key, j'.claims[key])
    ensures OpenKeys(j') == OpenKeys(j) - {key}
  {
  }

  // ---------------------------------------------------------------- withdrawing a deposit

  lemma WithdrawsOne(c: Judge.Config, self: Account, w: World, o: Account, slug: string) returns (steps: seq<Step>)
    requires Overdrawn(c, self, w, o) && OpenKeys(w.judge) == {}
    requires Judge.OwnerOf(w.judge, slug) == Some(o) && Get(w.judge.depositAmount, slug) > 0
    ensures WindingDown(steps) && PossibleFrom(c, self, w, steps)
    ensures var w' := Onward(c, self, w, steps);
            && Overdrawn(c, self, w', o) && OpenKeys(w'.judge) == {}
            && Get(w'.judge.depositCommitted, o) < Get(w.judge.depositCommitted, o)
  {
    hide Consistent, Backed, Token.Sound, Onward, CarefulFrom, PossibleFrom, Token.EscrowOf, Liability, Gone;
    var asked: nat := Max(w.clock, CLOCK_BUCKET_SECONDS);
    var left := asked + c.cooldown;
    NoneOpen(w.judge, slug);
    steps := Leaving(o, slug, asked, left);
    Leaves(c, self, w, o, slug, asked, left);
    CarefulIsPossible(c, self, w, steps);
    GoneKeepsOverdrawn(c, self, w, Onward(c, self, w, steps), o, slug);
  }

  lemma NoneOpen(j: Judge.State, slug: string)
    requires Consistent(j) && OpenKeys(j) == {}
    ensures Get(j.openClaims, slug) == 0
  {
    hide Consistent;
    forall k <- j.claims ensures j.claims[k].resolved { assert k !in OpenKeys(j); }
    NoOpenClaims(j, slug);
  }

  lemma GoneKeepsOverdrawn(c: Judge.Config, self: Account, w: World, w': World, o: Account, slug: string)
    requires Overdrawn(c, self, w, o)
    requires Judge.OwnerOf(w.judge, slug) == Some(o) && Get(w.judge.depositAmount, slug) > 0
    requires w'.token == w.token && w'.judge == Gone(w.judge, o, slug)
    requires w'.pending == w.pending + multiset{Judge.Message(o, o, Get(w.judge.depositAmount, slug))}
    ensures Overdrawn(c, self, w', o)
    ensures Get(w'.judge.depositCommitted, o) < Get(w.judge.depositCommitted, o)
    ensures OpenKeys(w'.judge) == OpenKeys(w.judge)
  {
    hide Consistent, Token.Sound, Token.EscrowOf, Backed, Owed;
    var amount := Get(w.judge.depositAmount, slug);
    DepositWithinCommitted(w.judge, slug);
    GoneKeepsConsistent(c, w.judge, o, slug);
    DrawsBacked(w.judge, w'.judge, slug, amount, o);
    OwedAfter(w, w', [Judge.Message(o, o, amount)], o);
    EmitSum(o, o, amount, OwedBy(o));
  }

  lemma GoneKeepsConsistent(c: Judge.Config, j: Judge.State, o: Account, slug: string)
    requires Consistent(j) && Judge.OwnerOf(j, slug) == Some(o)
    ensures Consistent(Gone(j, o, slug))
  {
    var j' := Gone(j, o, slug);
    forall a ensures Committed(j', a) {
      assert Committed(j, a);
      DrawsCommitted(j, j', slug, j.depositAmount[slug], a);
    }
    SameClaims(j, j');
  }

  // ---------------------------------------------------------------- until nothing is left to close or withdraw

  lemma SomethingDeposited(j: Judge.State, o: Account) returns (slug: string)
    requires Backed(j, o) && Get(j.depositCommitted, o) > 0
    ensures Judge.OwnerOf(j, slug) == Some(o) && Get(j.depositAmount, slug) > 0
  {
    slug := SomethingPositive(Deposits(j, o));
  }

  lemma {:induction false} SomethingPositive<K>(m: map<K, nat>) returns (k: K)
    requires Sum(m) > 0
    ensures k in m && m[k] > 0
    decreases |m|
  {
    k :| k in m;
    if m[k] == 0 {
      SumWithout(m, k);
      k := SomethingPositive(m - {k});
    }
  }

  lemma NothingBonded(j: Judge.State, o: Account)
    requires Consistent(j) && OpenKeys(j) == {}
    ensures Get(j.bonded, o) == 0
  {
    assert BondsAgree(j, o);
    forall k <- j.claimKeys ensures BondOf(o)(j.claims[k]) == 0 { assert k !in OpenKeys(j); }
    TallyPositive(j.claims, j.claimKeys, BondOf(o));
  }

  /** With everything closed and withdrawn, all that is held against `o`'s escrow is on its way out of it. */
  lemma {:induction false} WindsUp(c: Judge.Config, self: Account, w: World, o: Account) returns (steps: seq<Step>)
    requires Overdrawn(c, self, w, o)
    ensures WindingDown(steps) && PossibleFrom(c, self, w, steps)
    ensures var w' := Onward(c, self, w, steps);
            && Token.Sound(w'.token) && (forall m <- w'.pending :: m.amount > 0)
            && Owed(w', o) > Token.EscrowOf(w'.token, o, self)
    decreases |OpenKeys(w.judge)|, Get(w.judge.depositCommitted, o)
  {
    var first: seq<Step>;
    hide Consistent, Backed, Token.Sound, Onward, PossibleFrom, Token.EscrowOf, Next, Possible;
    if OpenKeys(w.judge) != {} {
      var key :| key in OpenKeys(w.judge);
      var step := ClosesOne(c, self, w, o, key);
      Single(c, self, w, step);
      first := [step];
    } else if Get(w.judge.depositCommitted, o) > 0 {
      var slug := SomethingDeposited(w.judge, o);
      first := WithdrawsOne(c, self, w, o, slug);
    } else {
      NothingBonded(w.judge, o);
      Nothing(c, self, w);
      return [];
    }
    var w1 := Onward(c, self, w, first);
    hide Overdrawn, OpenKeys, Liability;
    var rest := WindsUp(c, self, w1, o);
    Joined(c, self, w, first, rest);
    steps := first + rest;
  }

  // ---------------------------------------------------------------- until a release bounces

  /** More on its way than escrow to take it from: delivering goes on only until a release is refused. */
  lemma {:induction false} Bounces(c: Judge.Config, self: Account, w: World, o: Account)
    returns (steps: seq<Step>, m: Message)
    requires Token.Sound(w.token) && (forall m <- w.pending :: m.amount > 0)
    requires Owed(w, o) > Token.EscrowOf(w.token, o, self)
    ensures WindingDown(steps) && PossibleFrom(c, self, w, steps)
    ensures Stranded(c, self, Onward(c, self, w, steps), m) && m.owner == o
    decreases |w.pending|
  {
    m := SomethingOwed(w, o);
    hide Onward, PossibleFrom, Token.Sound, Token.EscrowOf, Token.Apply;
    Token.ReleaseNeverUnderflows(w.token, self, o, m.to, m.amount);
    if Token.Apply(w.token, self, ReleaseCall(m)).Done? {
      var step := Deliver(m);
      var w1 := Next(c, self, w, step);
      Token.ApplyKeepsSound(w.token, self, ReleaseCall(m));
      Token.ReleaseMoves(w.token, self, o, m.to, m.amount, o);
      BagSumWithout(w.pending, OwedBy(o), m);
      Single(c, self, w, step);
      var rest;
      rest, m := Bounces(c, self, w1, o);
      Joined(c, self, w, [step], rest);
      steps := [step] + rest;
    } else {
      Nothing(c, self, w);
      steps := [];
    }
  }

  /** A pending release that the token refuses. */
  ghost predicate Stranded(c: Judge.Config, self: Account, w: World, m: Message) {
    m in w.pending && Token.Apply(w.token, self, ReleaseCall(m)) == Token.Refused(Token.EscrowShort)
  }

  lemma SomethingOwed(w: World, o: Account) returns (m: Message)
    requires Owed(w, o) > 0
    ensures m in w.pending && m.owner == o
    decreases |w.pending|
  {
    m :| m in w.pending;
    if m.owner != o {
      BagSumWithout(w.pending, OwedBy(o), m);
      m := SomethingOwed(w.(pending := w.pending - multiset{m}), o);
    }
  }

  // ---------------------------------------------------------------- exactly when a refund can be stranded

  /** Winding down can come to a release that the token refuses. */
  ghost predicate CanStrand(c: Judge.Config, self: Account, w: World) {
    exists steps, m :: WindingDown(steps) && PossibleFrom(c, self, w, steps)
                       && Stranded(c, self, Onward(c, self, w, steps), m)
  }

  lemma OverdrawnStrands(c: Judge.Config, self: Account, w: World, o: Account) returns (steps: seq<Step>, m: Message)
    requires Overdrawn(c, self, w, o)
    ensures WindingDown(steps) && PossibleFrom(c, self, w, steps)
    ensures Stranded(c, self, Onward(c, self, w, steps), m) && m.owner == o
    ensures CanStrand(c, self, w)
  {
    hide Overdrawn, Token.Sound, Onward, PossibleFrom, Token.EscrowOf, Owed, Stranded;
    var down := WindsUp(c, self, w, o);
    var bounced;
    bounced, m := Bounces(c, self, Onward(c, self, w, down), o);
    Joined(c, self, w, down, bounced);
    steps := down + bounced;
  }

  lemma {:induction false} WindingDownKeepsSolvent(c: Judge.Config, self: Account, w: World, steps: seq<Step>)
    requires Solvent(c, self, w) && WindingDown(steps) && PossibleFrom(c, self, w, steps)
    ensures Solvent(c, self, Onward(c, self, w, steps))
  {
    hide Solvent, Next, Possible, Owed;
    if steps != [] {
      var init := steps[..|steps| - 1];
      WindingDownKeepsSolvent(c, self, w, init);
      assert WindsDown(steps[|steps| - 1]);
      StepKeepsSolvent(c, self, Onward(c, self, w, init), steps[|steps| - 1]);
    }
  }

  lemma SolventNeverStrands(c: Judge.Config, self: Account, w: World)
    requires Solvent(c, self, w)
    ensures !CanStrand(c, self, w)
  {
    hide Solvent, Onward, PossibleFrom, Token.Apply, WindingDown;
    forall steps, m | WindingDown(steps) && PossibleFrom(c, self, w, steps)
      ensures !Stranded(c, self, Onward(c, self, w, steps), m)
    {
      WindingDownKeepsSolvent(c, self, w, steps);
      if m in Onward(c, self, w, steps).pending { DeliverySucceeds(c, self, Onward(c, self, w, steps), m); }
    }
  }

  /** What a funding or a filing that goes through leaves of the sender's room. */
  lemma StaysWithinEscrow(c: Judge.Config, self: Account, w: World, sender: Account, request: Judge.Call)
    requires SolventFor(c, self, w, sender) && (request.FundDeposit? || request.SubmitClaim?)
    requires Judge.Apply(c, w.judge, w.token, self, sender, request).Done?
    ensures var w' := Next(c, self, w, JudgeStep(sender, request));
            && w'.token == w.token && w'.pending == w.pending
            && Get(w'.judge.depositCommitted, sender) + Get(w'.judge.bonded, sender)
               <= Judge.Escrowed(c, w.token, self, sender)
  {
    hide Judge.Escrowed, CheckEligibility, ClaimKey, EventOf, Owed;
    OwedNonNegative(w, sender);
    assert w.pending + multiset([]) == w.pending;
  }

  lemma NothingOwedWithoutToken(c: Judge.Config, self: Account, w: World, o: Account)
    requires Solvent(c, self, w) && Owed(w, o) > 0
    ensures c.hasToken
  {
    hide Consistent, Token.Sound;
  }

  lemma InsolventIsOverdrawn(c: Judge.Config, self: Account, w: World, sender: Account, request: Judge.Call)
    requires Solvent(c, self, w) && Backed(w.judge, sender) && (request.FundDeposit? || request.SubmitClaim?)
    requires Judge.Apply(c, w.judge, w.token, self, sender, request).Done? && Owed(w, sender) > 0
    requires !SolventFor(c, self, Next(c, self, w, JudgeStep(sender, request)), sender)
    ensures Overdrawn(c, self, Next(c, self, w, JudgeStep(sender, request)), sender)
  {
    hide Consistent, Token.Sound, Judge.Apply, EventOf, Owed, Token.EscrowOf, Backed;
    assert SolventFor(c, self, w, sender);
    NothingOwedWithoutToken(c, self, w, sender);
    StaysWithinEscrow(c, self, w, sender, request);
    ApplyKeepsConsistent(c, w.judge, w.token, self, sender, request);
    JudgeStepBacked(c, self, w, sender, request, sender);
  }

  /** After careful runs: a funding that goes through can strand a release, with nobody funding, filing or
      touching the token any more, exactly when one of the sender's releases was undelivered. */
  lemma FundingStrandsIff(c: Judge.Config, self: Account, start: nat, steps: seq<Step>, sender: Account, slug: string)
    requires CarefulRun(c, self, start, steps)
    requires var w := Exec(c, self, start, steps); Judge.Fund(c, w.judge, w.token, self, sender, slug).Done?
    ensures var w := Exec(c, self, start, steps);
            CanStrand(c, self, Next(c, self, w, JudgeStep(sender, Judge.FundDeposit(slug)))) <==> Owed(w, sender) > 0
  {
    hide Solvent, Exec, CarefulRun, Next, Backed, Overdrawn, CanStrand, SolventFor, Owed, Judge.Fund;
    CarefulRunsAreSolvent(c, self, start, steps);
    DepositsAreCommitted(c, self, start, steps, sender);
    var w, request := Exec(c, self, start, steps), Judge.FundDeposit(slug);
    OwedNonNegative(w, sender);
    FundKeepsSolvencyIff(c, self, w, sender, slug);
    if Owed(w, sender) > 0 {
      InsolventIsOverdrawn(c, self, w, sender, request);
      var more, m := OverdrawnStrands(c, self, Next(c, self, w, JudgeStep(sender, request)), sender);
    } else {
      CallKeepsSolvent(c, self, w, sender, request);
      SolventNeverStrands(c, self, Next(c, self, w, JudgeStep(sender, request)));
    }
  }

  /** And a filing, exactly when the escrow its own guard looks at, less what is on its way, is short of the bond. */
  lemma FilingStrandsIff(c: Judge.Config, self: Account, start: nat, steps: seq<Step>, sender: Account,
                         request: Judge.Call)
    requires CarefulRun(c, self, start, steps) && request.SubmitClaim?
    requires var w := Exec(c, self, start, steps); Judge.Apply(c, w.judge, w.token, self, sender, request).Done?
    ensures var w := Exec(c, self, start, steps);
            var available := AvailableEscrow(Judge.Escrowed(c, w.token, self, sender),
                                             Get(w.judge.depositCommitted, sender), Get(w.judge.bonded, sender));
            CanStrand(c, self, Next(c, self, w, JudgeStep(sender, request)))
            <==> c.bondAmount > 0 && available - Owed(w, sender) < c.bondAmount
  {
    hide Solvent, Exec, CarefulRun, Next, Backed, Overdrawn, CanStrand, SolventFor, Owed, Judge.Apply, Judge.Escrowed;
    CarefulRunsAreSolvent(c, self, start, steps);
    DepositsAreCommitted(c, self, start, steps, sender);
    var w := Exec(c, self, start, steps);
    OwedNonNegative(w, sender);
    SubmitKeepsSolvencyIff(c, self, w, sender, request);
    if SolventFor(c, self, Next(c, self, w, JudgeStep(sender, request)), sender) {
      CallKeepsSolvent(c, self, w, sender, request);
      SolventNeverStrands(c, self, Next(c, self, w, JudgeStep(sender, request)));
    } else {
      InsolventIsOverdrawn(c, self, w, sender, request);
      var more, m := OverdrawnStrands(c, self, Next(c, self, w, JudgeStep(sender, request)), sender);
    }
  }

  // ---------------------------------------------------------------- a whole run

  /** Deposit and withdraw. */
  lemma RefundUndelivered(c: Judge.Config, self: Account, slug: string) returns (steps: seq<Step>)
    requires c.hasToken
    ensures CarefulRun(c, self, CLOCK_BUCKET_SECONDS, steps)
    ensures var w, a := Exec(c, self, CLOCK_BUCKET_SECONDS, steps), Provider(self);
            Owed(w, a) > 0 && Judge.Fund(c, w.judge, w.token, self, a, slug).Done?
  {
    hide Onward, CarefulFrom, Token.Sound, Token.EscrowOf, Leaving;
    var start := CLOCK_BUCKET_SECONDS;
    var a, left := Provider(self), start + c.cooldown;
    var backed := Back(c, self, start, slug);
    var w := Onward(c, self, Start(start), backed);
    Leaves(c, self, w, a, slug, start, left);
    steps := backed + Leaving(a, slug, start, left);
    Joined(c, self, Start(start), backed, Leaving(a, slug, start, left));
    FromTheStart(c, self, start, steps);
    OwedAfter(w, Exec(c, self, start, steps), [Judge.Message(a, a, 1)], a);
    OwedNonNegative(w, a);
    EmitSum(a, a, 1, OwedBy(a));
  }

  /** In every deployment with a token some run from deployment ends with a release that can never be paid:
      deposit, withdraw, and deposit the same escrow again before the refund is delivered. */
  lemma OneRefundIsStranded(c: Judge.Config, self: Account) returns (steps: seq<Step>, m: Message)
    requires c.hasToken
    ensures Legal(c, self, CLOCK_BUCKET_SECONDS, steps)
    ensures Stranded(c, self, Exec(c, self, CLOCK_BUCKET_SECONDS, steps), m)
  {
    hide Onward, PossibleFrom, Stranded, Next, Owed, Judge.Fund;
    var start, again := CLOCK_BUCKET_SECONDS, JudgeStep(Provider(self), Judge.FundDeposit(""));
    var refunded := RefundUndelivered(c, self, "");
    FundingStrandsIff(c, self, start, refunded, Provider(self), "");
    var w := Exec(c, self, start, refunded);
    var more;
    more, m :| WindingDown(more) && PossibleFrom(c, self, Next(c, self, w, again), more)
               && Stranded(c, self, Onward(c, self, Next(c, self, w, again), more), m);
    FromTheStart(c, self, start, refunded);
    CarefulIsPossible(c, self, Start(start), refunded);
    Then(c, self, Start(start), refunded, again);
    Joined(c, self, Start(start), refunded + [again], more);
    steps := refunded + [again] + more;
    FromTheStart(c, self, start, steps);
  }
}
