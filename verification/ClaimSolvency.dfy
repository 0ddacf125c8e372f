/** Solvency over every run: what the judge has recorded against an account's escrow, plus what it has
    already emitted out of it, never exceeds the escrow, so every release goes through. */
module ClaimSolvency {
  import opened Basics
  import opened Sums
  import opened ClaimRules
  import opened ClaimBookkeeping
  import opened ClaimProtocol
  import Judge = ClaimJudge
  import Token

  /** Everything that draws on `o`'s escrow: deposits, bonds, and releases on their way. */
  ghost function Liability(w: World, o: Account): int {
    Get(w.judge.depositCommitted, o) + Get(w.judge.bonded, o) + Owed(w, o)
  }

  lemma OwedAfter(w: World, w': World, emitted: seq<Message>, o: Account)
    requires w'.pending == w.pending + multiset(emitted)
    ensures Owed(w', o) == Owed(w, o) + SeqSum(emitted, OwedBy(o))
  {
    BagSumAdd(w.pending, emitted, OwedBy(o));
  }

  // ---------------------------------------------------------------- judge calls

  /** What a settlement's releases take from `o`'s escrow: the deposit they draw on, and no more than the
      claimant's bond. */
  lemma PayoutsOwed(c: Judge.Config, self: Account, w: World, claim: Judge.Claim, outcome: Outcome, resolver: Account,
                    o: Account)
    ensures var drawn := Judge.Drawn(c, w.judge, w.token, self, claim, outcome);
            && (drawn > 0 ==> Judge.OwnerOf(w.judge, claim.slug).Some?)
            && SeqSum(Judge.Payouts(c, w.judge, w.token, self, claim, outcome, resolver), OwedBy(o))
               <= (if drawn > 0 && Judge.OwnerOf(w.judge, claim.slug) == Some(o) then drawn else 0)
                  + (if claim.claimant == o then claim.bond else 0)
  {
    if c.hasToken {
      PayoutsSum(c, w, self, claim, outcome, resolver, OwedBy(o));
      hide Judge.Payouts;
    }
  }

  lemma SettlePays(c: Judge.Config, self: Account, w: World, key: string,
                   outcome: Outcome, reasoning: string, resolver: Account)
    requires key in w.judge.claims
    ensures Judge.Settle(c, w.judge, w.token, self, key, outcome, reasoning, resolver).1
            == Judge.Payouts(c, w.judge, w.token, self, w.judge.claims[key], outcome, resolver)
  {
  }

  /** Settling moves liabilities, it never adds any: what leaves a total is what the releases carry. */
  lemma SettleLiability(c: Judge.Config, self: Account, w: World, w': World, key: string,
                        outcome: Outcome, reasoning: string, resolver: Account, o: Account)
    requires Consistent(w.judge) && key in w.judge.claims && !w.judge.claims[key].resolved
    requires w'.judge == Judge.Settle(c, w.judge, w.token, self, key, outcome, reasoning, resolver).0
    requires w'.pending == w.pending
             + multiset(Judge.Settle(c, w.judge, w.token, self, key, outcome, reasoning, resolver).1)
    ensures Liability(w', o) <= Liability(w, o)
  {
    hide Consistent, Judge.Settle, Judge.Payouts, Judge.Drawn;
    var claim := w.judge.claims[key];
    DepositsAreBound(w.judge);
    SettlePays(c, self, w, key, outcome, reasoning, resolver);
    SettleCloses(c, w.judge, w.token, self, key, outcome, reasoning, resolver);
    SettleDraws(c, w.judge, w.token, self, key, outcome, reasoning, resolver);
    OwedAfter(w, w', Judge.Payouts(c, w.judge, w.token, self, claim, outcome, resolver), o);
    PayoutsOwed(c, self, w, claim, outcome, resolver, o);
    OpenBondWithinBonded(w.judge, key);
    if claim.slug in w.judge.depositOwner {
      DepositWithinCommitted(w.judge, claim.slug);
    }
  }

  lemma WithdrawLiability(c: Judge.Config, self: Account, w: World, sender: Account, slug: string, clock: Option<nat>,
                          o: Account)
    requires Consistent(w.judge) && Judge.Withdraw(c, w.judge, sender, slug, clock).Done?
    ensures Liability(Next(c, self, w, JudgeStep(sender, Judge.WithdrawDeposit(slug, clock))), o) <= Liability(w, o)
  {
    hide Consistent;
    var w' := Next(c, self, w, JudgeStep(sender, Judge.WithdrawDeposit(slug, clock)));
    var amount := Get(w.judge.depositAmount, slug);
    DepositWithinCommitted(w.judge, slug);
    OwedAfter(w, w', Judge.Emit(sender, sender, amount), o);
    EmitSum(sender, sender, amount, OwedBy(o));
  }

  lemma OtherLiability(c: Judge.Config, self: Account, w: World, sender: Account, request: Judge.Call, o: Account)
    requires Judge.Apply(c, w.judge, w.token, self, sender, request).Done?
    requires request.FundDeposit? || request.SubmitClaim? ==> o != sender
    requires !request.ResolveClaim? && !request.CancelClaim? && !request.WithdrawDeposit?
    ensures Liability(Next(c, self, w, JudgeStep(sender, request)), o) == Liability(w, o)
  {
    hide CheckEligibility, ClaimKey, EventOf;
    OwedAfter(w, Next(c, self, w, JudgeStep(sender, request)), [], o);
  }

  lemma CloseLiability(c: Judge.Config, self: Account, w: World, sender: Account, request: Judge.Call, o: Account)
    requires Consistent(w.judge) && Judge.Apply(c, w.judge, w.token, self, sender, request).Done?
    requires request.ResolveClaim? || request.CancelClaim?
    ensures Liability(Next(c, self, w, JudgeStep(sender, request)), o) <= Liability(w, o)
  {
    hide Consistent, Judge.Settle, Judge.Apply, EventOf;
    var key, outcome, reasoning := ClosingSettles(c, w.judge, w.token, self, sender, request);
    SettleLiability(c, self, w, Next(c, self, w, JudgeStep(sender, request)), key, outcome, reasoning, sender, o);
  }

  /** No call but the account's own funding or filing adds to what is held against it. */
  lemma JudgeStepLiability(c: Judge.Config, self: Account, w: World, sender: Account, request: Judge.Call, o: Account)
    requires Consistent(w.judge) && Judge.Apply(c, w.judge, w.token, self, sender, request).Done?
    requires request.FundDeposit? || request.SubmitClaim? ==> o != sender
    ensures Liability(Next(c, self, w, JudgeStep(sender, request)), o) <= Liability(w, o)
  {
    hide Consistent, Next, Liability, Judge.Settle, Judge.Fund, Judge.Submit, Judge.Resolve, Judge.Cancel;
    if request.ResolveClaim? || request.CancelClaim? {
      CloseLiability(c, self, w, sender, request, o);
    } else if request.WithdrawDeposit? {
      WithdrawLiability(c, self, w, sender, request.slug, request.clock, o);
    } else {
      OtherLiability(c, self, w, sender, request, o);
    }
  }

  /** Funding allocates all of the sender's escrow that is not already a deposit or a bond, including
      whatever is on its way out; so solvency survives it exactly when nothing is. */
  lemma FundKeepsSolvencyIff(c: Judge.Config, self: Account, w: World, sender: Account, slug: string)
    requires Solvent(c, self, w) && Judge.Fund(c, w.judge, w.token, self, sender, slug).Done?
    ensures var w' := Next(c, self, w, JudgeStep(sender, Judge.FundDeposit(slug)));
            SolventFor(c, self, w', sender) <==> Owed(w, sender) == 0
  {
    hide Solvent, EventOf;
    OwedNonNegative(w, sender);
    OwedAfter(w, Next(c, self, w, JudgeStep(sender, Judge.FundDeposit(slug))), [], sender);
  }

  /** Filing takes one bond more out of the sender's escrow; solvency survives it exactly when the test the
      call makes on that escrow would still pass with what is already on its way out taken off. */
  lemma SubmitKeepsSolvencyIff(c: Judge.Config, self: Account, w: World, sender: Account, request: Judge.Call)
    requires Solvent(c, self, w) && request.SubmitClaim?
             && Judge.Apply(c, w.judge, w.token, self, sender, request).Done?
    ensures var escrowed := Judge.Escrowed(c, w.token, self, sender);
            var available := AvailableEscrow(escrowed, Get(w.judge.depositCommitted, sender),
                Get(w.judge.bonded, sender));
            SolventFor(c, self, Next(c, self, w, JudgeStep(sender, request)), sender)
            <==> c.bondAmount == 0 || available - Owed(w, sender) >= c.bondAmount
    ensures Owed(w, sender) == 0 ==> SolventFor(c, self, Next(c, self, w, JudgeStep(sender, request)), sender)
  {
    assert SolventFor(c, self, w, sender);
    hide Solvent, EventOf, CheckEligibility, ClaimKey;
    OwedAfter(w, Next(c, self, w, JudgeStep(sender, request)), [], sender);
  }

  lemma EmitsPositive(c: Judge.Config, j: Judge.State, token: Token.State, self: Account, sender: Account,
                      request: Judge.Call)
    requires Judge.Apply(c, j, token, self, sender, request).Done?
    ensures forall m <- Judge.Apply(c, j, token, self, sender, request).emitted :: m.amount > 0
    ensures !c.hasToken && !request.WithdrawDeposit? ==> Judge.Apply(c, j, token, self, sender, request).emitted == []
  {
    hide CheckEligibility, ClaimKey, Judge.SettlementPlan, Judge.BondAvailable, Judge.Decided;
  }

  // ---------------------------------------------------------------- token steps and deliveries

  lemma TokenStepKeeps(c: Judge.Config, self: Account, w: World, sender: Account, call: Token.Call)
    requires Solvent(c, self, w) && sender != self
    ensures Solvent(c, self, Next(c, self, w, TokenStep(sender, call)))
  {
    hide Consistent, Token.Sound, Token.After;
    var w' := Next(c, self, w, TokenStep(sender, call));
    Token.ApplyKeepsSound(w.token, sender, call);
    forall o ensures SolventFor(c, self, w', o) {
      assert SolventFor(c, self, w, o);
      Token.BucketAuthority(w.token, sender, call, o, self);
    }
  }

  /** Every pending release goes through at the token, whichever is delivered next. */
  lemma DeliverySucceeds(c: Judge.Config, self: Account, w: World, m: Message)
    requires Solvent(c, self, w) && m in w.pending
    ensures Token.Apply(w.token, self, ReleaseCall(m)).Done?
  {
    hide Consistent, Token.Sound, Token.Apply;
    assert SolventFor(c, self, w, m.owner);
    BagSumWithout(w.pending, OwedBy(m.owner), m);
    BagSumNonNegative(w.pending - multiset{m}, OwedBy(m.owner));
    Token.ReleaseNeverUnderflows(w.token, self, m.owner, m.to, m.amount);
  }

  lemma DeliverKeeps(c: Judge.Config, self: Account, w: World, m: Message)
    requires Solvent(c, self, w) && m in w.pending
    ensures Solvent(c, self, Next(c, self, w, Deliver(m)))
  {
    hide Consistent, Token.Sound, Token.After;
    var w' := Next(c, self, w, Deliver(m));
    Token.ApplyKeepsSound(w.token, self, ReleaseCall(m));
    DeliverySucceeds(c, self, w, m);
    forall o ensures SolventFor(c, self, w', o) {
      assert SolventFor(c, self, w, o);
      Token.ReleaseMoves(w.token, self, m.owner, m.to, m.amount, o);
      BagSumWithout(w.pending, OwedBy(o), m);
    }
  }

  // ---------------------------------------------------------------- judge steps

  lemma FundFollows(c: Judge.Config, self: Account, w: World, sender: Account, slug: string)
    requires Solvent(c, self, w) && Owed(w, sender) == 0
    requires Judge.Apply(c, w.judge, w.token, self, sender, Judge.FundDeposit(slug)).Done?
    ensures SolventFor(c, self, Next(c, self, w, JudgeStep(sender, Judge.FundDeposit(slug))), sender)
  {
    hide Solvent, Next, SolventFor;
    FundKeepsSolvencyIff(c, self, w, sender, slug);
  }

  lemma NothingWithoutToken(c: Judge.Config, self: Account, w: World, sender: Account, request: Judge.Call)
    requires Solvent(c, self, w) && !c.hasToken && Judge.Apply(c, w.judge, w.token, self, sender, request).Done?
    ensures Judge.Apply(c, w.judge, w.token, self, sender, request).emitted == []
  {
    EmitsPositive(c, w.judge, w.token, self, sender, request);
    if request.WithdrawDeposit? {
      hide Consistent, Token.Sound;
      assert SolventFor(c, self, w, sender);
      OwedNonNegative(w, sender);
      DepositWithinCommitted(w.judge, request.slug);
    }
  }

  lemma OthersStaySolvent(c: Judge.Config, self: Account, w: World, sender: Account, request: Judge.Call, o: Account)
    requires Solvent(c, self, w) && Judge.Apply(c, w.judge, w.token, self, sender, request).Done?
    requires request.FundDeposit? || request.SubmitClaim? ==> o != sender
    ensures SolventFor(c, self, Next(c, self, w, JudgeStep(sender, request)), o)
  {
    assert SolventFor(c, self, w, o);
    hide Consistent, Judge.Apply, Token.Sound, EventOf;
    JudgeStepLiability(c, self, w, sender, request, o);
  }

  /** A call keeps the world solvent if its own funding or filing keeps the sender solvent. */
  lemma CallKeepsSolvent(c: Judge.Config, self: Account, w: World, sender: Account, request: Judge.Call)
    requires Solvent(c, self, w) && Judge.Apply(c, w.judge, w.token, self, sender, request).Done?
    requires request.FundDeposit? || request.SubmitClaim? ==>
      SolventFor(c, self, Next(c, self, w, JudgeStep(sender, request)), sender)
    ensures Solvent(c, self, Next(c, self, w, JudgeStep(sender, request)))
  {
    hide Consistent, Judge.Apply, Token.Sound, EventOf, SolventFor;
    var w' := Next(c, self, w, JudgeStep(sender, request));
    ApplyKeepsConsistent(c, w.judge, w.token, self, sender, request);
    EmitsPositive(c, w.judge, w.token, self, sender, request);
    if !c.hasToken { NothingWithoutToken(c, self, w, sender, request); }
    forall o ensures SolventFor(c, self, w', o) {
      if o != sender || !(request.FundDeposit? || request.SubmitClaim?) {
        OthersStaySolvent(c, self, w, sender, request, o);
      }
    }
  }

  lemma JudgeStepKeeps(c: Judge.Config, self: Account, w: World, sender: Account, request: Judge.Call)
    requires Solvent(c, self, w) && Careful(w, JudgeStep(sender, request))
    ensures Solvent(c, self, Next(c, self, w, JudgeStep(sender, request)))
  {
    hide Solvent, Judge.Apply, EventOf, SolventFor, Judge.Fund;
    if Judge.Apply(c, w.judge, w.token, self, sender, request).Done? {
      if request.FundDeposit? {
        FundFollows(c, self, w, sender, request.slug);
      } else if request.SubmitClaim? {
        SubmitKeepsSolvencyIff(c, self, w, sender, request);
      }
      CallKeepsSolvent(c, self, w, sender, request);
    }
  }

  lemma StepKeepsSolvent(c: Judge.Config, self: Account, w: World, step: Step)
    requires Solvent(c, self, w) && Possible(self, w, step) && Careful(w, step)
    ensures Solvent(c, self, Next(c, self, w, step))
  {
    match step
    case TokenStep(sender, call) => TokenStepKeeps(c, self, w, sender, call);
    case JudgeStep(sender, request) => JudgeStepKeeps(c, self, w, sender, request);
    case Deliver(m) => DeliverKeeps(c, self, w, m);
    case Tick(now) =>
      hide Consistent, Token.Sound;
      forall o ensures SolventFor(c, self, Next(c, self, w, step), o) { assert SolventFor(c, self, w, o); }
  }

  // ---------------------------------------------------------------- whole runs

  /** In every state reached by careful accounts, in any interleaving of token calls, judge calls, clock
      ticks and deliveries, the world is solvent ... */
  lemma {:induction false} CarefulRunsAreSolvent(c: Judge.Config, self: Account, start: nat, steps: seq<Step>)
    requires CarefulRun(c, self, start, steps)
    ensures Solvent(c, self, Exec(c, self, start, steps))
  {
    if steps == [] {
      StartIsSolvent(c, self, start);
    } else {
      hide Solvent, Next, Possible, Careful;
      var init, last := steps[..|steps| - 1], steps[|steps| - 1];
      CarefulRunsAreSolvent(c, self, start, init);
      StepKeepsSolvent(c, self, Exec(c, self, start, init), last);
    }
  }

  lemma StartIsSolvent(c: Judge.Config, self: Account, start: nat)
    ensures Solvent(c, self, Start(start))
  {
    ReachableIsConsistent(c, self, []);
    assert Run(c, self, []) == Judge.EMPTY;
    Token.ReachableIsSound([]);
    forall o ensures SolventFor(c, self, Start(start), o) {}
  }

  /** ... so every release the judge ever emits is paid when it is delivered. */
  lemma EveryReleaseIsPaid(c: Judge.Config, self: Account, start: nat, steps: seq<Step>, m: Message)
    requires CarefulRun(c, self, start, steps) && m in Exec(c, self, start, steps).pending
    ensures Token.Apply(Exec(c, self, start, steps).token, self, ReleaseCall(m)).Done?
  {
    CarefulRunsAreSolvent(c, self, start, steps);
    hide Solvent, Token.Apply;
    DeliverySucceeds(c, self, Exec(c, self, start, steps), m);
  }
}
