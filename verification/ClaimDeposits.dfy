/** What is recorded as committed is what the deposits add up to, in every state careful accounts reach. */
module ClaimDeposits {
  import opened Sums
  import opened ClaimRules
  import opened ClaimBookkeeping
  import opened ClaimProtocol
  import opened ClaimSolvency
  import Judge = ClaimJudge
  import Token

  /** The owner's deposits add up to its committed total. */
  ghost predicate Backed(j: Judge.State, o: Account) { Sum(Deposits(j, o)) == Get(j.depositCommitted, o) }

  lemma AllocatesBacked(j: Judge.State, j': Judge.State, sender: Account, slug: string, amount: nat, o: Account)
    requires Backed(j, o) && Allocates(j, j', sender, slug, amount)
    ensures Backed(j', o)
  {
    AllocatesDeposits(j, j', sender, slug, amount, o);
    SumUpdate(Deposits(j, o), slug, amount);
    SumWithout(Deposits(j, o), slug);
  }

  lemma DrawsBacked(j: Judge.State, j': Judge.State, slug: string, amount: nat, o: Account)
    requires Backed(j, o) && Draws(j, j', slug, amount)
    requires Get(j'.depositAmount, slug) + amount == j.depositAmount[slug]
    ensures Backed(j', o)
  {
    if o == j.depositOwner[slug] {
      assert Deposits(j', o) == Deposits(j, o)[slug := j'.depositAmount[slug]];
      SumUpdate(Deposits(j, o), slug, j'.depositAmount[slug]);
      SumAtLeast(Deposits(j, o), slug);
    } else {
      assert Deposits(j', o) == Deposits(j, o);
    }
  }

  lemma SameBacked(j: Judge.State, j': Judge.State, o: Account)
    requires Backed(j, o) && j'.depositOwner == j.depositOwner && j'.depositAmount == j.depositAmount
    requires j'.depositCommitted == j.depositCommitted
    ensures Backed(j', o)
  {
    assert Deposits(j', o) == Deposits(j, o);
  }

  /** A settlement takes off the deposit what it takes off the committed total, while the escrow covers it. */
  lemma SettleBacked(c: Judge.Config, j: Judge.State, token: Token.State, self: Account, key: string,
                     outcome: Outcome, reasoning: string, resolver: Account, o: Account)
    requires key in j.claims && j.depositAmount.Keys == j.depositOwner.Keys && Backed(j, o)
    requires c.hasToken ==>
      Judge.DepositAvailable(c, j, token, self, j.claims[key].slug) == Get(j.depositAmount, j.claims[key].slug)
    ensures Backed(Judge.Settle(c, j, token, self, key, outcome, reasoning, resolver).0, o)
  {
    var j' := Judge.Settle(c, j, token, self, key, outcome, reasoning, resolver).0;
    var claim := j.claims[key];
    var drawn := Judge.Drawn(c, j, token, self, claim, outcome);
    SettleDraws(c, j, token, self, key, outcome, reasoning, resolver);
    if drawn > 0 {
      SettleLeaves(c, j, token, self, key, outcome, reasoning, resolver);
      hide Judge.Settle, Judge.Drawn;
      DrawsBacked(j, j', claim.slug, drawn, o);
    } else {
      hide Judge.Settle, Judge.Drawn;
      SameBacked(j, j', o);
    }
  }

  lemma SettleLeaves(c: Judge.Config, j: Judge.State, token: Token.State, self: Account, key: string,
                     outcome: Outcome, reasoning: string, resolver: Account)
    requires key in j.claims && Judge.Drawn(c, j, token, self, j.claims[key], outcome) > 0
    requires Judge.DepositAvailable(c, j, token, self, j.claims[key].slug) == Get(j.depositAmount, j.claims[key].slug)
    ensures var j' := Judge.Settle(c, j, token, self, key, outcome, reasoning, resolver).0;
            Get(j'.depositAmount, j.claims[key].slug) + Judge.Drawn(c, j, token, self, j.claims[key], outcome)
            == Get(j.depositAmount, j.claims[key].slug)
  {
    hide Judge.Decided, Judge.Payouts, Judge.DepositAvailable, Judge.BondAvailable;
  }

  lemma JudgeStepBacked(c: Judge.Config, self: Account, w: World, sender: Account, request: Judge.Call, o: Account)
    requires Solvent(c, self, w) && Backed(w.judge, o)
    requires Judge.Apply(c, w.judge, w.token, self, sender, request).Done?
    ensures Backed(Judge.After(c, w.judge, w.token, self, sender, request), o)
  {
    hide Judge.Settle, Backed, CheckEligibility, ClaimKey, Consistent, Token.Sound, SolventFor;
    var j, j' := w.judge, Judge.After(c, w.judge, w.token, self, sender, request);
    if request.ResolveClaim? || request.CancelClaim? {
      var key, outcome, reasoning := ClosingSettles(c, j, w.token, self, sender, request);
      DepositsAreBound(j);
      if c.hasToken { EscrowClampsAreInert(c, self, w, key); }
      hide Judge.Apply, Judge.After;
      SettleBacked(c, j, w.token, self, key, outcome, reasoning, sender, o);
    } else if request.FundDeposit? {
      FundKeeps(c, j, w.token, self, sender, request.slug);
      AllocatesBacked(j, j', sender, request.slug, j'.depositAmount[request.slug], o);
    } else if request.WithdrawDeposit? {
      DepositsAreBound(j);
      assert Draws(j, j', request.slug, j.depositAmount[request.slug]);
      DrawsBacked(j, j', request.slug, j.depositAmount[request.slug], o);
    } else {
      SameBacked(j, j', o);
    }
  }

  /** In every state careful accounts reach, an owner's deposits add up to exactly its committed total. */
  lemma {:induction false} DepositsAreCommitted(c: Judge.Config, self: Account, start: nat, steps: seq<Step>,
                                                o: Account)
    requires CarefulRun(c, self, start, steps)
    ensures Backed(Exec(c, self, start, steps).judge, o)
  {
    if steps == [] {
      assert Deposits(Judge.EMPTY, o) == map[];
    } else {
      var init, last := steps[..|steps| - 1], steps[|steps| - 1];
      var w := Exec(c, self, start, init);
      DepositsAreCommitted(c, self, start, init, o);
      CarefulRunsAreSolvent(c, self, start, init);
      hide Solvent, Judge.Apply, Backed, Possible, Careful;
      if last.JudgeStep? && Judge.Apply(c, w.judge, w.token, self, last.sender, last.request).Done? {
        JudgeStepBacked(c, self, w, last.sender, last.request, o);
      }
    }
  }
}
