/** What a settlement moves, to the unit, once its releases have been delivered; and what has left each
    deposit since it was last funded. */
module ClaimLedger {
  import opened Basics
  import opened Sums
  import opened ClaimRules
  import opened ClaimBookkeeping
  import opened ClaimProtocol
  import opened ClaimSolvency
  import opened ClaimDeposits
  import Judge = ClaimJudge
  import Token

  // ---------------------------------------------------------------- the world once everything is delivered

  ghost function MoveBy(a: Account): Message -> int {
    (m: Message) => Token.MoveOf(m.owner, m.to, m.amount, a)
  }

  /** The balance `a` will have when every pending release has been delivered. */
  ghost function SettledBalance(w: World, a: Account): int {
    Token.Balance(w.token, a) + BagSum(w.pending, MoveBy(a))
  }

  /** The escrow `o` will still have with the judge by then. */
  ghost function SettledEscrow(self: Account, w: World, o: Account): int {
    Token.EscrowOf(w.token, o, self) - Owed(w, o)
  }

  ghost function DeliverAll(c: Judge.Config, self: Account, w: World, ms: seq<Message>): World
    decreases |ms|
  {
    if ms == [] then w else DeliverAll(c, self, Next(c, self, w, Deliver(ms[0])), ms[1..])
  }

  lemma DeliveryIsAnticipated(c: Judge.Config, self: Account, w: World, m: Message, a: Account)
    requires Solvent(c, self, w) && m in w.pending
    ensures SettledBalance(Next(c, self, w, Deliver(m)), a) == SettledBalance(w, a)
    ensures SettledEscrow(self, Next(c, self, w, Deliver(m)), a) == SettledEscrow(self, w, a)
  {
    DeliverySucceeds(c, self, w, m);
    hide Solvent, Token.After, Token.Apply;
    Token.ReleaseMoves(w.token, self, m.owner, m.to, m.amount, a);
    BagSumWithout(w.pending, MoveBy(a), m);
    BagSumWithout(w.pending, OwedBy(a), m);
  }

  /** From a solvent state, delivering what is pending in any order pays every release and ends in one
      and the same place: the settled balances and escrows. */
  lemma {:induction false} AnyOrderSettles(c: Judge.Config, self: Account, w: World, ms: seq<Message>)
    requires Solvent(c, self, w) && multiset(ms) == w.pending
    ensures var end := DeliverAll(c, self, w, ms);
            && end.pending == multiset{} && Solvent(c, self, end)
            && end.judge == w.judge && end.log == w.log && end.clock == w.clock
            && forall a :: Token.Balance(end.token, a) == SettledBalance(w, a)
                           && Token.EscrowOf(end.token, a, self) == SettledEscrow(self, w, a)
    decreases |ms|
  {
    hide Solvent, Token.After;
    if ms != [] {
      var w' := Next(c, self, w, Deliver(ms[0]));
      assert ms == [ms[0]] + ms[1..];
      assert ms[0] in multiset(ms);
      DeliverKeeps(c, self, w, ms[0]);
      assert w'.pending == multiset(ms[1..]);
      AnyOrderSettles(c, self, w', ms[1..]);
      forall a ensures SettledBalance(w', a) == SettledBalance(w, a)
          && SettledEscrow(self, w', a) == SettledEscrow(self, w, a) {
        DeliveryIsAnticipated(c, self, w, ms[0], a);
      }
    }
  }

  // ---------------------------------------------------------------- one settlement, to the unit

  /** How `a`'s balance moves when a claim closes with `outcome`: the claimant is compensated out of the
      slug's deposit first, and the resolver's bounty comes from what remains of it; on MET the bounty
      comes from the claimant's bond; otherwise nothing moves. */
  function SettlementMove(c: Judge.Config, claim: Judge.Claim, provider: Option<Account>, deposit: nat,
                          outcome: Outcome, resolver: Account, a: Account): int
  {
    var compensation := Min(claim.paidAmount, deposit);
    if outcome == Breach && provider.Some? then
      Token.MoveOf(provider.value, claim.claimant, compensation, a)
      + Token.MoveOf(provider.value, resolver, Min(c.bountyAmount, deposit - compensation), a)
    else if outcome == Met then
      Token.MoveOf(claim.claimant, resolver, Min(c.bountyAmount, claim.bond), a)
    else 0
  }

  /** How much of `a`'s escrow a settlement uses up: the whole bond, and what the deposit paid. */
  function SettlementRelease(c: Judge.Config, claim: Judge.Claim, provider: Option<Account>, deposit: nat,
                             outcome: Outcome, a: Account): int
  {
    (if a == claim.claimant then claim.bond else 0)
    + (if outcome == Breach && provider == Some(a) then Min(claim.paidAmount + c.bountyAmount, deposit) else 0)
  }

  /** The figures of a settlement in a solvent world, from what is on record alone. */
  lemma FiguresOnRecord(c: Judge.Config, self: Account, w: World, key: string, outcome: Outcome)
    requires Solvent(c, self, w) && c.hasToken && key in w.judge.claims && !w.judge.claims[key].resolved
    ensures var claim := w.judge.claims[key];
            var deposit := Get(w.judge.depositAmount, claim.slug);
            var f := FiguresOf(c, w, self, claim, outcome);
            && f.compensation == (if outcome == Breach then Min(claim.paidAmount, deposit) else 0)
            && f.fromDeposit == (if outcome == Breach then Min(claim.paidAmount + c.bountyAmount, deposit) else 0)
            && f.fromBond == (if outcome == Met then Min(c.bountyAmount, claim.bond) else 0)
            && f.back == claim.bond - f.fromBond
  {
    EscrowClampsAreInert(c, self, w, key);
    hide Solvent, Judge.DepositAvailable, Judge.BondAvailable;
  }

  lemma IdleMoves(a: Account)
    ensures forall x, n :: Token.MoveOf(x, x, n, a) == 0
    ensures forall x, y :: Token.MoveOf(x, y, 0, a) == 0
    ensures forall m :: MoveBy(a)(m) == Token.MoveOf(m.owner, m.to, m.amount, a)
  {
  }

  lemma PayoutsMove(c: Judge.Config, self: Account, w: World, key: string, outcome: Outcome, resolver: Account,
                    a: Account)
    requires Solvent(c, self, w) && c.hasToken && key in w.judge.claims && !w.judge.claims[key].resolved
    ensures var claim := w.judge.claims[key];
            SeqSum(Judge.Payouts(c, w.judge, w.token, self, claim, outcome, resolver), MoveBy(a))
            == SettlementMove(c, claim, Judge.OwnerOf(w.judge, claim.slug), Get(w.judge.depositAmount, claim.slug),
               outcome, resolver, a)
  {
    var claim := w.judge.claims[key];
    hide Solvent, Judge.Payouts, FiguresOf, Token.MoveOf, MoveBy;
    IdleMoves(a);
    FiguresOnRecord(c, self, w, key, outcome);
    PayoutsSum(c, w, self, claim, outcome, resolver, MoveBy(a));
    UnboundDeposit(c, self, w, claim.slug);
  }

  lemma PayoutsRelease(c: Judge.Config, self: Account, w: World, key: string, outcome: Outcome, resolver: Account,
                       a: Account)
    requires Solvent(c, self, w) && c.hasToken && key in w.judge.claims && !w.judge.claims[key].resolved
    ensures var claim := w.judge.claims[key];
            SeqSum(Judge.Payouts(c, w.judge, w.token, self, claim, outcome, resolver), OwedBy(a))
            == SettlementRelease(c, claim, Judge.OwnerOf(w.judge, claim.slug), Get(w.judge.depositAmount, claim.slug),
               outcome, a)
  {
    var claim := w.judge.claims[key];
    hide Solvent, Judge.Payouts, FiguresOf;
    FiguresOnRecord(c, self, w, key, outcome);
    PayoutsSum(c, w, self, claim, outcome, resolver, OwedBy(a));
    UnboundDeposit(c, self, w, claim.slug);
  }

  lemma UnboundDeposit(c: Judge.Config, self: Account, w: World, slug: string)
    requires Solvent(c, self, w)
    ensures Judge.OwnerOf(w.judge, slug).None? ==> Get(w.judge.depositAmount, slug) == 0
  {
    hide Consistent;
    DepositsAreBound(w.judge);
    assert slug in w.judge.depositAmount <==> slug in w.judge.depositOwner;
  }

  /** What closing writes on the claim and leaves of the deposit, from what is on record alone. */
  lemma ClosedOnRecord(c: Judge.Config, self: Account, w: World, key: string, outcome: Outcome, reasoning: string,
                       resolver: Account)
    requires Solvent(c, self, w) && c.hasToken && key in w.judge.claims && !w.judge.claims[key].resolved
    ensures var j' := Judge.Settle(c, w.judge, w.token, self, key, outcome, reasoning, resolver).0;
            var claim := w.judge.claims[key];
            var deposit := Get(w.judge.depositAmount, claim.slug);
            && key in j'.claims
            && j'.claims[key]
               == claim.(resolved := true, outcome := outcome, reasoning := reasoning,
                         compensation := CompensationOf(claim, deposit, outcome),
                         bounty := BountyOf(c, claim, deposit, outcome))
            && Get(j'.depositAmount, claim.slug) == deposit - (if outcome == Breach then
                 CompensationOf(claim, deposit, outcome) + BountyOf(c, claim, deposit, outcome) else 0)
  {
    hide Solvent, Judge.DepositAvailable, Judge.BondAvailable, Judge.Payouts, Judge.Decided, Judge.Drawn;
    hide CompensationOf, BountyOf, Consistent;
    DecidedOnRecord(c, self, w, key, outcome, reasoning);
    EscrowClampsAreInert(c, self, w, key);
    if Judge.Drawn(c, w.judge, w.token, self, w.judge.claims[key], outcome) > 0 {
      SettleLeaves(c, w.judge, w.token, self, key, outcome, reasoning, resolver);
    }
  }

  lemma DecidedOnRecord(c: Judge.Config, self: Account, w: World, key: string, outcome: Outcome, reasoning: string)
    requires Solvent(c, self, w) && c.hasToken && key in w.judge.claims && !w.judge.claims[key].resolved
    ensures var claim := w.judge.claims[key];
            var deposit := Get(w.judge.depositAmount, claim.slug);
            && Judge.Decided(c, w.judge, w.token, self, claim, outcome, reasoning)
               == claim.(resolved := true, outcome := outcome, reasoning := reasoning,
                         compensation := CompensationOf(claim, deposit, outcome),
                         bounty := BountyOf(c, claim, deposit, outcome))
            && Judge.Drawn(c, w.judge, w.token, self, claim, outcome) == (if outcome == Breach then
                 CompensationOf(claim, deposit, outcome) + BountyOf(c, claim, deposit, outcome) else 0)
  {
    hide Solvent, Judge.DepositAvailable, Judge.BondAvailable;
    FiguresOnRecord(c, self, w, key, outcome);
  }

  /** The amount paid for the call, as far as the deposit goes. */
  function CompensationOf(claim: Judge.Claim, deposit: nat, outcome: Outcome): nat {
    if outcome == Breach then Min(claim.paidAmount, deposit) else 0
  }

  /** What the resolver earns: out of what is left of the deposit, or out of the bond. */
  function BountyOf(c: Judge.Config, claim: Judge.Claim, deposit: nat, outcome: Outcome): nat {
    if outcome == Breach then Min(c.bountyAmount, deposit - CompensationOf(claim, deposit, outcome))
    else if outcome == Met then Min(c.bountyAmount, claim.bond)
    else 0
  }

  /** Closing a claim, by judgement or by cancellation: exactly these movements, and no others, are on
      their way; the claim records what it cost; and the bond ends unencumbered whatever the outcome. */
  lemma SettlementLedger(c: Judge.Config, self: Account, w: World, sender: Account, request: Judge.Call)
    returns (key: string)
    requires Solvent(c, self, w) && c.hasToken && (request.ResolveClaim? || request.CancelClaim?)
    requires Judge.Apply(c, w.judge, w.token, self, sender, request).Done?
    ensures IsRequestId(request.requestId) && key == Judge.KeyOf(request.requestId, request.clauseId)
    ensures key in w.judge.claims && !w.judge.claims[key].resolved
    ensures request.ResolveClaim? ==> request.judgment.Judged?
    ensures var w' := Next(c, self, w, JudgeStep(sender, request));
            var claim := w.judge.claims[key];
            var outcome := if request.ResolveClaim? then request.judgment.outcome else Cancelled;
            var provider, deposit := Judge.OwnerOf(w.judge, claim.slug), Get(w.judge.depositAmount, claim.slug);
            && w'.token == w.token
            && key in w'.judge.claims
            && w'.judge.claims[key].resolved && w'.judge.claims[key].outcome == outcome
            && w'.judge.claims[key].compensation == CompensationOf(claim, deposit, outcome)
            && w'.judge.claims[key].bounty == BountyOf(c, claim, deposit, outcome)
            && (forall a ::
                 && SettledBalance(w', a) == SettledBalance(w, a)
                    + SettlementMove(c, claim, provider, deposit, outcome, sender, a)
                 && SettledEscrow(self, w', a) == SettledEscrow(self, w, a)
                    - SettlementRelease(c, claim, provider, deposit, outcome, a))
  {
    var w' := Next(c, self, w, JudgeStep(sender, request));
    hide Solvent, Judge.Apply, EventOf, Judge.Settle, Judge.Payouts, SettlementMove, SettlementRelease;
    var outcome, reasoning;
    key, outcome, reasoning := ClosingSettles(c, w.judge, w.token, self, sender, request);
    SettlePays(c, self, w, key, outcome, reasoning, sender);
    ClosedOnRecord(c, self, w, key, outcome, reasoning, sender);
    var emitted := Judge.Payouts(c, w.judge, w.token, self, w.judge.claims[key], outcome, sender);
    assert w'.pending == w.pending + multiset(emitted);
    forall a ensures SettledBalance(w', a) - SettledBalance(w, a) == SeqSum(emitted, MoveBy(a))
                     && SettledEscrow(self, w, a) - SettledEscrow(self, w', a) == SeqSum(emitted, OwedBy(a)) {
      BagSumAdd(w.pending, emitted, MoveBy(a));
      BagSumAdd(w.pending, emitted, OwedBy(a));
    }
    forall a ensures SettledBalance(w', a) == SettledBalance(w, a) + SettlementMove(c, w.judge.claims[key],
                       Judge.OwnerOf(w.judge, w.judge.claims[key].slug),
                       Get(w.judge.depositAmount, w.judge.claims[key].slug), outcome, sender, a) {
      PayoutsMove(c, self, w, key, outcome, sender, a);
    }
    forall a ensures SettledEscrow(self, w', a) == SettledEscrow(self, w, a) - SettlementRelease(c, w.judge.claims[key],
                       Judge.OwnerOf(w.judge, w.judge.claims[key].slug),
                       Get(w.judge.depositAmount, w.judge.claims[key].slug), outcome, a) {
      PayoutsRelease(c, self, w, key, outcome, sender, a);
    }
  }
}
