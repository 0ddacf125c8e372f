/** What the judge's storage keeps consistent in every reachable state, whatever the token, Arc, the
    proxy and the adjudicators answer. */
module ClaimBookkeeping {
  import opened Basics
  import opened Sums
  import opened ClaimRules
  import opened ClaimJudge
  import Token

  // ---------------------------------------------------------------- what the running totals stand for

  ghost function BondOf(a: Account): Claim -> nat {
    (c: Claim) => if c.claimant == a && !c.resolved then c.bond else 0
  }

  ghost function OpenOn(slug: string): Claim -> nat {
    (c: Claim) => if c.slug == slug && !c.resolved then 1 else 0
  }

  /** `claim_keys` lists each claim exactly once. */
  ghost predicate Listed(j: State) {
    && Distinct(j.claimKeys)
    && forall k :: k in j.claims <==> k in j.claimKeys
  }

  ghost function OpenBonds(j: State, a: Account): nat
    requires Listed(j)
  {
    Tally(j.claims, j.claimKeys, BondOf(a))
  }

  ghost function OpenCount(j: State, slug: string): nat
    requires Listed(j)
  {
    Tally(j.claims, j.claimKeys, OpenOn(slug))
  }

  /** The deposits one account backs, slug by slug. */
  ghost function Deposits(j: State, o: Account): map<string, nat> {
    map slug | slug in j.depositAmount && OwnerOf(j, slug) == Some(o) :: j.depositAmount[slug]
  }

  ghost predicate WellFiled(j: State, k: string)
    requires k in j.claims
  {
    var claim := j.claims[k];
    && Canonical(claim.requestId)
    && k == ClaimKey(claim.requestId, claim.clauseId)
    && (claim.resolved <==> claim.outcome != Open)
    && (!claim.resolved ==> claim.compensation == 0 && claim.bounty == 0)
  }

  ghost predicate BondsAgree(j: State, a: Account)
    requires Listed(j)
  {
    Get(j.bonded, a) == OpenBonds(j, a)
  }

  ghost predicate OpenAgrees(j: State, slug: string)
    requires Listed(j)
  {
    Get(j.openClaims, slug) == OpenCount(j, slug)
  }

  ghost predicate Committed(j: State, o: Account) {
    Sum(Deposits(j, o)) <= Get(j.depositCommitted, o)
  }

  ghost predicate Consistent(j: State) {
    && Listed(j)
    && j.depositAmount.Keys == j.depositOwner.Keys
    && (forall k <- j.claims :: WellFiled(j, k))
    && (forall a :: BondsAgree(j, a))
    && (forall slug :: OpenAgrees(j, slug))
    && (forall o :: Committed(j, o))
  }

  // ---------------------------------------------------------------- consequences one call relies on

  lemma DepositWithinCommitted(j: State, slug: string)
    requires Consistent(j) && slug in j.depositOwner
    ensures Get(j.depositAmount, slug) <= Get(j.depositCommitted, j.depositOwner[slug])
  {
    var o := j.depositOwner[slug];
    assert Committed(j, o);
    SumAtLeast(Deposits(j, o), slug);
  }

  lemma DepositsAreBound(j: State)
    requires Consistent(j)
    ensures j.depositAmount.Keys == j.depositOwner.Keys
  {
  }

  lemma UnresolvedIsBlank(j: State, k: string)
    requires Consistent(j) && k in j.claims && !j.claims[k].resolved
    ensures j.claims[k].compensation == 0 && j.claims[k].bounty == 0
  {
    assert WellFiled(j, k);
  }

  lemma OpenBondWithinBonded(j: State, k: string)
    requires Consistent(j) && k in j.claims && !j.claims[k].resolved
    ensures j.claims[k].bond <= Get(j.bonded, j.claims[k].claimant)
    ensures 1 <= Get(j.openClaims, j.claims[k].slug)
  {
    var claim := j.claims[k];
    assert BondsAgree(j, claim.claimant) && OpenAgrees(j, claim.slug);
    TallyUpdate(j.claims, j.claimKeys, BondOf(claim.claimant), k, claim);
    TallyUpdate(j.claims, j.claimKeys, OpenOn(claim.slug), k, claim);
  }

  /** A slug reads no open claims exactly when no claim on file against it is unresolved. */
  lemma NoOpenClaims(j: State, slug: string)
    requires Consistent(j)
    ensures Get(j.openClaims, slug) == 0 <==> forall k <- j.claims :: j.claims[k].slug == slug ==> j.claims[k].resolved
  {
    assert OpenAgrees(j, slug);
    TallyPositive(j.claims, j.claimKeys, OpenOn(slug));
  }

  /** The key of a claim names the call and the clause it disputes, and nothing else does. */
  lemma KeysInjective(j: State, k1: string, k2: string)
    requires Consistent(j) && k1 in j.claims && k2 in j.claims
    ensures k1 == k2 <==>
              j.claims[k1].requestId == j.claims[k2].requestId && j.claims[k1].clauseId == j.claims[k2].clauseId
  {
    assert WellFiled(j, k1) && WellFiled(j, k2);
    if k1 == k2 {
      ClaimKeyInjective(j.claims[k1].requestId, j.claims[k1].clauseId, j.claims[k2].requestId, j.claims[k2].clauseId);
    }
  }

  // ---------------------------------------------------------------- every call keeps it

  /** The fields a claim is filed with, which nothing may change afterwards. */
  ghost predicate SameFiling(a: Claim, b: Claim) {
    b == a.(resolved := b.resolved, outcome := b.outcome, reasoning := b.reasoning, compensation := b.compensation,
        bounty := b.bounty)
  }

  /** `j'` files the new claim `claim` under `key`. */
  ghost predicate Files(j: State, j': State, key: string, claim: Claim) {
    && key !in j.claims && !claim.resolved
    && j'.claims == j.claims[key := claim]
    && j'.claimKeys == j.claimKeys + [key]
    && j'.bonded == j.bonded[claim.claimant := Get(j.bonded, claim.claimant) + claim.bond]
    && j'.openClaims == j.openClaims[claim.slug := Get(j.openClaims, claim.slug) + 1]
  }

  lemma FilesListed(j: State, j': State, key: string, claim: Claim)
    requires Listed(j) && Files(j, j', key, claim)
    ensures Listed(j')
  {
    forall k ensures k in j'.claims <==> k in j'.claimKeys {
      assert k in j.claims <==> k in j.claimKeys;
    }
  }

  lemma FilesBonds(j: State, j': State, key: string, claim: Claim, a: Account)
    requires Listed(j) && Listed(j') && Files(j, j', key, claim) && BondsAgree(j, a)
    ensures BondsAgree(j', a)
  {
    TallyAppend(j.claims, j.claimKeys, BondOf(a), key, claim);
  }

  lemma FilesOpen(j: State, j': State, key: string, claim: Claim, slug: string)
    requires Listed(j) && Listed(j') && Files(j, j', key, claim) && OpenAgrees(j, slug)
    ensures OpenAgrees(j', slug)
  {
    TallyAppend(j.claims, j.claimKeys, OpenOn(slug), key, claim);
  }

  /** `j'` closes the open claim under `key`, as `closed`. */
  ghost predicate Closes(j: State, j': State, key: string, closed: Claim) {
    && key in j.claims && !j.claims[key].resolved && closed.resolved
    && SameFiling(j.claims[key], closed)
    && j'.claims == j.claims[key := closed]
    && j'.claimKeys == j.claimKeys
    && j'.bonded == j.bonded[closed.claimant := Max(0, Get(j.bonded, closed.claimant) - closed.bond)]
    && j'.openClaims == j.openClaims[closed.slug := Max(0, Get(j.openClaims, closed.slug) - 1)]
  }

  lemma ClosesTotals(j: State, j': State, key: string, closed: Claim)
    requires Listed(j) && Closes(j, j', key, closed)
    ensures Listed(j')
    ensures forall a :: BondsAgree(j, a) ==> BondsAgree(j', a)
    ensures forall slug :: OpenAgrees(j, slug) ==> OpenAgrees(j', slug)
  {
    assert Listed(j');
    forall a | BondsAgree(j, a) ensures BondsAgree(j', a) {
      TallyUpdate(j.claims, j.claimKeys, BondOf(a), key, closed);
    }
    forall slug | OpenAgrees(j, slug) ensures OpenAgrees(j', slug) {
      TallyUpdate(j.claims, j.claimKeys, OpenOn(slug), key, closed);
    }
  }

  /** `j'` allocates `amount` to `slug` in the name of `sender`. */
  ghost predicate Allocates(j: State, j': State, sender: Account, slug: string, amount: nat) {
    && (OwnerOf(j, slug).None? || OwnerOf(j, slug) == Some(sender) || Get(j.depositAmount, slug) == 0)
    && j'.depositOwner == j.depositOwner[slug := sender]
    && j'.depositAmount == j.depositAmount[slug := amount]
    && j'.depositCommitted == j.depositCommitted[sender := Get(j'.depositCommitted, sender)]
    && Get(j'.depositCommitted, sender)
       == Get(j.depositCommitted, sender)
          - (if OwnerOf(j, slug) == Some(sender) then Get(j.depositAmount, slug) else 0) + amount
  }

  lemma AllocatesDeposits(j: State, j': State, sender: Account, slug: string, amount: nat, o: Account)
    requires Allocates(j, j', sender, slug, amount)
    ensures Deposits(j', o) == if o == sender then Deposits(j, o)[slug := amount] else Deposits(j, o) - {slug}
    ensures Get(Deposits(j, o), slug) == if OwnerOf(j, slug) == Some(o) then Get(j.depositAmount, slug) else 0
  {
    var now := if o == sender then Deposits(j, o)[slug := amount] else Deposits(j, o) - {slug};
    forall q ensures q in Deposits(j', o) <==> q in now {
      assert q != slug ==> OwnerOf(j', q) == OwnerOf(j, q);
    }
    assert Deposits(j', o).Keys == now.Keys;
  }

  lemma AllocatesCommitted(j: State, j': State, sender: Account, slug: string, amount: nat, o: Account)
    requires Committed(j, o) && Allocates(j, j', sender, slug, amount)
    ensures Committed(j', o)
  {
    AllocatesDeposits(j, j', sender, slug, amount, o);
    SumUpdate(Deposits(j, o), slug, amount);
    SumWithout(Deposits(j, o), slug);
  }

  /** `j'` takes `amount` out of the deposit behind `slug`, and at least as much off what is left of it. */
  ghost predicate Draws(j: State, j': State, slug: string, amount: nat) {
    && slug in j.depositOwner && slug in j.depositAmount
    && j'.depositOwner == j.depositOwner
    && j'.depositAmount == j.depositAmount[slug := Get(j'.depositAmount, slug)]
    && Get(j'.depositAmount, slug) + amount <= j.depositAmount[slug]
    && var owner := j.depositOwner[slug];
       j'.depositCommitted == j.depositCommitted[owner := Max(0, Get(j.depositCommitted, owner) - amount)]
  }

  lemma DrawsCommitted(j: State, j': State, slug: string, amount: nat, o: Account)
    requires Committed(j, o) && Draws(j, j', slug, amount)
    ensures Committed(j', o)
  {
    if o == j.depositOwner[slug] {
      assert Deposits(j', o) == Deposits(j, o)[slug := j'.depositAmount[slug]];
      SumUpdate(Deposits(j, o), slug, j'.depositAmount[slug]);
    } else {
      assert Deposits(j', o) == Deposits(j, o);
    }
  }

  lemma SameDeposits(j: State, j': State)
    requires j'.depositOwner == j.depositOwner && j'.depositAmount == j.depositAmount
    requires j'.depositCommitted == j.depositCommitted
    ensures forall o :: Committed(j, o) ==> Committed(j', o)
  {
    forall o ensures Deposits(j', o) == Deposits(j, o) {}
  }

  lemma SameClaims(j: State, j': State)
    requires Consistent(j)
    requires j'.claims == j.claims && j'.claimKeys == j.claimKeys && j'.bonded == j.bonded
             && j'.openClaims == j.openClaims
    requires j'.depositAmount.Keys == j'.depositOwner.Keys && forall o :: Committed(j', o)
    ensures Consistent(j')
  {
    forall k <- j'.claims ensures WellFiled(j', k) { assert WellFiled(j, k); }
    forall a ensures BondsAgree(j', a) { assert BondsAgree(j, a); }
    forall slug ensures OpenAgrees(j', slug) { assert OpenAgrees(j, slug); }
  }

  lemma SubmitKeeps(c: Config, j: State, token: Token.State, self: Account, sender: Account, call: Call)
    requires Consistent(j) && call.SubmitClaim? && Apply(c, j, token, self, sender, call).Done?
    ensures Consistent(After(c, j, token, self, sender, call))
  {
    var j' := After(c, j, token, self, sender, call);
    CanonicalIsStable(call.requestId);
    var key := KeyOf(call.requestId, call.clauseId);
    assert Files(j, j', key, j'.claims[key]);
    FilesListed(j, j', key, j'.claims[key]);
    forall a ensures BondsAgree(j', a) {
      assert BondsAgree(j, a);
      FilesBonds(j, j', key, j'.claims[key], a);
    }
    forall slug ensures OpenAgrees(j', slug) {
      assert OpenAgrees(j, slug);
      FilesOpen(j, j', key, j'.claims[key], slug);
    }
    SameDeposits(j, j');
    forall k <- j'.claims ensures WellFiled(j', k) {
      if k != key { assert WellFiled(j, k); }
    }
  }

  lemma FundKeeps(c: Config, j: State, token: Token.State, self: Account, sender: Account, slug: string)
    requires Consistent(j) && Fund(c, j, token, self, sender, slug).Done?
    ensures Allocates(j, Fund(c, j, token, self, sender, slug).state, sender, slug,
                      Fund(c, j, token, self, sender, slug).state.depositAmount[slug])
    ensures Consistent(Fund(c, j, token, self, sender, slug).state)
  {
    var j' := Fund(c, j, token, self, sender, slug).state;
    assert Allocates(j, j', sender, slug, j'.depositAmount[slug]);
    forall o ensures Committed(j', o) {
      assert Committed(j, o);
      AllocatesCommitted(j, j', sender, slug, j'.depositAmount[slug], o);
    }
    SameClaims(j, j');
  }

  lemma WithdrawKeeps(c: Config, j: State, sender: Account, slug: string, clock: Option<nat>)
    requires Consistent(j) && Withdraw(c, j, sender, slug, clock).Done?
    ensures Consistent(Withdraw(c, j, sender, slug, clock).state)
  {
    var j' := Withdraw(c, j, sender, slug, clock).state;
    assert Draws(j, j', slug, j.depositAmount[slug]);
    forall o ensures Committed(j', o) {
      assert Committed(j, o);
      DrawsCommitted(j, j', slug, j.depositAmount[slug], o);
    }
    SameClaims(j, j');
  }

  lemma IntentKeeps(j: State, j': State, slug: string, at: nat)
    requires Consistent(j) && j' == j.(withdrawalRequestedAt := j.withdrawalRequestedAt[slug := at])
    ensures Consistent(j')
  {
    SameDeposits(j, j');
    SameClaims(j, j');
  }

  lemma DecidedFiling(c: Config, j: State, token: Token.State, self: Account, claim: Claim, outcome: Outcome,
                      reasoning: string)
    ensures var closed := Decided(c, j, token, self, claim, outcome, reasoning);
            && closed.resolved && closed.outcome == outcome && closed.reasoning == reasoning
            && SameFiling(claim, closed)
            && closed.claimant == claim.claimant && closed.slug == claim.slug && closed.bond == claim.bond
  {
    hide SettlementPlan;
  }

  /** What settling one claim does to the claims and their totals. */
  lemma SettleCloses(c: Config, j: State, token: Token.State, self: Account, key: string,
                     outcome: Outcome, reasoning: string, resolver: Account)
    requires key in j.claims && !j.claims[key].resolved
    ensures var j' := Settle(c, j, token, self, key, outcome, reasoning, resolver).0;
            && key in j'.claims && j'.claims[key].outcome == outcome && j'.claims[key].reasoning == reasoning
            && Closes(j, j', key, j'.claims[key])
            && j'.withdrawalRequestedAt == j.withdrawalRequestedAt
  {
    hide SettlementPlan, DepositAvailable, Payouts, Drawn, Max, Get, Decided, SameFiling;
    var j' := Settle(c, j, token, self, key, outcome, reasoning, resolver).0;
    var closed := Decided(c, j, token, self, j.claims[key], outcome, reasoning);
    DecidedFiling(c, j, token, self, j.claims[key], outcome, reasoning);
    assert j'.claims == j.claims[key := closed] && j'.claims[key] == closed;
    assert j'.claimKeys == j.claimKeys && j'.withdrawalRequestedAt == j.withdrawalRequestedAt;
  }

  /** What it does to the deposit behind the claim. */
  lemma SettleDraws(c: Config, j: State, token: Token.State, self: Account, key: string,
                    outcome: Outcome, reasoning: string, resolver: Account)
    requires key in j.claims && j.depositAmount.Keys == j.depositOwner.Keys
    ensures var j' := Settle(c, j, token, self, key, outcome, reasoning, resolver).0;
            var drawn := Drawn(c, j, token, self, j.claims[key], outcome);
            && j'.depositOwner == j.depositOwner && j'.depositAmount.Keys == j.depositAmount.Keys
            && (if drawn > 0 then Draws(j, j', j.claims[key].slug, drawn)
                else j'.depositAmount == j.depositAmount && j'.depositCommitted == j.depositCommitted)
  {
    hide BondAvailable, Payouts, Escrowed, Decided;
  }

  lemma StaysWellFiled(j: State, j': State, key: string, k: string)
    requires k in j.claims && k in j'.claims && key in j'.claims && WellFiled(j, k)
    requires Closes(j, j', key, j'.claims[key]) && j'.claims[key].outcome != Open
    ensures WellFiled(j', k)
  {
  }

  lemma DepositsAfterSettling(c: Config, j: State, token: Token.State, self: Account, key: string,
                              outcome: Outcome, reasoning: string, resolver: Account, o: Account)
    requires key in j.claims && j.depositAmount.Keys == j.depositOwner.Keys && Committed(j, o)
    ensures Committed(Settle(c, j, token, self, key, outcome, reasoning, resolver).0, o)
  {
    hide Settle, Drawn;
    var j' := Settle(c, j, token, self, key, outcome, reasoning, resolver).0;
    var drawn := Drawn(c, j, token, self, j.claims[key], outcome);
    SettleDraws(c, j, token, self, key, outcome, reasoning, resolver);
    if drawn > 0 {
      DrawsCommitted(j, j', j.claims[key].slug, drawn, o);
    } else {
      SameDeposits(j, j');
    }
  }

  lemma SettleKeeps(c: Config, j: State, token: Token.State, self: Account, key: string,
                    outcome: Outcome, reasoning: string, resolver: Account)
    requires Consistent(j) && key in j.claims && !j.claims[key].resolved && outcome != Open
    ensures Consistent(Settle(c, j, token, self, key, outcome, reasoning, resolver).0)
  {
    hide Settle, Drawn, WellFiled, Committed, BondsAgree, OpenAgrees, Listed;
    var j' := Settle(c, j, token, self, key, outcome, reasoning, resolver).0;
    SettleCloses(c, j, token, self, key, outcome, reasoning, resolver);
    SettleDraws(c, j, token, self, key, outcome, reasoning, resolver);
    ClosesTotals(j, j', key, j'.claims[key]);
    forall k <- j'.claims ensures WellFiled(j', k) {
      assert WellFiled(j, k);
      StaysWellFiled(j, j', key, k);
    }
    forall o ensures Committed(j', o) {
      assert Committed(j, o);
      DepositsAfterSettling(c, j, token, self, key, outcome, reasoning, resolver, o);
    }
  }

  /** A call that closes a claim does to the storage what `Settle` does to it. */
  lemma ClosingSettles(c: Config, j: State, token: Token.State, self: Account, sender: Account, call: Call)
    returns (key: string, outcome: Outcome, reasoning: string)
    requires (call.ResolveClaim? || call.CancelClaim?) && Apply(c, j, token, self, sender, call).Done?
    ensures IsRequestId(call.requestId) && key == KeyOf(call.requestId, call.clauseId)
    ensures key in j.claims && !j.claims[key].resolved && outcome != Open
    ensures call.ResolveClaim? ==>
      call.judgment == Judged(outcome, reasoning) && outcome in {Breach, Met, Undetermined}
    ensures call.CancelClaim? ==> outcome == Cancelled && reasoning == "Cancelled by the claimant"
    ensures var (j', emitted) := Settle(c, j, token, self, key, outcome, reasoning, sender);
            Apply(c, j, token, self, sender, call) == Done(j', emitted)
    ensures After(c, j, token, self, sender, call) == Settle(c, j, token, self, key, outcome, reasoning, sender).0
  {
    hide Settle;
    key := KeyOf(call.requestId, call.clauseId);
    if call.ResolveClaim? {
      outcome, reasoning := call.judgment.outcome, call.judgment.reasoning;
    } else {
      outcome, reasoning := Cancelled, CANCELLED_REASON;
    }
  }

  lemma CloseKeeps(c: Config, j: State, token: Token.State, self: Account, sender: Account, call: Call)
    requires Consistent(j) && (call.ResolveClaim? || call.CancelClaim?) && Apply(c, j, token, self, sender, call).Done?
    ensures Consistent(After(c, j, token, self, sender, call))
  {
    hide Apply, After, Settle;
    var key, outcome, reasoning := ClosingSettles(c, j, token, self, sender, call);
    SettleKeeps(c, j, token, self, key, outcome, reasoning, sender);
  }

  lemma ApplyKeepsConsistent(c: Config, j: State, token: Token.State, self: Account, sender: Account, call: Call)
    requires Consistent(j)
    ensures Consistent(After(c, j, token, self, sender, call))
  {
    hide Consistent, Settle, Submit, Fund, Withdraw, Resolve, Cancel, CheckEligibility;
    if Apply(c, j, token, self, sender, call).Done? {
      var j' := After(c, j, token, self, sender, call);
      match call
      case SubmitClaim(_, _, _, _, _, _) => SubmitKeeps(c, j, token, self, sender, call);
      case ResolveClaim(_, _, _) => CloseKeeps(c, j, token, self, sender, call);
      case CancelClaim(_, _, _) => CloseKeeps(c, j, token, self, sender, call);
      case FundDeposit(slug) => FundKeeps(c, j, token, self, sender, slug);
      case WithdrawDeposit(slug, clock) => WithdrawKeeps(c, j, sender, slug, clock);
      case RequestWithdrawal(slug, clock) => IntentKeeps(j, j', slug, Bucketed(clock.value));
      case CancelWithdrawal(slug) => IntentKeeps(j, j', slug, 0);
    }
  }

  // ---------------------------------------------------------------- whole runs

  /** One transaction: who calls, what, and what the token would answer at that moment. */
  datatype Transaction = Transaction(sender: Account, call: Call, token: Token.State)

  ghost function Run(c: Config, self: Account, txs: seq<Transaction>): State {
    if txs == [] then EMPTY
    else
      var tx := txs[|txs| - 1];
      After(c, Run(c, self, txs[..|txs| - 1]), tx.token, self, tx.sender, tx.call)
  }

  /** In every state the contract can reach, with the token answering anything at all each time. */
  lemma {:induction false} ReachableIsConsistent(c: Config, self: Account, txs: seq<Transaction>)
    ensures Consistent(Run(c, self, txs))
  {
    if txs == [] {
      forall o ensures Committed(EMPTY, o) { assert Deposits(EMPTY, o) == map[]; }
    } else {
      var tx := txs[|txs| - 1];
      ReachableIsConsistent(c, self, txs[..|txs| - 1]);
      ApplyKeepsConsistent(c, Run(c, self, txs[..|txs| - 1]), tx.token, self, tx.sender, tx.call);
    }
  }

  /** A claim stays on file as filed, and once decided it never changes again. */
  ghost predicate Evolves(j: State, j': State) {
    && j.claimKeys <= j'.claimKeys
    && forall k <- j.claims ::
      && k in j'.claims
      && SameFiling(j.claims[k], j'.claims[k])
      && (j.claims[k].resolved ==> j'.claims[k] == j.claims[k])
  }

  lemma CloseEvolves(c: Config, j: State, token: Token.State, self: Account, sender: Account, call: Call)
    requires (call.ResolveClaim? || call.CancelClaim?) && Apply(c, j, token, self, sender, call).Done?
    ensures Evolves(j, After(c, j, token, self, sender, call))
  {
    hide Apply, After, Settle;
    var key, outcome, reasoning := ClosingSettles(c, j, token, self, sender, call);
    SettleCloses(c, j, token, self, key, outcome, reasoning, sender);
  }

  lemma SubmitEvolves(c: Config, j: State, token: Token.State, self: Account, sender: Account, call: Call)
    requires call.SubmitClaim? && Apply(c, j, token, self, sender, call).Done?
    ensures Evolves(j, After(c, j, token, self, sender, call))
  {
    hide CheckEligibility, ClaimKey, Escrowed;
    var j' := After(c, j, token, self, sender, call);
    var key := KeyOf(call.requestId, call.clauseId);
    assert j'.claims == j.claims[key := j'.claims[key]] && key !in j.claims;
  }

  lemma ApplyEvolves(c: Config, j: State, token: Token.State, self: Account, sender: Account, call: Call)
    ensures Evolves(j, After(c, j, token, self, sender, call))
  {
    hide Settle, Submit, Resolve, Cancel, Escrowed;
    var j' := After(c, j, token, self, sender, call);
    if Apply(c, j, token, self, sender, call).Done? && (call.ResolveClaim? || call.CancelClaim?) {
      CloseEvolves(c, j, token, self, sender, call);
    } else if Apply(c, j, token, self, sender, call).Done? && call.SubmitClaim? {
      SubmitEvolves(c, j, token, self, sender, call);
    } else {
      assert j'.claims == j.claims && j'.claimKeys == j.claimKeys;
    }
  }

  /** Across any two moments of a run: the filing is frozen, and each claim leaves OPEN at most once,
      to an outcome that then stands. */
  lemma {:induction false} RunEvolves(c: Config, self: Account, txs: seq<Transaction>, i: nat)
    requires i <= |txs|
    ensures Evolves(Run(c, self, txs[..i]), Run(c, self, txs))
    decreases |txs|
  {
    if i == |txs| {
      assert txs[..i] == txs;
    } else {
      var init, tx := txs[..|txs| - 1], txs[|txs| - 1];
      assert init[..i] == txs[..i];
      RunEvolves(c, self, init, i);
      ApplyEvolves(c, Run(c, self, init), tx.token, self, tx.sender, tx.call);
    }
  }

  /** The `max(0, ...)` clamps of `_settle` and `withdraw_deposit`, and the subtraction in `fund_deposit`,
      never bite, whatever the token answers: the totals always hold enough to subtract from. */
  lemma ClampsAreInert(c: Config, j: State, token: Token.State, self: Account)
    requires Consistent(j)
    ensures forall k <- j.claims :: !j.claims[k].resolved ==>
      && j.claims[k].bond <= Get(j.bonded, j.claims[k].claimant)
      && 1 <= Get(j.openClaims, j.claims[k].slug)
    ensures forall slug <- j.depositOwner ::
      Get(j.depositAmount, slug) <= Get(j.depositCommitted, j.depositOwner[slug])
    ensures forall slug, outcome, claim: Claim
              {:trigger SettlementPlan(c, j, token, self, claim, outcome), OwnerOf(j, slug)} ::
      slug == claim.slug && OwnerOf(j, slug).Some? ==>
        SettlementPlan(c, j, token, self, claim, outcome).fromProvider
            <= Get(j.depositCommitted, OwnerOf(j, slug).value)
    ensures forall sender, slug :: Fund(c, j, token, self, sender, slug) != Refused(Underflow)
  {
    forall k <- j.claims | !j.claims[k].resolved
      ensures j.claims[k].bond <= Get(j.bonded, j.claims[k].claimant) && 1 <= Get(j.openClaims, j.claims[k].slug)
    {
      OpenBondWithinBonded(j, k);
    }
    forall slug <- j.depositOwner
      ensures Get(j.depositAmount, slug) <= Get(j.depositCommitted, j.depositOwner[slug])
    {
      DepositWithinCommitted(j, slug);
    }
  }
}
