/** What closing a claim emits in any state at all, also where an account is short: each party pays out of what the
    token still holds for it, so that no release asks for more. */
module ClaimClamps {
  import opened Basics
  import opened Sums
  import opened ClaimRules
  import opened ClaimBookkeeping
  import Judge = ClaimJudge
  import Token

  type Account = Judge.Account

  ghost function Lesser(a: nat, b: nat): (m: nat)
    ensures m <= a && m <= b && (m == a || m == b)
  {
    if a <= b then a else b
  }

  /** What is there behind the slug: its deposit, or what its owner has left with the judge if that is less. */
  ghost function Behind(j: Judge.State, token: Token.State, self: Account, slug: string): nat {
    match Judge.OwnerOf(j, slug)
    case None => 0
    case Some(provider) => Lesser(Token.EscrowOf(token, provider, self), Get(j.depositAmount, slug))
  }

  ghost function BondLeft(token: Token.State, self: Account, claim: Judge.Claim): nat {
    Lesser(Token.EscrowOf(token, claim.claimant, self), claim.bond)
  }

  ghost function ToClaimant(j: Judge.State, token: Token.State, self: Account, claim: Judge.Claim, outcome: Outcome)
    : nat
  {
    if outcome == Breach then Lesser(claim.paidAmount, Behind(j, token, self, claim.slug)) else 0
  }

  ghost function ToResolver(c: Judge.Config, j: Judge.State, token: Token.State, self: Account, claim: Judge.Claim,
                            outcome: Outcome): nat
  {
    if outcome == Breach then
      Lesser(c.bountyAmount, Behind(j, token, self, claim.slug) - ToClaimant(j, token, self, claim, outcome))
    else if outcome == Met then Lesser(c.bountyAmount, BondLeft(token, self, claim))
    else 0
  }

  /** A release, where there is anything to release. */
  ghost function Sent(owner: Account, to: Account, amount: nat): seq<Judge.Message> {
    if amount > 0 then [Judge.Message(owner, to, amount)] else []
  }

  /** The releases in their order: compensation and bounty from the provider, or the bounty from the bond, and what
      is left of the bond back to the claimant. */
  ghost function Releases(c: Judge.Config, j: Judge.State, token: Token.State, self: Account, claim: Judge.Claim,
                          outcome: Outcome, resolver: Account): seq<Judge.Message>
  {
    var (comp, bounty, bond) := (ToClaimant(j, token, self, claim, outcome),
                                 ToResolver(c, j, token, self, claim, outcome), BondLeft(token, self, claim));
    match (outcome, Judge.OwnerOf(j, claim.slug))
    case (Breach, Some(provider)) =>
      Sent(provider, claim.claimant, comp) + Sent(provider, resolver, bounty)
      + Sent(claim.claimant, claim.claimant, bond)
    case (Met, _) => Sent(claim.claimant, resolver, bounty) + Sent(claim.claimant, claim.claimant, bond - bounty)
    case _ => Sent(claim.claimant, claim.claimant, bond)
  }

  lemma PlanIs(c: Judge.Config, j: Judge.State, token: Token.State, self: Account, claim: Judge.Claim, outcome: Outcome)
    requires c.hasToken
    ensures var plan := Judge.SettlementPlan(c, j, token, self, claim, outcome);
            && plan.compensation == ToClaimant(j, token, self, claim, outcome)
            && plan.bounty == ToResolver(c, j, token, self, claim, outcome)
            && plan.fromProvider == (if outcome == Breach then plan.compensation + plan.bounty else 0)
            && plan.fromConsumer == (if outcome == Met then plan.bounty else 0)
    ensures Judge.BondAvailable(c, token, self, claim) == BondLeft(token, self, claim)
    ensures Judge.DepositAvailable(c, j, token, self, claim.slug) == Behind(j, token, self, claim.slug)
  {
    hide Token.EscrowOf;
  }

  lemma PayoutsAre(c: Judge.Config, j: Judge.State, token: Token.State, self: Account, claim: Judge.Claim,
                   outcome: Outcome, resolver: Account)
    requires c.hasToken
    ensures Judge.Payouts(c, j, token, self, claim, outcome, resolver)
            == Releases(c, j, token, self, claim, outcome, resolver)
  {
    PlanIs(c, j, token, self, claim, outcome);
    hide Judge.SettlementPlan, Judge.BondAvailable, BondLeft, ToResolver, ToClaimant;
    NothingBehind(c, j, token, self, claim, outcome);
  }

  lemma NothingBehind(c: Judge.Config, j: Judge.State, token: Token.State, self: Account, claim: Judge.Claim,
                      outcome: Outcome)
    ensures Judge.OwnerOf(j, claim.slug).None? && outcome == Breach ==>
      ToClaimant(j, token, self, claim, outcome) == 0 == ToResolver(c, j, token, self, claim, outcome)
  {
  }

  /** Whatever the accounts have done before, closing a claim emits exactly these releases, writes what they pay, and
      takes it from the deposit; and none asks for more than is held for its owner. */
  lemma ClosingReleases(c: Judge.Config, j: Judge.State, token: Token.State, self: Account, sender: Account,
                        call: Judge.Call)
    returns (key: string)
    requires c.hasToken && (call.ResolveClaim? || call.CancelClaim?)
    requires Judge.Apply(c, j, token, self, sender, call).Done?
    ensures IsRequestId(call.requestId) && key == Judge.KeyOf(call.requestId, call.clauseId) && key in j.claims
    ensures call.ResolveClaim? ==> call.judgment.Judged?
    ensures var outcome := if call.ResolveClaim? then call.judgment.outcome else Cancelled;
            var (claim, reply) := (j.claims[key], Judge.Apply(c, j, token, self, sender, call));
            var (comp, bounty) := (ToClaimant(j, token, self, claim, outcome),
                                   ToResolver(c, j, token, self, claim, outcome));
            && reply.emitted == Releases(c, j, token, self, claim, outcome, sender)
            && (forall m <- reply.emitted :: 0 < m.amount <= Token.EscrowOf(token, m.owner, self))
            && key in reply.state.claims
            && reply.state.claims[key].compensation == comp && reply.state.claims[key].bounty == bounty
            && Get(reply.state.depositAmount, claim.slug)
               == if outcome == Breach && comp + bounty > 0
                  then Behind(j, token, self, claim.slug) - comp - bounty else Get(j.depositAmount, claim.slug)
  {
    hide Judge.Apply, Judge.Settle, Judge.KeyOf, IsRequestId, Token.EscrowOf, Releases, ToClaimant, ToResolver, Behind;
    var outcome, reasoning;
    key, outcome, reasoning := ClosingSettles(c, j, token, self, sender, call);
    var claim := j.claims[key];
    PayoutsAre(c, j, token, self, claim, outcome, sender);
    Settles(c, j, token, self, key, outcome, reasoning, sender);
    WithinWhatIsHeld(c, j, token, self, claim, outcome, sender);
  }

  lemma Settles(c: Judge.Config, j: Judge.State, token: Token.State, self: Account, key: string, outcome: Outcome,
                reasoning: string, resolver: Account)
    requires c.hasToken && key in j.claims
    ensures var (j', emitted) := Judge.Settle(c, j, token, self, key, outcome, reasoning, resolver);
            var claim := j.claims[key];
            var (comp, bounty) := (ToClaimant(j, token, self, claim, outcome),
                                   ToResolver(c, j, token, self, claim, outcome));
            && emitted == Judge.Payouts(c, j, token, self, claim, outcome, resolver)
            && key in j'.claims && j'.claims[key].compensation == comp && j'.claims[key].bounty == bounty
            && Get(j'.depositAmount, claim.slug)
               == if outcome == Breach && comp + bounty > 0
                  then Behind(j, token, self, claim.slug) - comp - bounty else Get(j.depositAmount, claim.slug)
  {
    PlanIs(c, j, token, self, j.claims[key], outcome);
    hide Judge.SettlementPlan, Judge.BondAvailable, Judge.DepositAvailable, ToResolver, ToClaimant, Behind;
    hide Judge.Payouts;
    Enough(c, j, token, self, j.claims[key], outcome);
  }

  lemma Enough(c: Judge.Config, j: Judge.State, token: Token.State, self: Account, claim: Judge.Claim, outcome: Outcome)
    ensures outcome == Breach ==>
      ToClaimant(j, token, self, claim, outcome) + ToResolver(c, j, token, self, claim, outcome)
      <= Behind(j, token, self, claim.slug)
  {
    hide Token.EscrowOf;
  }

  lemma WithinWhatIsHeld(c: Judge.Config, j: Judge.State, token: Token.State, self: Account, claim: Judge.Claim,
                         outcome: Outcome, resolver: Account)
    ensures forall m <- Releases(c, j, token, self, claim, outcome, resolver) ::
              0 < m.amount <= Token.EscrowOf(token, m.owner, self)
  {
    hide Token.EscrowOf;
  }
}
