/** genlayer/contracts/sla_claim_judge.py: the contract's storage as a value, and what each call does to it.

    Every answer the contract takes from outside (the token's escrow, Arc's verdict and clock, the
    criteria text, the judgement) is an argument. Token transfers are not made but emitted: a call
    returns the `release` messages it defers to finality. */
module ClaimJudge {
  import opened Basics
  import opened Sums
  import opened ClaimRules
  import Token

  type Account = Token.Account

  datatype Config = Config(hasToken: bool, bondAmount: nat, bountyAmount: nat, filingWindow: nat, cooldown: nat)

  datatype Claim = Claim(
    requestId: string, clauseId: string, slug: string, claimant: Account, criteria: string,
    filedAt: nat, signature: string, paidAmount: nat, bond: nat,
    resolved: bool, outcome: Outcome, reasoning: string, compensation: nat, bounty: nat)

  datatype State = State(
    claims: map<string, Claim>,
    claimKeys: seq<string>,
    depositOwner: map<string, Account>,
    depositAmount: map<string, nat>,
    depositCommitted: map<Account, nat>,
    openClaims: map<string, nat>,
    withdrawalRequestedAt: map<string, nat>,
    bonded: map<Account, nat>)

  const EMPTY := State(map[], [], map[], map[], map[], map[], map[], map[])

  /** A deferred `release(owner, to, amount)` on the settlement token. */
  datatype Message = Message(owner: Account, to: Account, amount: nat)

  /** One batched Arc read: the verdict on record and the latest block's timestamp. */
  datatype ArcRead = ReadError | Read(verdict: Verdict, now: nat)

  /** `_judge` either names one of the three resolved outcomes or aborts the transaction. */
  datatype Judgment = Aborts | Judged(outcome: Outcome, reasoning: string)

  datatype Call =
    | FundDeposit(slug: string)
    | SubmitClaim(requestId: string, clauseId: string, slug: string, signature: string,
                  arc: ArcRead, criteria: Option<string>)
    | ResolveClaim(requestId: string, clauseId: string, judgment: Judgment)
    | CancelClaim(requestId: string, clauseId: string, arc: ArcRead)
    | RequestWithdrawal(slug: string, clock: Option<nat>)
    | CancelWithdrawal(slug: string)
    | WithdrawDeposit(slug: string, clock: Option<nat>)

  datatype Reply = Refused(why: Refusal) | Done(state: State, emitted: seq<Message>)

  /** `_escrow_of`: what this contract may move of `owner`'s, as the token answers it. */
  function Escrowed(c: Config, token: Token.State, self: Account, owner: Account): nat {
    if c.hasToken then Token.EscrowOf(token, owner, self) else 0
  }

  function OwnerOf(j: State, slug: string): Option<Account> {
    if slug in j.depositOwner then Some(j.depositOwner[slug]) else None
  }

  const CANCELLED_REASON := "Cancelled by the claimant"

  // ---------------------------------------------------------------- deposits

  function Fund(c: Config, j: State, token: Token.State, self: Account, sender: Account, slug: string): Reply {
    var existing, previous := OwnerOf(j, slug), Get(j.depositAmount, slug);
    if existing.Some? && existing.value != sender && (previous > 0 || Get(j.openClaims, slug) > 0)
    then Refused(BackedByAnother)
    else
      var elsewhere := Get(j.depositCommitted, sender) - (if existing == Some(sender) then previous else 0);
      var allocatable := AvailableEscrow(Escrowed(c, token, self, sender), elsewhere, Get(j.bonded, sender));
      if allocatable <= 0 then Refused(NotEscrowed)
      else if elsewhere + allocatable < 0 then Refused(Underflow)
      else Done(j.(
        depositOwner := j.depositOwner[slug := sender],
        depositAmount := j.depositAmount[slug := allocatable],
        depositCommitted := j.depositCommitted[sender := elsewhere + allocatable],
        withdrawalRequestedAt := j.withdrawalRequestedAt[slug := 0]), [])
  }

  /** `_require_depositor` */
  function DepositorRefusal(j: State, sender: Account, slug: string): Option<Refusal> {
    match OwnerOf(j, slug)
    case None => Some(NoDepositOwner)
    case Some(owner) => if owner != sender then Some(NotDepositor) else None
  }

  function Request(j: State, sender: Account, slug: string, clock: Option<nat>): Reply {
    if DepositorRefusal(j, sender, slug).Some? then Refused(DepositorRefusal(j, sender, slug).value)
    else if Get(j.depositAmount, slug) <= 0 then Refused(NothingToWithdraw)
    else match clock
      case None => Refused(ReadFailed)
      case Some(now) => Done(j.(withdrawalRequestedAt := j.withdrawalRequestedAt[slug := Bucketed(now)]), [])
  }

  function StandDown(j: State, sender: Account, slug: string): Reply {
    if DepositorRefusal(j, sender, slug).Some? then Refused(DepositorRefusal(j, sender, slug).value)
    else if Get(j.withdrawalRequestedAt, slug) == 0 then Refused(NoWithdrawalPending)
    else Done(j.(withdrawalRequestedAt := j.withdrawalRequestedAt[slug := 0]), [])
  }

  function Withdraw(c: Config, j: State, sender: Account, slug: string, clock: Option<nat>): Reply {
    var requestedAt := Get(j.withdrawalRequestedAt, slug);
    if DepositorRefusal(j, sender, slug).Some? then Refused(DepositorRefusal(j, sender, slug).value)
    else if requestedAt != 0 && clock.None? then Refused(ReadFailed)
    else
      var elapsed := requestedAt != 0 && CooldownElapsed(clock.value, requestedAt, c.cooldown);
      match WithdrawalRefusal(Get(j.openClaims, slug), requestedAt, elapsed)
      case Some(why) => Refused(why)
      case None =>
        var amount := Get(j.depositAmount, slug);
        Done(j.(
          depositAmount := j.depositAmount[slug := 0],
          depositCommitted := j.depositCommitted[sender := Max(0, Get(j.depositCommitted, sender) - amount)],
          withdrawalRequestedAt := j.withdrawalRequestedAt[slug := 0]),
          if amount > 0 then [Message(sender, sender, amount)] else [])
  }

  // ---------------------------------------------------------------- claims

  function Submit(c: Config, j: State, token: Token.State, self: Account, sender: Account,
                  requestId: string, clauseId: string, slug: string, signature: string,
                  arc: ArcRead, criteria: Option<string>): Reply
  {
    if !("0x" <= signature) then Refused(BadSignature)
    else match CanonicalRequestId(requestId)
      case None => Refused(BadRequestId)
      case Some(id) =>
        var key := ClaimKey(id, clauseId);
        var committed := Get(j.bonded, sender);
        if key in j.claims then Refused(ClaimExists)
        else if c.bondAmount > 0
          && AvailableEscrow(Escrowed(c, token, self, sender), Get(j.depositCommitted, sender), committed)
             < c.bondAmount
        then Refused(BondShort)
        else if arc.ReadError? then Refused(ReadFailed)
        else if CheckEligibility(arc.verdict, slug, arc.now, c.filingWindow).Some?
        then Refused(CheckEligibility(arc.verdict, slug, arc.now, c.filingWindow).value)
        else if criteria.None? then Refused(NoCriteria)
        else
          var claim := Claim(id, clauseId, slug, sender, criteria.value, Bucketed(arc.now), signature,
                             arc.verdict.paidAmount, c.bondAmount, false, Open, "", 0, 0);
          Done(j.(
            claims := j.claims[key := claim],
            claimKeys := j.claimKeys + [key],
            bonded := j.bonded[sender := committed + c.bondAmount],
            openClaims := j.openClaims[slug := Get(j.openClaims, slug) + 1]), [])
  }

  /** `_require_open`, after the key has been canonicalised. */
  function OpenRefusal(j: State, requestId: string, clauseId: string): Option<Refusal> {
    match CanonicalRequestId(requestId)
    case None => Some(BadRequestId)
    case Some(id) =>
      var key := ClaimKey(id, clauseId);
      if key !in j.claims then Some(NoSuchClaim)
      else if j.claims[key].resolved then Some(AlreadyResolved)
      else None
  }

  function KeyOf(requestId: string, clauseId: string): string
    requires IsRequestId(requestId)
  {
    ClaimKey(CanonicalRequestId(requestId).value, clauseId)
  }

  /** What `_settle` may draw on: the slug's deposit and the claimant's bond, each clamped to the escrow. */
  function DepositAvailable(c: Config, j: State, token: Token.State, self: Account, slug: string): nat {
    match OwnerOf(j, slug)
    case None => 0
    case Some(provider) => Min(Escrowed(c, token, self, provider), Get(j.depositAmount, slug))
  }

  function BondAvailable(c: Config, token: Token.State, self: Account, claim: Claim): nat {
    if claim.bond > 0 then Min(Escrowed(c, token, self, claim.claimant), claim.bond) else 0
  }

  function SettlementPlan(c: Config, j: State, token: Token.State, self: Account,
                          claim: Claim, outcome: Outcome): Plan
  {
    SettlementFor(outcome, claim.paidAmount, DepositAvailable(c, j, token, self, claim.slug),
                  BondAvailable(c, token, self, claim), c.bountyAmount)
  }

  function Emit(owner: Account, to: Account, amount: nat): seq<Message> {
    if amount > 0 then [Message(owner, to, amount)] else []
  }

  /** The claim as the decision leaves it on file. */
  function Decided(c: Config, j: State, token: Token.State, self: Account, claim: Claim,
                   outcome: Outcome, reasoning: string): Claim
  {
    var plan := SettlementPlan(c, j, token, self, claim, outcome);
    claim.(resolved := true, outcome := outcome, reasoning := reasoning,
           compensation := if c.hasToken then plan.compensation else claim.compensation,
           bounty := if c.hasToken then plan.bounty else claim.bounty)
  }

  /** What `_settle` takes from the slug's deposit. */
  function Drawn(c: Config, j: State, token: Token.State, self: Account, claim: Claim, outcome: Outcome): nat {
    if c.hasToken then SettlementPlan(c, j, token, self, claim, outcome).fromProvider else 0
  }

  function Payouts(c: Config, j: State, token: Token.State, self: Account, claim: Claim,
                   outcome: Outcome, resolver: Account): seq<Message>
  {
    if !c.hasToken then []
    else
      var plan := SettlementPlan(c, j, token, self, claim, outcome);
      (if plan.fromProvider > 0 then
         var provider := OwnerOf(j, claim.slug).value;
         Emit(provider, claim.claimant, plan.compensation) + Emit(provider, resolver, plan.bounty)
       else
         Emit(claim.claimant, resolver, plan.fromConsumer))
      + Emit(claim.claimant, claim.claimant, BondAvailable(c, token, self, claim) - plan.fromConsumer)
  }

  /** The whole of `_settle`, with the outcome already decided. */
  function Settle(c: Config, j: State, token: Token.State, self: Account, key: string,
                  outcome: Outcome, reasoning: string, resolver: Account): (State, seq<Message>)
    requires key in j.claims
  {
    var claim := j.claims[key];
    var drawn := Drawn(c, j, token, self, claim, outcome);
    var j' := j.(
      claims := j.claims[key := Decided(c, j, token, self, claim, outcome, reasoning)],
      bonded := j.bonded[claim.claimant := Max(0, Get(j.bonded, claim.claimant) - claim.bond)],
      openClaims := j.openClaims[claim.slug := Max(0, Get(j.openClaims, claim.slug) - 1)]);
    (if drawn == 0 then j' else
       var provider := OwnerOf(j, claim.slug).value;
       var held := DepositAvailable(c, j, token, self, claim.slug);
       j'.(depositAmount := j.depositAmount[claim.slug := Max(0, held - drawn)],
           depositCommitted := j.depositCommitted[provider := Max(0, Get(j.depositCommitted, provider) - drawn)]),
     Payouts(c, j, token, self, claim, outcome, resolver))
  }

  function Resolve(c: Config, j: State, token: Token.State, self: Account, sender: Account,
                   requestId: string, clauseId: string, judgment: Judgment): Reply
  {
    if OpenRefusal(j, requestId, clauseId).Some? then Refused(OpenRefusal(j, requestId, clauseId).value)
    else match judgment
      case Aborts => Refused(JudgmentAborted)
      case Judged(outcome, reasoning) =>
        if outcome !in {Breach, Met, Undetermined} then Refused(JudgmentAborted)
        else
          var (j', emitted) := Settle(c, j, token, self, KeyOf(requestId, clauseId), outcome, reasoning, sender);
          Done(j', emitted)
  }

  function Cancel(c: Config, j: State, token: Token.State, self: Account, sender: Account,
                  requestId: string, clauseId: string, arc: ArcRead): Reply
  {
    if OpenRefusal(j, requestId, clauseId).Some? then Refused(OpenRefusal(j, requestId, clauseId).value)
    else
      var key := KeyOf(requestId, clauseId);
      if sender != j.claims[key].claimant then Refused(NotClaimant)
      else if arc.ReadError? then Refused(ReadFailed)
      else if Bucketed(arc.now) < j.claims[key].filedAt + ADJUDICATION_WINDOW_SECONDS then Refused(WindowNotLapsed)
      else
        var (j', emitted) := Settle(c, j, token, self, key, Cancelled, CANCELLED_REASON, sender);
        Done(j', emitted)
  }

  function Apply(c: Config, j: State, token: Token.State, self: Account, sender: Account, call: Call): Reply {
    match call
    case FundDeposit(slug) => Fund(c, j, token, self, sender, slug)
    case SubmitClaim(requestId, clauseId, slug, signature, arc, criteria) =>
      Submit(c, j, token, self, sender, requestId, clauseId, slug, signature, arc, criteria)
    case ResolveClaim(requestId, clauseId, judgment) =>
      Resolve(c, j, token, self, sender, requestId, clauseId, judgment)
    case CancelClaim(requestId, clauseId, arc) => Cancel(c, j, token, self, sender, requestId, clauseId, arc)
    case RequestWithdrawal(slug, clock) => Request(j, sender, slug, clock)
    case CancelWithdrawal(slug) => StandDown(j, sender, slug)
    case WithdrawDeposit(slug, clock) => Withdraw(c, j, sender, slug, clock)
  }

  function After(c: Config, j: State, token: Token.State, self: Account, sender: Account, call: Call): State {
    match Apply(c, j, token, self, sender, call) case Done(j', _) => j' case Refused(_) => j
  }

  // ---------------------------------------------------------------- when a withdrawal reads the clock

  /** For its depositor, `withdraw_deposit` depends on a clock read exactly when a withdrawal was requested,
      whether or not the cheap checks would have refused it. */
  lemma ClockIsReadOnRequest(c: Config, j: State, sender: Account, slug: string)
    ensures Withdraw(c, j, sender, slug, None) == Refused(ReadFailed)
            <==> DepositorRefusal(j, sender, slug).None? && Get(j.withdrawalRequestedAt, slug) != 0
  {
    hide CooldownElapsed, Max;
  }

  /** With claims open the answer is the open-claims refusal without any read, as the comment on the call
      promises, exactly while no withdrawal is requested. */
  lemma OpenClaimsNeedNoReadIff(c: Config, j: State, sender: Account, slug: string)
    requires DepositorRefusal(j, sender, slug).None? && Get(j.openClaims, slug) > 0
    ensures Withdraw(c, j, sender, slug, None) == Refused(ClaimsOpen) <==> Get(j.withdrawalRequestedAt, slug) == 0
    ensures forall now: nat :: Withdraw(c, j, sender, slug, Some(now)) == Refused(ClaimsOpen)
  {
    hide CooldownElapsed, Max;
  }
}
