/** The contract `SlaClaimJudge` itself: storage in fields, updated in place in the order the source does.
    Each method is proved to answer, to change the storage and to emit exactly as `ClaimJudge` says. */
module ClaimJudgeContract {
  import opened Basics
  import opened Sums
  import opened ClaimRules
  import opened ClaimJudge
  import Token

  class SlaClaimJudge {
    const config: Config
    const self: Account
    const token: Token.SettlementToken
    var claims: map<string, Claim>
    var claimKeys: seq<string>
    var depositOwner: map<string, Account>
    var depositAmount: map<string, nat>
    var depositCommitted: map<Account, nat>
    var openClaims: map<string, nat>
    var withdrawalRequestedAt: map<string, nat>
    var bonded: map<Account, nat>
    /** The `release` messages emitted on finality, in order. */
    var outbox: seq<Message>

    ghost function Storage(): State
      reads this
    {
      State(claims, claimKeys, depositOwner, depositAmount, depositCommitted, openClaims, withdrawalRequestedAt, bonded)
    }

    /** Deployment: refused when the cooldown is shorter than twice the filing window. */
    static method Deploy(config: Config, self: Account, token: Token.SettlementToken) returns (judge: SlaClaimJudge?)
      ensures judge == null <==> config.cooldown < config.filingWindow * 2
      ensures judge != null ==> fresh(judge) && judge.Storage() == EMPTY && judge.outbox == []
                                && judge.config == config && judge.self == self && judge.token == token
    {
      if config.cooldown < config.filingWindow * 2 { return null; }
      judge := new SlaClaimJudge(config, self, token);
    }

    constructor (config: Config, self: Account, token: Token.SettlementToken)
      requires config.cooldown >= config.filingWindow * 2
      ensures Storage() == EMPTY && outbox == []
      ensures this.config == config && this.self == self && this.token == token
    {
      this.config, this.self, this.token := config, self, token;
      claims, claimKeys, outbox := map[], [], [];
      depositOwner, depositAmount, depositCommitted := map[], map[], map[];
      openClaims, withdrawalRequestedAt, bonded := map[], map[], map[];
    }

    ghost predicate Answers(was: State, sent: seq<Message>, reply: Reply, refusal: Option<Refusal>)
      reads this
    {
      match reply
      case Refused(why) => refusal == Some(why) && Storage() == was && outbox == sent
      case Done(now, emitted) => refusal == None && Storage() == now && outbox == sent + emitted
    }

    method EscrowOf(owner: Account) returns (amount: nat)
      ensures amount == Escrowed(config, token.Storage(), self, owner)
    {
      if !config.hasToken { return 0; }
      amount := token.EscrowBy(owner, self);
    }

    method RequireDepositor(sender: Account, slug: string) returns (refusal: Option<Refusal>)
      ensures refusal == DepositorRefusal(Storage(), sender, slug)
    {
      if slug !in depositOwner { return Some(NoDepositOwner); }
      if depositOwner[slug] != sender { return Some(NotDepositor); }
      return None;
    }

    method RequireOpen(requestId: string, clauseId: string) returns (refusal: Option<Refusal>)
      ensures refusal == OpenRefusal(Storage(), requestId, clauseId)
    {
      var canonical := CanonicalRequestId(requestId);
      if canonical.None? { return Some(BadRequestId); }
      var key := ClaimKey(canonical.value, clauseId);
      if key !in claims { return Some(NoSuchClaim); }
      if claims[key].resolved { return Some(AlreadyResolved); }
      return None;
    }

    method Release(owner: Account, to: Account, amount: nat)
      modifies this`outbox
      ensures outbox == old(outbox) + [Message(owner, to, amount)]
    {
      outbox := outbox + [Message(owner, to, amount)];
    }

    method FundDeposit(sender: Account, slug: string) returns (refusal: Option<Refusal>)
      modifies this`depositOwner, this`depositAmount, this`depositCommitted, this`withdrawalRequestedAt
      ensures Answers(old(Storage()), old(outbox), Fund(config, old(Storage()), token.Storage(), self, sender, slug),
              refusal)
    {
      hide Fund;
      var amount, committed;
      refusal, amount, committed := Allocate(sender, slug);
      if refusal.Some? { return; }
      Bind(sender, slug, amount, committed);
    }

    /** The checks of `fund_deposit`, and what it would allot. */
    method Allocate(sender: Account, slug: string) returns (refusal: Option<Refusal>, amount: nat, committed: nat)
      ensures Fund(config, Storage(), token.Storage(), self, sender, slug)
              == if refusal.Some? then Refused(refusal.value)
                 else Done(Storage().(depositOwner := depositOwner[slug := sender],
                                      depositAmount := depositAmount[slug := amount],
                                      depositCommitted := depositCommitted[sender := committed],
                                      withdrawalRequestedAt := withdrawalRequestedAt[slug := 0]), [])
    {
      hide Escrowed;
      var previous := Get(depositAmount, slug);
      var mine := slug in depositOwner && depositOwner[slug] == sender;
      if slug in depositOwner && !mine && (previous > 0 || Get(openClaims, slug) > 0) {
        return Some(BackedByAnother), 0, 0;
      }
      var elsewhere := Get(depositCommitted, sender);
      if mine { elsewhere := elsewhere - previous; }
      var escrowed := EscrowOf(sender);
      var allocatable := AvailableEscrow(escrowed, elsewhere, Get(bonded, sender));
      if allocatable <= 0 { return Some(NotEscrowed), 0, 0; }
      if elsewhere + allocatable < 0 { return Some(Underflow), 0, 0; }
      return None, allocatable, elsewhere + allocatable;
    }

    /** The writes of `fund_deposit`. */
    method Bind(sender: Account, slug: string, amount: nat, committed: nat)
      modifies this`depositOwner, this`depositAmount, this`depositCommitted, this`withdrawalRequestedAt
      ensures Storage() == old(Storage()).(
        depositOwner := old(depositOwner)[slug := sender],
        depositAmount := old(depositAmount)[slug := amount],
        depositCommitted := old(depositCommitted)[sender := committed],
        withdrawalRequestedAt := old(withdrawalRequestedAt)[slug := 0])
    {
      depositOwner := depositOwner[slug := sender];
      depositAmount := depositAmount[slug := amount];
      depositCommitted := depositCommitted[sender := committed];
      withdrawalRequestedAt := withdrawalRequestedAt[slug := 0];
    }

    method SubmitClaim(sender: Account, requestId: string, clauseId: string, slug: string, signature: string,
                       arc: ArcRead, criteria: Option<string>) returns (refusal: Option<Refusal>)
      modifies this`claims, this`claimKeys, this`bonded, this`openClaims
      ensures Answers(old(Storage()), old(outbox),
                      Submit(config, old(Storage()), token.Storage(), self, sender, requestId, clauseId, slug,
                          signature, arc, criteria),
                      refusal)
    {
      hide Escrowed, CheckEligibility, ClaimKey, CanonicalRequestId, Bucketed;
      if !("0x" <= signature) { return Some(BadSignature); }
      var canonical := CanonicalRequestId(requestId);
      if canonical.None? { return Some(BadRequestId); }
      var key := ClaimKey(canonical.value, clauseId);
      if key in claims { return Some(ClaimExists); }
      var committed := Get(bonded, sender);
      if config.bondAmount > 0 {
        var escrowed := EscrowOf(sender);
        if AvailableEscrow(escrowed, Get(depositCommitted, sender), committed) < config.bondAmount {
          return Some(BondShort);
        }
      }
      if arc.ReadError? { return Some(ReadFailed); }
      var refused := CheckEligibility(arc.verdict, slug, arc.now, config.filingWindow);
      if refused.Some? { return refused; }
      if criteria.None? { return Some(NoCriteria); }
      File(key, Claim(canonical.value, clauseId, slug, sender, criteria.value, Bucketed(arc.now), signature,
                      arc.verdict.paidAmount, config.bondAmount, false, Open, "", 0, 0));
      return None;
    }

    /** The writes of `submit_claim`. */
    method File(key: string, claim: Claim)
      modifies this`claims, this`claimKeys, this`bonded, this`openClaims
      ensures Storage() == old(Storage()).(
        claims := old(claims)[key := claim],
        claimKeys := old(claimKeys) + [key],
        bonded := old(bonded)[claim.claimant := Get(old(bonded), claim.claimant) + claim.bond],
        openClaims := old(openClaims)[claim.slug := Get(old(openClaims), claim.slug) + 1])
    {
      claims := claims[key := claim];
      claimKeys := claimKeys + [key];
      bonded := bonded[claim.claimant := Get(bonded, claim.claimant) + claim.bond];
      openClaims := openClaims[claim.slug := Get(openClaims, claim.slug) + 1];
    }

    method ResolveClaim(sender: Account, requestId: string, clauseId: string, judgment: Judgment)
      returns (refusal: Option<Refusal>)
      modifies this
      ensures Answers(old(Storage()), old(outbox),
                      Resolve(config, old(Storage()), token.Storage(), self, sender, requestId, clauseId, judgment),
                      refusal)
    {
      refusal := RequireOpen(requestId, clauseId);
      if refusal.Some? { return; }
      var key := KeyOf(requestId, clauseId);
      if judgment.Aborts? || judgment.outcome !in {Breach, Met, Undetermined} { return Some(JudgmentAborted); }
      CloseAndSettle(key, judgment.outcome, judgment.reasoning, sender);
    }

    method CancelClaim(sender: Account, requestId: string, clauseId: string, arc: ArcRead)
      returns (refusal: Option<Refusal>)
      modifies this
      ensures Answers(old(Storage()), old(outbox),
                      Cancel(config, old(Storage()), token.Storage(), self, sender, requestId, clauseId, arc), refusal)
    {
      refusal := RequireOpen(requestId, clauseId);
      if refusal.Some? { return; }
      var key := KeyOf(requestId, clauseId);
      if sender != claims[key].claimant { return Some(NotClaimant); }
      if arc.ReadError? { return Some(ReadFailed); }
      if Bucketed(arc.now) < claims[key].filedAt + ADJUDICATION_WINDOW_SECONDS { return Some(WindowNotLapsed); }
      CloseAndSettle(key, Cancelled, CANCELLED_REASON, sender);
    }

    /** The tail both ways out of an open claim share: write the decision, then `_settle`. */
    method CloseAndSettle(key: string, outcome: Outcome, reasoning: string, resolver: Account)
      requires key in claims
      modifies this
      ensures var (now, emitted) := Settle(config, old(Storage()), token.Storage(), self, key, outcome, reasoning,
              resolver);
              Storage() == now && outbox == old(outbox) + emitted
    {
      hide SettlementFor, Emit, Max, Get, DepositAvailable, BondAvailable;
      ghost var was := Storage();
      var claim := claims[key].(outcome := outcome, reasoning := reasoning, resolved := true);
      SameMeans(was.claims[key], claim);
      var available, bondAvailable := Available(claim);
      ghost var decided := Decided(config, was, token.Storage(), self, was.claims[key], outcome, reasoning);
      Close(key, claim);
      if config.hasToken { PayOut(key, claim, available, bondAvailable, resolver); }
      assert was.claims[key := claim][key := decided] == was.claims[key := decided];
    }

    /** What a claim may draw on does not depend on what has been decided about it. */
    lemma SameMeans(claim: Claim, decided: Claim)
      requires decided == claim.(outcome := decided.outcome, reasoning := decided.reasoning,
               resolved := decided.resolved)
      ensures BondAvailable(config, token.Storage(), self, claim)
              == BondAvailable(config, token.Storage(), self, decided)
    {
    }

    /** What `_settle` may draw on, read off the token. */
    method Available(claim: Claim) returns (available: nat, bondAvailable: nat)
      ensures available == DepositAvailable(config, Storage(), token.Storage(), self, claim.slug)
      ensures bondAvailable == BondAvailable(config, token.Storage(), self, claim)
      ensures available > 0 ==> claim.slug in depositOwner
    {
      available, bondAvailable := 0, 0;
      if claim.slug in depositOwner {
        var held := EscrowOf(depositOwner[claim.slug]);
        available := Min(held, Get(depositAmount, claim.slug));
      }
      if claim.bond > 0 {
        var held := EscrowOf(claim.claimant);
        bondAvailable := Min(held, claim.bond);
      }
    }

    method Close(key: string, claim: Claim)
      modifies this`claims, this`bonded, this`openClaims
      ensures Storage() == old(Storage()).(
        claims := old(claims)[key := claim],
        bonded := old(bonded)[claim.claimant := Max(0, Get(old(bonded), claim.claimant) - claim.bond)],
        openClaims := old(openClaims)[claim.slug := Max(0, Get(old(openClaims), claim.slug) - 1)])
    {
      claims := claims[key := claim];
      bonded := bonded[claim.claimant := Max(0, Get(bonded, claim.claimant) - claim.bond)];
      openClaims := openClaims[claim.slug := Max(0, Get(openClaims, claim.slug) - 1)];
    }

    /** The money half of `_settle`. */
    method PayOut(key: string, claim: Claim, available: nat, bondAvailable: nat, resolver: Account)
      requires available > 0 ==> claim.slug in depositOwner
      modifies this`claims, this`depositAmount, this`depositCommitted, this`outbox
      ensures var plan := SettlementFor(claim.outcome, claim.paidAmount, available, bondAvailable, config.bountyAmount);
              var surplus := Emit(claim.claimant, claim.claimant, bondAvailable - plan.fromConsumer);
              && claims == old(claims)[key := claim.(compensation := plan.compensation, bounty := plan.bounty)]
              && (if plan.fromProvider > 0 then
                    var provider := depositOwner[claim.slug];
                    && depositAmount == old(depositAmount)[claim.slug := Max(0, available - plan.fromProvider)]
                    && depositCommitted
                       == old(depositCommitted)[provider := Max(0, Get(old(depositCommitted), provider)
                          - plan.fromProvider)]
                    && outbox == old(outbox) + (Emit(provider, claim.claimant, plan.compensation)
                       + Emit(provider, resolver, plan.bounty) + surplus)
                  else
                    && depositAmount == old(depositAmount) && depositCommitted == old(depositCommitted)
                    && outbox == old(outbox) + (Emit(claim.claimant, resolver, plan.fromConsumer) + surplus))
    {
      hide SettlementFor, Max, Get;
      var plan := SettlementFor(claim.outcome, claim.paidAmount, available, bondAvailable, config.bountyAmount);
      claims := claims[key := claim.(compensation := plan.compensation, bounty := plan.bounty)];
      if plan.fromProvider > 0 {
        var provider := depositOwner[claim.slug];
        if plan.compensation > 0 { Release(provider, claim.claimant, plan.compensation); }
        if plan.bounty > 0 { Release(provider, resolver, plan.bounty); }
        depositAmount := depositAmount[claim.slug := Max(0, available - plan.fromProvider)];
        depositCommitted := depositCommitted[provider := Max(0, Get(depositCommitted, provider) - plan.fromProvider)];
      } else if plan.fromConsumer > 0 {
        Release(claim.claimant, resolver, plan.fromConsumer);
      }
      var surplus := bondAvailable - plan.fromConsumer;
      if surplus > 0 { Release(claim.claimant, claim.claimant, surplus); }
    }

    method RequestWithdrawal(sender: Account, slug: string, clock: Option<nat>) returns (refusal: Option<Refusal>)
      modifies this
      ensures Answers(old(Storage()), old(outbox), Request(old(Storage()), sender, slug, clock), refusal)
    {
      refusal := RequireDepositor(sender, slug);
      if refusal.Some? { return; }
      if Get(depositAmount, slug) <= 0 { return Some(NothingToWithdraw); }
      if clock.None? { return Some(ReadFailed); }
      withdrawalRequestedAt := withdrawalRequestedAt[slug := Bucketed(clock.value)];
    }

    method CancelWithdrawal(sender: Account, slug: string) returns (refusal: Option<Refusal>)
      modifies this
      ensures Answers(old(Storage()), old(outbox), StandDown(old(Storage()), sender, slug), refusal)
    {
      refusal := RequireDepositor(sender, slug);
      if refusal.Some? { return; }
      if Get(withdrawalRequestedAt, slug) == 0 { return Some(NoWithdrawalPending); }
      withdrawalRequestedAt := withdrawalRequestedAt[slug := 0];
    }

    method WithdrawDeposit(sender: Account, slug: string, clock: Option<nat>) returns (refusal: Option<Refusal>)
      modifies this
      ensures Answers(old(Storage()), old(outbox), Withdraw(config, old(Storage()), sender, slug, clock), refusal)
    {
      hide WithdrawalRefusal, Max;
      refusal := RequireDepositor(sender, slug);
      if refusal.Some? { return; }
      var requestedAt := Get(withdrawalRequestedAt, slug);
      if requestedAt != 0 && clock.None? { return Some(ReadFailed); }
      var elapsed := requestedAt != 0 && CooldownElapsed(clock.value, requestedAt, config.cooldown);
      refusal := WithdrawalRefusal(Get(openClaims, slug), requestedAt, elapsed);
      if refusal.Some? { return; }
      var amount := Get(depositAmount, slug);
      depositAmount := depositAmount[slug := 0];
      depositCommitted := depositCommitted[sender := Max(0, Get(depositCommitted, sender) - amount)];
      withdrawalRequestedAt := withdrawalRequestedAt[slug := 0];
      if amount > 0 { Release(sender, sender, amount); }
    }
  }
}
