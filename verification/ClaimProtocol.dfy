/** The two contracts together: the token, the judge that is its custodian, the releases the judge has
    emitted that are not delivered yet, and Arc's clock. Steps happen in any order and the pending
    releases are delivered in any order. */
module ClaimProtocol {
  import opened Sums
  import opened ClaimRules
  import opened ClaimBookkeeping
  import Judge = ClaimJudge
  import Token

  type Account = Token.Account
  type Message = Judge.Message

  /** What a run leaves on record, oldest first. */
  datatype Event =
    | Funded(slug: string, allotted: nat)
    | Requested(slug: string, at: nat)
    | StoodDown(slug: string)
    | Withdrawn(slug: string, paid: int, at: nat)
    | Filed(slug: string, key: string, writtenAt: nat, at: nat)
    | Closed(slug: string, key: string, paidFromDeposit: nat)

  datatype World = World(
    token: Token.State,
    judge: Judge.State,
    pending: multiset<Message>,
    clock: nat,
    log: seq<Event>)

  datatype Step =
    | TokenStep(sender: Account, call: Token.Call)
    | JudgeStep(sender: Account, request: Judge.Call)
    | Deliver(message: Message)
    | Tick(now: nat)

  ghost function Start(now: nat): World { World(Token.EMPTY, Judge.EMPTY, multiset{}, now, []) }

  function ReleaseCall(m: Message): Token.Call { Token.Call.Release(m.owner, m.to, m.amount) }

  function AmountOf(): Message -> int { (m: Message) => m.amount }

  /** What a closed claim took from the slug's deposit, off the figures written on the claim. */
  function PaidByProvider(claim: Judge.Claim): nat {
    if claim.outcome == Breach then claim.compensation + claim.bounty else 0
  }

  ghost function ClosedEvent(j': Judge.State, key: string): Event
    requires key in j'.claims
  {
    Closed(j'.claims[key].slug, key, PaidByProvider(j'.claims[key]))
  }

  /** The record of a call that went through. */
  ghost function EventOf(c: Judge.Config, self: Account, w: World, sender: Account, request: Judge.Call): Event
    requires Judge.Apply(c, w.judge, w.token, self, sender, request).Done?
  {
    var Done(j', emitted) := Judge.Apply(c, w.judge, w.token, self, sender, request);
    match request
    case FundDeposit(slug) => Funded(slug, Get(j'.depositAmount, slug))
    case SubmitClaim(id, clause, slug, _, arc, _) =>
      Filed(slug, Judge.KeyOf(id, clause), arc.verdict.writtenAt, arc.now)
    case ResolveClaim(id, clause, _) => ClosedEvent(j', Judge.KeyOf(id, clause))
    case CancelClaim(id, clause, _) => ClosedEvent(j', Judge.KeyOf(id, clause))
    case RequestWithdrawal(slug, clock) => Requested(slug, clock.value)
    case CancelWithdrawal(slug) => StoodDown(slug)
    case WithdrawDeposit(slug, clock) => Withdrawn(slug, SeqSum(emitted, AmountOf()), clock.value)
  }

  ghost function Next(c: Judge.Config, self: Account, w: World, step: Step): World {
    match step
    case TokenStep(sender, call) => w.(token := Token.After(w.token, sender, call))
    case JudgeStep(sender, request) =>
      (match Judge.Apply(c, w.judge, w.token, self, sender, request)
       case Refused(_) => w
       case Done(j', emitted) =>
         w.(judge := j', pending := w.pending + multiset(emitted),
             log := w.log + [EventOf(c, self, w, sender, request)]))
    case Deliver(m) =>
      w.(token := Token.After(w.token, self, ReleaseCall(m)), pending := w.pending - multiset{m})
    case Tick(now) => w.(clock := now)
  }

  /** A read of Arc that succeeds returns the clock of the moment. */
  ghost predicate ReadsClock(request: Judge.Call, now: nat) {
    match request
    case SubmitClaim(_, _, _, _, arc, _) => arc.Read? ==> arc.now == now
    case CancelClaim(_, _, arc) => arc.Read? ==> arc.now == now
    case RequestWithdrawal(_, clock) => clock.Some? ==> clock.value == now
    case WithdrawDeposit(_, clock) => clock.Some? ==> clock.value == now
    case _ => true
  }

  /** The judge acts on the token only through the releases it emits, only a pending release is
      delivered, and the clock does not run backwards. */
  ghost predicate Possible(self: Account, w: World, step: Step) {
    match step
    case TokenStep(sender, _) => sender != self
    case JudgeStep(_, request) => ReadsClock(request, w.clock)
    case Deliver(m) => m in w.pending
    case Tick(now) => w.clock <= now
  }

  /** The world after `steps`, from two freshly deployed contracts. */
  ghost function Exec(c: Judge.Config, self: Account, start: nat, steps: seq<Step>): World {
    if steps == [] then Start(start)
    else Next(c, self, Exec(c, self, start, steps[..|steps| - 1]), steps[|steps| - 1])
  }

  ghost predicate Legal(c: Judge.Config, self: Account, start: nat, steps: seq<Step>) {
    steps == [] ||
    (var init := steps[..|steps| - 1];
     Legal(c, self, start, init) && Possible(self, Exec(c, self, start, init), steps[|steps| - 1]))
  }

  // ---------------------------------------------------------------- undelivered releases

  ghost function OwedBy(o: Account): Message -> int { (m: Message) => if m.owner == o then m.amount else 0 }

  /** The part of `o`'s escrow that emitted releases have already spoken for. */
  ghost function Owed(w: World, o: Account): int { BagSum(w.pending, OwedBy(o)) }

  /** The comment in `_settle` names the case the recorded totals cannot see: allocating escrow that is
      already on its way out. An account is careful if it funds a deposit or files a claim only while
      none of its own releases is undelivered. */
  ghost predicate Careful(w: World, step: Step) {
    step.JudgeStep? && (step.request.FundDeposit? || step.request.SubmitClaim?) ==> Owed(w, step.sender) == 0
  }

  ghost predicate CarefulRun(c: Judge.Config, self: Account, start: nat, steps: seq<Step>) {
    steps == [] ||
    (var init, last := steps[..|steps| - 1], steps[|steps| - 1];
     && CarefulRun(c, self, start, init)
     && Possible(self, Exec(c, self, start, init), last)
     && Careful(Exec(c, self, start, init), last))
  }

  /** Everything recorded or emitted against `o`'s escrow is there. */
  ghost predicate SolventFor(c: Judge.Config, self: Account, w: World, o: Account) {
    Get(w.judge.depositCommitted, o) + Get(w.judge.bonded, o) + Owed(w, o) <= Judge.Escrowed(c, w.token, self, o)
  }

  ghost predicate Solvent(c: Judge.Config, self: Account, w: World) {
    && Token.Sound(w.token)
    && Consistent(w.judge)
    && (forall m <- w.pending :: m.amount > 0)
    && (!c.hasToken ==> w.pending == multiset{})
    && (forall o :: SolventFor(c, self, w, o))
  }

  lemma OwedNonNegative(w: World, o: Account)
    ensures Owed(w, o) >= 0
  {
    BagSumNonNegative(w.pending, OwedBy(o));
  }

  // ---------------------------------------------------------------- what a settlement emits

  lemma {:induction false} SeqSumConcat(xs: seq<Message>, ys: seq<Message>, weight: Message -> int)
    ensures SeqSum(xs + ys, weight) == SeqSum(xs, weight) + SeqSum(ys, weight)
  {
    if ys == [] {
      assert xs + ys == xs;
    } else {
      assert (xs + ys)[..|xs + ys| - 1] == xs + ys[..|ys| - 1];
      SeqSumConcat(xs, ys[..|ys| - 1], weight);
    }
  }

  lemma EmitSum(owner: Account, to: Account, amount: nat, weight: Message -> int)
    ensures SeqSum(Judge.Emit(owner, to, amount), weight)
            == if amount > 0 then weight(Judge.Message(owner, to, amount)) else 0
  {
    if amount > 0 {
      var ms := [Judge.Message(owner, to, amount)];
      assert ms[..|ms| - 1] == [];
    }
  }

  /** The figures of a settlement. */
  datatype Figures = Figures(compensation: nat, fromDeposit: nat, fromBond: nat, back: nat)

  ghost function FiguresOf(c: Judge.Config, w: World, self: Account, claim: Judge.Claim, outcome: Outcome): Figures {
    var plan := Judge.SettlementPlan(c, w.judge, w.token, self, claim, outcome);
    Figures(plan.compensation, plan.fromProvider, plan.fromConsumer,
            Judge.BondAvailable(c, w.token, self, claim) - plan.fromConsumer)
  }

  /** Any additive measure of the emitted releases is the measure of the transfers the figures name. */
  lemma PayoutsSum(c: Judge.Config, w: World, self: Account, claim: Judge.Claim, outcome: Outcome,
                   resolver: Account, weight: Message -> int)
    requires c.hasToken && forall a, b :: weight(Judge.Message(a, b, 0)) == 0
    ensures var f := FiguresOf(c, w, self, claim, outcome);
            && (f.fromDeposit > 0 ==> Judge.OwnerOf(w.judge, claim.slug).Some? && outcome == Breach && f.fromBond == 0)
            && SeqSum(Judge.Payouts(c, w.judge, w.token, self, claim, outcome, resolver), weight)
               == weight(Judge.Message(claim.claimant, claim.claimant, f.back))
                  + (if f.fromDeposit > 0 then
                       var provider := Judge.OwnerOf(w.judge, claim.slug).value;
                       weight(Judge.Message(provider, claim.claimant, f.compensation))
                       + weight(Judge.Message(provider, resolver, f.fromDeposit - f.compensation))
                     else weight(Judge.Message(claim.claimant, resolver, f.fromBond)))
  {
    var j := w.judge;
    var plan := Judge.SettlementPlan(c, j, w.token, self, claim, outcome);
    var back := Judge.BondAvailable(c, w.token, self, claim) - plan.fromConsumer;
    var surplus := Judge.Emit(claim.claimant, claim.claimant, back);
    EmitSum(claim.claimant, claim.claimant, back, weight);
    if plan.fromProvider > 0 {
      var provider := Judge.OwnerOf(j, claim.slug).value;
      var first, second := Judge.Emit(provider, claim.claimant, plan.compensation),
          Judge.Emit(provider, resolver, plan.bounty);
      EmitSum(provider, claim.claimant, plan.compensation, weight);
      EmitSum(provider, resolver, plan.bounty, weight);
      SeqSumConcat(first, second, weight);
      SeqSumConcat(first + second, surplus, weight);
    } else {
      EmitSum(claim.claimant, resolver, plan.fromConsumer, weight);
      SeqSumConcat(Judge.Emit(claim.claimant, resolver, plan.fromConsumer), surplus, weight);
    }
  }

  // ---------------------------------------------------------------- solvency is kept by every step

  /** Under solvency the escrow clamps of `_settle` never bite: the slug's whole deposit and the whole
      bond are there to draw on. */
  lemma EscrowClampsAreInert(c: Judge.Config, self: Account, w: World, key: string)
    requires Solvent(c, self, w) && c.hasToken && key in w.judge.claims && !w.judge.claims[key].resolved
    ensures var claim := w.judge.claims[key];
            && Judge.DepositAvailable(c, w.judge, w.token, self, claim.slug) == Get(w.judge.depositAmount, claim.slug)
            && Judge.BondAvailable(c, w.token, self, claim) == claim.bond
  {
    hide Consistent;
    var claim := w.judge.claims[key];
    OpenBondWithinBonded(w.judge, key);
    OwedNonNegative(w, claim.claimant);
    assert SolventFor(c, self, w, claim.claimant);
    DepositsAreBound(w.judge);
    assert claim.slug in w.judge.depositAmount <==> claim.slug in w.judge.depositOwner;
    if claim.slug in w.judge.depositOwner {
      var provider := w.judge.depositOwner[claim.slug];
      DepositWithinCommitted(w.judge, claim.slug);
      OwedNonNegative(w, provider);
      assert SolventFor(c, self, w, provider);
    }
  }
}
