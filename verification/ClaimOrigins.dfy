/** Where what a claim says comes from: the call and the read that filed it, and the call that closed it. */
module ClaimOrigins {
  import opened Basics
  import opened Sums
  import opened ClaimRules
  import opened ClaimBookkeeping
  import opened ClaimProtocol
  import opened ClaimSolvency
  import opened ClaimLedger
  import opened ClaimHistory
  import Judge = ClaimJudge
  import Token

  /** `step`, taken in `w`, filed the claim: every field is what the call, its sender, the clock and the verdict
      read at that moment say, and that verdict was one of the slug's service, recent enough to file on. */
  ghost predicate FiledBy(c: Judge.Config, w: World, step: Step, key: string, claim: Judge.Claim) {
    && step.JudgeStep? && step.request.SubmitClaim?
    && var r := step.request;
    && IsRequestId(r.requestId) && key == Judge.KeyOf(r.requestId, r.clauseId)
    && r.arc.Read? && r.arc.verdict.serviceId == OfSlug(r.slug)
    && 0 < r.arc.verdict.writtenAt && w.clock <= r.arc.verdict.writtenAt + c.filingWindow
    && CanonicalRequestId(r.requestId) == Some(claim.requestId) && claim.clauseId == r.clauseId && claim.slug == r.slug
    && claim.claimant == step.sender
    && r.criteria == Some(claim.criteria)
    && claim.filedAt == w.clock - w.clock % 600
    && "0x" <= r.signature == claim.signature
    && claim.paidAmount == r.arc.verdict.paidAmount
    && claim.bond == c.bondAmount
  }

  /** `step`, taken in `w`, decided the claim: a judgement, whose outcome and reasoning it carries, or its own
      claimant's cancellation, a day or more after it was filed. */
  ghost predicate ClosedBy(w: World, step: Step, key: string, claim: Judge.Claim) {
    && step.JudgeStep? && claim.resolved
    && var r := step.request;
    && (r.ResolveClaim? || r.CancelClaim?)
    && IsRequestId(r.requestId) && key == Judge.KeyOf(r.requestId, r.clauseId)
    && (r.ResolveClaim? ==>
          r.judgment == Judge.Judged(claim.outcome, claim.reasoning) && claim.outcome in {Breach, Met, Undetermined})
    && (r.CancelClaim? ==>
          && claim.outcome == Cancelled && claim.reasoning == "Cancelled by the claimant"
          && step.sender == claim.claimant
          && w.clock - w.clock % 600 >= claim.filedAt + 86_400)
  }

  lemma FilingTells(c: Judge.Config, self: Account, w: World, sender: Account, request: Judge.Call, key: string)
    requires ReadsClock(request, w.clock) && request.SubmitClaim?
    requires Judge.Apply(c, w.judge, w.token, self, sender, request).Done?
    ensures var claims := Next(c, self, w, JudgeStep(sender, request)).judge.claims;
            && (key in w.judge.claims ==> key in claims && claims[key] == w.judge.claims[key])
            && (key in claims && key !in w.judge.claims ==>
                  !claims[key].resolved && FiledBy(c, w, JudgeStep(sender, request), key, claims[key]))
  {
    hide EventOf, ClaimKey, Judge.Escrowed;
  }

  lemma CancelTells(c: Judge.Config, self: Account, w: World, sender: Account, request: Judge.Call)
    requires ReadsClock(request, w.clock) && request.CancelClaim?
    requires Judge.Apply(c, w.judge, w.token, self, sender, request).Done?
    ensures IsRequestId(request.requestId)
    ensures var key := Judge.KeyOf(request.requestId, request.clauseId);
            && key in w.judge.claims && sender == w.judge.claims[key].claimant
            && w.clock - w.clock % 600 >= w.judge.claims[key].filedAt + 86_400
  {
    hide Judge.Settle, ClaimKey;
  }

  lemma ClosingTells(c: Judge.Config, self: Account, w: World, sender: Account, request: Judge.Call, key: string)
    requires Consistent(w.judge) && ReadsClock(request, w.clock) && (request.ResolveClaim? || request.CancelClaim?)
    requires Judge.Apply(c, w.judge, w.token, self, sender, request).Done?
    ensures var claims := Next(c, self, w, JudgeStep(sender, request)).judge.claims;
            && (key in claims <==> key in w.judge.claims)
            && (key in claims && claims[key] != w.judge.claims[key] ==>
                  && !w.judge.claims[key].resolved && SameFiling(w.judge.claims[key], claims[key])
                  && ClosedBy(w, JudgeStep(sender, request), key, claims[key]))
  {
    hide EventOf, Judge.Settle, Judge.Apply, Consistent, ClaimKey;
    if request.CancelClaim? { CancelTells(c, self, w, sender, request); }
    var closed, outcome, reasoning := ClosingSettles(c, w.judge, w.token, self, sender, request);
    SettleCloses(c, w.judge, w.token, self, closed, outcome, reasoning, sender);
  }

  /** What one step does to one claim: nothing, or it files it, or it decides it. */
  lemma StepTells(c: Judge.Config, self: Account, w: World, step: Step, key: string)
    requires Consistent(w.judge) && Possible(self, w, step) && key in Next(c, self, w, step).judge.claims
    ensures var claim := Next(c, self, w, step).judge.claims[key];
            || (key !in w.judge.claims && !claim.resolved && FiledBy(c, w, step, key, claim))
            || (key in w.judge.claims
                && var before := w.judge.claims[key];
                   || claim == before
                   || (!before.resolved && SameFiling(before, claim) && ClosedBy(w, step, key, claim)))
  {
    hide Judge.Apply, FiledBy, ClosedBy, Consistent, SameFiling, EventOf;
    if step.JudgeStep? && Judge.Apply(c, w.judge, w.token, self, step.sender, step.request).Done? {
      var request := step.request;
      if request.SubmitClaim? {
        FilingTells(c, self, w, step.sender, request, key);
      } else if request.ResolveClaim? || request.CancelClaim? {
        ClosingTells(c, self, w, step.sender, request, key);
      } else {
        OthersTellNothing(c, self, w, step.sender, request);
      }
    }
  }

  lemma OthersTellNothing(c: Judge.Config, self: Account, w: World, sender: Account, request: Judge.Call)
    requires !request.SubmitClaim? && !request.ResolveClaim? && !request.CancelClaim?
    ensures Next(c, self, w, JudgeStep(sender, request)).judge.claims == w.judge.claims
  {
    hide EventOf;
  }

  lemma StepAppends(c: Judge.Config, self: Account, w: World, step: Step)
    ensures w.judge.claimKeys <= Next(c, self, w, step).judge.claimKeys
  {
    hide EventOf, Judge.Apply;
    if step.JudgeStep? { CallAppends(c, w.judge, w.token, self, step.sender, step.request); }
  }

  lemma CallAppends(c: Judge.Config, j: Judge.State, token: Token.State, self: Account, sender: Account,
                    call: Judge.Call)
    ensures var reply := Judge.Apply(c, j, token, self, sender, call);
            reply.Done? ==> j.claimKeys <= reply.state.claimKeys
  {
    hide ClaimKey, CheckEligibility, Judge.Settle, Judge.OpenRefusal, CanonicalRequestId, AvailableEscrow;
    hide WithdrawalRefusal, Judge.KeyOf;
    match call {
      case ResolveClaim(_, _, _) => ClosingAppendsNothing(c, j, token, self, sender, call);
      case CancelClaim(_, _, _) => ClosingAppendsNothing(c, j, token, self, sender, call);
      case _ =>
    }
  }

  lemma ClosingAppendsNothing(c: Judge.Config, j: Judge.State, token: Token.State, self: Account, sender: Account,
                              call: Judge.Call)
    requires call.ResolveClaim? || call.CancelClaim?
    ensures var reply := Judge.Apply(c, j, token, self, sender, call);
            reply.Done? ==> reply.state.claimKeys == j.claimKeys
  {
    hide ClaimKey, Judge.Payouts, Judge.Decided, Judge.Drawn, CanonicalRequestId;
  }

  /** The list of claims only ever grows at its end: it is in the order of filing. */
  lemma {:induction false} ClaimsAreListedInOrder(c: Judge.Config, self: Account, start: nat, steps: seq<Step>, n: nat)
    requires n <= |steps|
    ensures Exec(c, self, start, steps[..n]).judge.claimKeys <= Exec(c, self, start, steps).judge.claimKeys
  {
    hide Next;
    if n == |steps| {
      assert steps[..n] == steps;
    } else {
      var init := steps[..|steps| - 1];
      assert init[..n] == steps[..n];
      ClaimsAreListedInOrder(c, self, start, init, n);
      StepAppends(c, self, Exec(c, self, start, init), steps[|steps| - 1]);
    }
  }

  lemma StillFiledBy(c: Judge.Config, w: World, step: Step, key: string, before: Judge.Claim, claim: Judge.Claim)
    requires FiledBy(c, w, step, key, before) && SameFiling(before, claim)
    ensures FiledBy(c, w, step, key, claim)
  {
  }

  lemma ResolvedIsNotOpen(j: Judge.State, key: string)
    requires Consistent(j) && key in j.claims
    ensures j.claims[key].resolved <==> j.claims[key].outcome != Open
  {
    assert WellFiled(j, key);
  }

  /** The step taken in `w` turned an open claim into `claim`. */
  ghost predicate DecidedAt(c: Judge.Config, self: Account, w: World, step: Step, key: string, claim: Judge.Claim) {
    && key in w.judge.claims && !w.judge.claims[key].resolved && SameFiling(w.judge.claims[key], claim)
    && key in Next(c, self, w, step).judge.claims && Next(c, self, w, step).judge.claims[key] == claim
  }

  /** In every run: every claim on file was filed by one earlier call, and says what that call and its read of the
      record said; once decided, one later call decided it, and it says what that call said. */
  lemma {:induction false} ClaimsTellTheirCalls(c: Judge.Config, self: Account, start: nat, steps: seq<Step>,
                                                key: string)
    returns (i: nat, k: nat)
    requires Legal(c, self, start, steps) && key in Exec(c, self, start, steps).judge.claims
    ensures var claim := Exec(c, self, start, steps).judge.claims[key];
            && i < |steps| && FiledBy(c, Exec(c, self, start, steps[..i]), steps[i], key, claim)
            && (claim.resolved ==>
                  && i < k < |steps| && ClosedBy(Exec(c, self, start, steps[..k]), steps[k], key, claim)
                  && DecidedAt(c, self, Exec(c, self, start, steps[..k]), steps[k], key, claim))
            && (claim.resolved <==> claim.outcome != Open)
  {
    hide Next, Possible, FiledBy, ClosedBy, Consistent, SameFiling, RecordAgrees, Grounded, Chronological;
    var init, last := steps[..|steps| - 1], steps[|steps| - 1];
    var w, w' := Exec(c, self, start, init), Exec(c, self, start, steps);
    assert w' == Next(c, self, w, last);
    assert forall n :: 0 <= n <= |init| ==> init[..n] == steps[..n];
    RunsAreRecorded(c, self, start, init);
    RunsAreRecorded(c, self, start, steps);
    ResolvedIsNotOpen(w'.judge, key);
    StepTells(c, self, w, last, key);
    if key in w.judge.claims {
      i, k := ClaimsTellTheirCalls(c, self, start, init, key);
      if w'.judge.claims[key] != w.judge.claims[key] {
        k := |init|;
        assert DecidedAt(c, self, w, last, key, w'.judge.claims[key]);
        StillFiledBy(c, Exec(c, self, start, steps[..i]), steps[i], key, w.judge.claims[key], w'.judge.claims[key]);
      }
    } else {
      i, k := |init|, 0;
    }
  }

  // ---------------------------------------------------------------- and what it was paid

  lemma StepPays(c: Judge.Config, self: Account, w: World, step: Step, key: string)
    requires Solvent(c, self, w) && c.hasToken && key in w.judge.claims
    requires key in Next(c, self, w, step).judge.claims
    requires Next(c, self, w, step).judge.claims[key] != w.judge.claims[key]
    ensures var (before, claim) := (w.judge.claims[key], Next(c, self, w, step).judge.claims[key]);
            var deposit := Get(w.judge.depositAmount, before.slug);
            && !before.resolved && claim.resolved && SameFiling(before, claim)
            && claim.compensation == CompensationOf(before, deposit, claim.outcome)
            && claim.bounty == BountyOf(c, before, deposit, claim.outcome)
  {
    hide Judge.Apply, Judge.Settle, Consistent, Token.Sound, SolventFor, EventOf, CompensationOf, BountyOf;
    assert step.JudgeStep? && Judge.Apply(c, w.judge, w.token, self, step.sender, step.request).Done?;
    var request := step.request;
    if request.ResolveClaim? || request.CancelClaim? {
      var closed, outcome, reasoning := ClosingSettles(c, w.judge, w.token, self, step.sender, request);
      SettleCloses(c, w.judge, w.token, self, closed, outcome, reasoning, step.sender);
      ClosedOnRecord(c, self, w, closed, outcome, reasoning, step.sender);
    } else {
      OnlyClosingDecides(c, self, w, step.sender, request, key);
    }
  }

  lemma OnlyClosingDecides(c: Judge.Config, self: Account, w: World, sender: Account, request: Judge.Call, key: string)
    requires !request.ResolveClaim? && !request.CancelClaim? && key in w.judge.claims
    ensures key in Next(c, self, w, JudgeStep(sender, request)).judge.claims
    ensures Next(c, self, w, JudgeStep(sender, request)).judge.claims[key] == w.judge.claims[key]
  {
    hide EventOf, ClaimKey, CheckEligibility;
  }

  /** In every careful run: what a decided claim paid was the amount on record for the call it was filed on, as
      far as the deposit behind the slug went when it was decided, and only for BREACH; and the resolver's bounty
      came out of what was left, or on MET out of the bond. */
  lemma {:induction false} ClaimsArePaid(c: Judge.Config, self: Account, start: nat, steps: seq<Step>, key: string)
    returns (i: nat, k: nat)
    requires CarefulRun(c, self, start, steps) && c.hasToken && key in Exec(c, self, start, steps).judge.claims
    requires Exec(c, self, start, steps).judge.claims[key].resolved
    ensures var claim := Exec(c, self, start, steps).judge.claims[key];
            && i < k < |steps| && FiledBy(c, Exec(c, self, start, steps[..i]), steps[i], key, claim)
            && ClosedBy(Exec(c, self, start, steps[..k]), steps[k], key, claim)
            && var deposit := Get(Exec(c, self, start, steps[..k]).judge.depositAmount, claim.slug);
               var paidForTheCall := steps[i].request.arc.verdict.paidAmount;
               && claim.compensation == (if claim.outcome == Breach then Min(paidForTheCall, deposit) else 0)
               && claim.bounty == (if claim.outcome == Breach then Min(c.bountyAmount, deposit - claim.compensation)
                                   else if claim.outcome == Met then Min(c.bountyAmount, c.bondAmount) else 0)
  {
    hide FiledBy, ClosedBy, Solvent, Next, Exec, Legal, CarefulRun, SameFiling;
    CarefulIsLegal(c, self, start, steps);
    i, k := ClaimsTellTheirCalls(c, self, start, steps, key);
    CarefulPrefix(c, self, start, steps, k);
    CarefulRunsAreSolvent(c, self, start, steps[..k]);
    StepPays(c, self, Exec(c, self, start, steps[..k]), steps[k], key);
    FiguresFollow(c, Exec(c, self, start, steps[..i]), steps[i], key,
                  Exec(c, self, start, steps[..k]).judge.claims[key], Exec(c, self, start, steps).judge.claims[key]);
  }

  lemma FiguresFollow(c: Judge.Config, w: World, step: Step, key: string, before: Judge.Claim, claim: Judge.Claim)
    requires SameFiling(before, claim) && FiledBy(c, w, step, key, claim)
    ensures before.paidAmount == step.request.arc.verdict.paidAmount && before.bond == c.bondAmount
    ensures before.slug == claim.slug
  {
  }

  lemma {:induction false} CarefulIsLegal(c: Judge.Config, self: Account, start: nat, steps: seq<Step>)
    requires CarefulRun(c, self, start, steps)
    ensures Legal(c, self, start, steps)
  {
    hide Next, Possible, Careful;
    if steps != [] { CarefulIsLegal(c, self, start, steps[..|steps| - 1]); }
  }

  lemma {:induction false} CarefulPrefix(c: Judge.Config, self: Account, start: nat, steps: seq<Step>, k: nat)
    requires CarefulRun(c, self, start, steps) && k <= |steps|
    ensures CarefulRun(c, self, start, steps[..k])
  {
    hide Next, Possible, Careful;
    if k == |steps| {
      assert steps[..k] == steps;
    } else {
      CarefulPrefix(c, self, start, steps[..|steps| - 1], k);
      assert steps[..|steps| - 1][..k] == steps[..k];
    }
  }
}
