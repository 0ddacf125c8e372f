/** Exactly when each call of the judge goes through, and which of several obstacles it names, in terms of what
    is on file and on record rather than of the words the contract keeps. */
module ClaimAnswers {
  import opened Basics
  import opened Sums
  import opened ClaimRules
  import opened ClaimBookkeeping
  import opened ClaimProtocol
  import opened ClaimDeposits
  import opened ClaimHistory
  import Judge = ClaimJudge
  import Token

  /** A fact that stands in the way of a call, and the refusal it is reported as. */
  datatype Obstacle = Obstacle(stands: bool, why: Refusal)

  /** The call goes through exactly when none stands, and names the first one that does. */
  ghost predicate Tells(reply: Judge.Reply, os: seq<Obstacle>) {
    && (reply.Done? <==> forall i :: 0 <= i < |os| ==> !os[i].stands)
    && forall i :: 0 <= i < |os| && os[i].stands && (forall k :: 0 <= k < i ==> !os[k].stands) ==>
         reply == Judge.Refused(os[i].why)
  }

  lemma TellsNone(reply: Judge.Reply)
    ensures Tells(reply, []) <==> reply.Done?
  {
  }

  lemma TellsOr(reply: Judge.Reply, o: Obstacle, os: seq<Obstacle>)
    ensures Tells(reply, [o] + os) <==> if o.stands then reply == Judge.Refused(o.why) else Tells(reply, os)
  {
    var all := [o] + os;
    assert all[0] == o && forall i :: 0 <= i < |os| ==> all[i + 1] == os[i];
    if o.stands {
      assert !(forall i :: 0 <= i < |all| ==> !all[i].stands);
    } else {
      assert forall i :: 1 <= i < |all| ==> all[i] == os[i - 1];
      if Tells(reply, os) {
        forall i | 0 <= i < |all| && all[i].stands && forall k :: 0 <= k < i ==> !all[k].stands
          ensures reply == Judge.Refused(all[i].why)
        {
          assert forall k :: 0 <= k < i - 1 ==> os[k] == all[k + 1];
          assert os[i - 1].stands;
        }
      }
      if Tells(reply, all) {
        forall i | 0 <= i < |os| && os[i].stands && forall k :: 0 <= k < i ==> !os[k].stands
          ensures reply == Judge.Refused(os[i].why)
        {
          assert forall k :: 1 <= k < i + 1 ==> all[k] == os[k - 1];
          assert all[i + 1].stands;
        }
      }
    }
  }

  lemma TellsTwo(reply: Judge.Reply, a: Obstacle, b: Obstacle)
    ensures Tells(reply, [a, b]) <==>
              if a.stands then reply == Judge.Refused(a.why)
              else if b.stands then reply == Judge.Refused(b.why)
              else reply.Done?
  {
    hide Tells;
    TellsNone(reply);
    assert [b] + [] == [b] && [a] + [b] == [a, b];
    TellsOr(reply, b, []);
    TellsOr(reply, a, [b]);
  }

  lemma TellsFour(reply: Judge.Reply, a: Obstacle, b: Obstacle, c: Obstacle, d: Obstacle)
    ensures Tells(reply, [a, b, c, d]) <==>
              if a.stands then reply == Judge.Refused(a.why)
              else if b.stands then reply == Judge.Refused(b.why)
              else if c.stands then reply == Judge.Refused(c.why)
              else if d.stands then reply == Judge.Refused(d.why)
              else reply.Done?
  {
    hide Tells;
    TellsTwo(reply, c, d);
    assert [b] + [c, d] == [b, c, d] && [a] + [b, c, d] == [a, b, c, d];
    TellsOr(reply, b, [c, d]);
    TellsOr(reply, a, [b, c, d]);
  }

  lemma TellsSix(reply: Judge.Reply, a: Obstacle, b: Obstacle, c: Obstacle, d: Obstacle, e: Obstacle, f: Obstacle)
    ensures Tells(reply, [a, b, c, d, e, f]) <==>
              if a.stands then reply == Judge.Refused(a.why)
              else if b.stands then reply == Judge.Refused(b.why)
              else Tells(reply, [c, d, e, f])
  {
    hide Tells;
    assert [b] + [c, d, e, f] == [b, c, d, e, f] && [a] + [b, c, d, e, f] == [a, b, c, d, e, f];
    TellsOr(reply, b, [c, d, e, f]);
    TellsOr(reply, a, [b, c, d, e, f]);
  }

  // ---------------------------------------------------------------- what is on file and on record

  ghost predicate OpenOnFile(j: Judge.State, slug: string) {
    exists k <- j.claims :: j.claims[k].slug == slug && !j.claims[k].resolved
  }

  /** The claim on file about this clause of this call, however the request id is spelled. */
  ghost predicate About(claim: Judge.Claim, requestId: string, clauseId: string) {
    SpelledAlike(claim.requestId, requestId) && claim.clauseId == clauseId
  }

  ghost predicate OnFile(j: Judge.State, requestId: string, clauseId: string) {
    exists k <- j.claims :: About(j.claims[k], requestId, clauseId)
  }

  ghost function Held(c: Judge.Config, self: Account, w: World, a: Account): nat {
    if c.hasToken then Token.EscrowOf(w.token, a, self) else 0
  }

  /** What `a` has behind other slugs. */
  ghost function Elsewhere(j: Judge.State, a: Account, slug: string): nat { Sum(Deposits(j, a) - {slug}) }

  /** A request that a withdrawal can be made on: one made before the clock's second bucket counts as none. */
  ghost predicate RequestCounts(w: World, slug: string) {
    StandingRequest(w.log, slug).Some? && StandingRequest(w.log, slug).value >= 600
  }

  lemma OnFileIs(j: Judge.State, requestId: string, clauseId: string)
    requires Consistent(j) && IsRequestId(requestId)
    ensures Judge.KeyOf(requestId, clauseId) in j.claims <==> OnFile(j, requestId, clauseId)
    ensures forall k <- j.claims :: About(j.claims[k], requestId, clauseId) <==> k == Judge.KeyOf(requestId, clauseId)
  {
    var key := Judge.KeyOf(requestId, clauseId);
    CanonicalIsStable(requestId);
    forall k <- j.claims ensures About(j.claims[k], requestId, clauseId) <==> k == key {
      AboutIs(j, k, requestId, clauseId);
    }
  }

  lemma AboutIs(j: Judge.State, k: string, requestId: string, clauseId: string)
    requires Consistent(j) && IsRequestId(requestId) && k in j.claims
    ensures About(j.claims[k], requestId, clauseId) <==> k == Judge.KeyOf(requestId, clauseId)
  {
    var claim := j.claims[k];
    assert WellFiled(j, k);
    CanonicalIsStable(requestId);
    hide Consistent, ClaimKey, SpelledAlike;
    CanonicalIgnoresCase(claim.requestId, requestId);
    if k == Judge.KeyOf(requestId, clauseId) {
      ClaimKeyInjective(claim.requestId, claim.clauseId, CanonicalRequestId(requestId).value, clauseId);
    }
  }

  // ---------------------------------------------------------------- deposits

  /** `fund_deposit`: what it allots is all the sender holds that is behind no other slug and no open claim. */
  lemma FundAnswers(c: Judge.Config, self: Account, w: World, a: Account, slug: string)
    requires Recorded(c, w) && Backed(w.judge, a)
    ensures var owner, j := Judge.OwnerOf(w.judge, slug), w.judge;
            var free := Held(c, self, w, a) - Elsewhere(j, a, slug) - OpenBonds(j, a);
            var reply := Judge.Apply(c, j, w.token, self, a, Judge.FundDeposit(slug));
            && Tells(reply,
                 [Obstacle(owner.Some? && owner.value != a && (Get(j.depositAmount, slug) > 0 || OpenOnFile(j, slug)),
                           BackedByAnother),
                  Obstacle(free <= 0, NotEscrowed)])
            && (reply.Done? ==>
                  && reply.emitted == []
                  && Judge.OwnerOf(reply.state, slug) == Some(a) && Get(reply.state.depositAmount, slug) == free
                  && forall other :: other != slug ==>
                       && Judge.OwnerOf(reply.state, other) == Judge.OwnerOf(j, other)
                       && Get(reply.state.depositAmount, other) == Get(j.depositAmount, other))
  {
    var j, owner := w.judge, Judge.OwnerOf(w.judge, slug);
    NoOpenClaims(j, slug);
    assert BondsAgree(j, a);
    DepositsAreBound(j);
    SumWithout(Deposits(j, a), slug);
    hide Consistent, Recorded, OpenBonds, Sum, Tells;
    TellsTwo(Judge.Apply(c, j, w.token, self, a, Judge.FundDeposit(slug)),
      Obstacle(owner.Some? && owner.value != a && (Get(j.depositAmount, slug) > 0 || OpenOnFile(j, slug)),
               BackedByAnother),
      Obstacle(Held(c, self, w, a) - Elsewhere(j, a, slug) - OpenBonds(j, a) <= 0, NotEscrowed));
  }

  /** `_require_depositor` */
  ghost function NotTheirs(j: Judge.State, a: Account, slug: string): Obstacle {
    Obstacle(Judge.OwnerOf(j, slug).Some? && Judge.OwnerOf(j, slug).value != a, NotDepositor)
  }

  ghost function NoOwner(j: Judge.State, slug: string): Obstacle {
    Obstacle(Judge.OwnerOf(j, slug).None?, NoDepositOwner)
  }

  /** `request_withdrawal` */
  lemma RequestAnswers(c: Judge.Config, self: Account, w: World, a: Account, slug: string, clock: Option<nat>)
    ensures Tells(Judge.Apply(c, w.judge, w.token, self, a, Judge.RequestWithdrawal(slug, clock)),
              [NoOwner(w.judge, slug), NotTheirs(w.judge, a, slug),
               Obstacle(Get(w.judge.depositAmount, slug) == 0, NothingToWithdraw),
               Obstacle(clock.None?, ReadFailed)])
  {
    hide Tells;
    TellsFour(Judge.Apply(c, w.judge, w.token, self, a, Judge.RequestWithdrawal(slug, clock)),
      NoOwner(w.judge, slug), NotTheirs(w.judge, a, slug),
      Obstacle(Get(w.judge.depositAmount, slug) == 0, NothingToWithdraw), Obstacle(clock.None?, ReadFailed));
  }

  lemma WordCounts(c: Judge.Config, w: World, slug: string)
    requires Recorded(c, w)
    ensures Get(w.judge.withdrawalRequestedAt, slug) != 0 <==> RequestCounts(w, slug)
    ensures RequestCounts(w, slug) ==>
      var at := StandingRequest(w.log, slug).value; Get(w.judge.withdrawalRequestedAt, slug) == at - at % 600
  {
    assert RecordAgrees(w, slug);
    hide StandingRequest, Consistent, OpenFilings;
  }

  /** `cancel_withdrawal`: a depositor's request can be stood down exactly while one stands that counts. */
  lemma StandDownAnswers(c: Judge.Config, self: Account, w: World, a: Account, slug: string)
    requires Recorded(c, w)
    ensures Tells(Judge.Apply(c, w.judge, w.token, self, a, Judge.CancelWithdrawal(slug)),
              [NoOwner(w.judge, slug), NotTheirs(w.judge, a, slug),
               Obstacle(!RequestCounts(w, slug), NoWithdrawalPending)])
  {
    hide Tells, Recorded, RequestCounts;
    WordCounts(c, w, slug);
    var pending := Obstacle(!RequestCounts(w, slug), NoWithdrawalPending);
    var reply := Judge.Apply(c, w.judge, w.token, self, a, Judge.CancelWithdrawal(slug));
    TellsTwo(reply, NotTheirs(w.judge, a, slug), pending);
    assert [NoOwner(w.judge, slug)] + [NotTheirs(w.judge, a, slug), pending]
        == [NoOwner(w.judge, slug), NotTheirs(w.judge, a, slug), pending];
    TellsOr(reply, NoOwner(w.judge, slug), [NotTheirs(w.judge, a, slug), pending]);
  }

  /** The cooldown, counted from the rounded request time, is up at `now`. */
  ghost predicate CooldownUp(c: Judge.Config, w: World, slug: string, now: nat) {
    RequestCounts(w, slug) &&
    var at := StandingRequest(w.log, slug).value; now >= at - at % 600 + c.cooldown
  }

  /** `withdraw_deposit`: it pays out the slug's deposit, to its depositor, and nothing else. */
  lemma WithdrawAnswers(c: Judge.Config, self: Account, w: World, a: Account, slug: string, clock: Option<nat>)
    requires Recorded(c, w)
    ensures var reply := Judge.Apply(c, w.judge, w.token, self, a, Judge.WithdrawDeposit(slug, clock));
            && Tells(reply,
                 [NoOwner(w.judge, slug), NotTheirs(w.judge, a, slug),
                  Obstacle(RequestCounts(w, slug) && clock.None?, ReadFailed),
                  Obstacle(OpenOnFile(w.judge, slug), ClaimsOpen),
                  Obstacle(!RequestCounts(w, slug), NotRequested),
                  Obstacle(clock.Some? && !CooldownUp(c, w, slug, clock.value), CooldownRunning)])
            && (reply.Done? ==>
                  var amount := Get(w.judge.depositAmount, slug);
                  && reply.emitted == (if amount > 0 then [Judge.Message(a, a, amount)] else [])
                  && Get(reply.state.depositAmount, slug) == 0)
  {
    hide Tells, Recorded, RequestCounts, Consistent;
    WordCounts(c, w, slug);
    assert Consistent(w.judge) by { ConsistentOnRecord(c, w); }
    NoOpenClaims(w.judge, slug);
    var reply := Judge.Apply(c, w.judge, w.token, self, a, Judge.WithdrawDeposit(slug, clock));
    var d, e := Obstacle(RequestCounts(w, slug) && clock.None?, ReadFailed),
                Obstacle(OpenOnFile(w.judge, slug), ClaimsOpen);
    var f, g := Obstacle(!RequestCounts(w, slug), NotRequested),
                Obstacle(clock.Some? && !CooldownUp(c, w, slug, clock.value), CooldownRunning);
    TellsSix(reply, NoOwner(w.judge, slug), NotTheirs(w.judge, a, slug), d, e, f, g);
    TellsFour(reply, d, e, f, g);
  }

  lemma ConsistentOnRecord(c: Judge.Config, w: World)
    requires Recorded(c, w)
    ensures Consistent(w.judge)
  {
  }

  // ---------------------------------------------------------------- claims

  ghost predicate Decided(j: Judge.State, requestId: string, clauseId: string) {
    exists k <- j.claims :: About(j.claims[k], requestId, clauseId) && j.claims[k].resolved
  }

  ghost predicate FiledByAnother(j: Judge.State, a: Account, requestId: string, clauseId: string) {
    exists k <- j.claims :: About(j.claims[k], requestId, clauseId) && j.claims[k].claimant != a
  }

  /** A day has not passed on the agreed clock since the claim was filed. */
  ghost predicate FiledWithinTheDay(j: Judge.State, requestId: string, clauseId: string, now: nat) {
    exists k <- j.claims :: About(j.claims[k], requestId, clauseId) && now - now % 600 < j.claims[k].filedAt + 86_400
  }

  /** What `OnFile` and its like come to for the one claim there can be. */
  lemma TheClaim(j: Judge.State, requestId: string, clauseId: string)
    requires Consistent(j) && IsRequestId(requestId)
    ensures var key := Judge.KeyOf(requestId, clauseId);
            && (OnFile(j, requestId, clauseId) <==> key in j.claims)
            && (Decided(j, requestId, clauseId) <==> key in j.claims && j.claims[key].resolved)
            && (forall a :: FiledByAnother(j, a, requestId, clauseId)
                            <==> key in j.claims && j.claims[key].claimant != a)
            && (forall now: nat :: FiledWithinTheDay(j, requestId, clauseId, now)
                              <==> key in j.claims && now - now % 600 < j.claims[key].filedAt + 86_400)
  {
    hide Consistent, About, ClaimKey;
    OnFileIs(j, requestId, clauseId);
  }

  /** `resolve_claim` */
  lemma ResolveAnswers(c: Judge.Config, self: Account, w: World, a: Account, requestId: string, clauseId: string,
                       judgment: Judge.Judgment)
    requires Recorded(c, w)
    ensures Tells(Judge.Apply(c, w.judge, w.token, self, a, Judge.ResolveClaim(requestId, clauseId, judgment)),
              [Obstacle(!IsRequestId(requestId), BadRequestId),
               Obstacle(!OnFile(w.judge, requestId, clauseId), NoSuchClaim),
               Obstacle(Decided(w.judge, requestId, clauseId), AlreadyResolved),
               Obstacle(!(judgment.Judged? && judgment.outcome in {Breach, Met, Undetermined}), JudgmentAborted)])
  {
    hide Tells, Recorded, Consistent, OnFile, Decided, ClaimKey, Judge.Settle;
    ConsistentOnRecord(c, w);
    if IsRequestId(requestId) { TheClaim(w.judge, requestId, clauseId); }
    TellsFour(Judge.Apply(c, w.judge, w.token, self, a, Judge.ResolveClaim(requestId, clauseId, judgment)),
      Obstacle(!IsRequestId(requestId), BadRequestId), Obstacle(!OnFile(w.judge, requestId, clauseId), NoSuchClaim),
      Obstacle(Decided(w.judge, requestId, clauseId), AlreadyResolved),
      Obstacle(!(judgment.Judged? && judgment.outcome in {Breach, Met, Undetermined}), JudgmentAborted));
  }

  /** `cancel_claim`: open to the claimant alone, from a day after the filing on. */
  lemma CancelAnswers(c: Judge.Config, self: Account, w: World, a: Account, requestId: string, clauseId: string,
                      arc: Judge.ArcRead)
    requires Recorded(c, w)
    ensures Tells(Judge.Apply(c, w.judge, w.token, self, a, Judge.CancelClaim(requestId, clauseId, arc)),
              [Obstacle(!IsRequestId(requestId), BadRequestId),
               Obstacle(!OnFile(w.judge, requestId, clauseId), NoSuchClaim),
               Obstacle(Decided(w.judge, requestId, clauseId), AlreadyResolved),
               Obstacle(FiledByAnother(w.judge, a, requestId, clauseId), NotClaimant),
               Obstacle(arc.ReadError?, ReadFailed),
               Obstacle(arc.Read? && FiledWithinTheDay(w.judge, requestId, clauseId, arc.now), WindowNotLapsed)])
  {
    hide Tells, Recorded, Consistent, OnFile, Decided, FiledByAnother, FiledWithinTheDay, ClaimKey, Judge.Settle;
    ConsistentOnRecord(c, w);
    if IsRequestId(requestId) { TheClaim(w.judge, requestId, clauseId); }
    var reply := Judge.Apply(c, w.judge, w.token, self, a, Judge.CancelClaim(requestId, clauseId, arc));
    var d, e := Obstacle(Decided(w.judge, requestId, clauseId), AlreadyResolved),
                Obstacle(FiledByAnother(w.judge, a, requestId, clauseId), NotClaimant);
    var f, g := Obstacle(arc.ReadError?, ReadFailed),
                Obstacle(arc.Read? && FiledWithinTheDay(w.judge, requestId, clauseId, arc.now), WindowNotLapsed);
    TellsSix(reply, Obstacle(!IsRequestId(requestId), BadRequestId),
             Obstacle(!OnFile(w.judge, requestId, clauseId), NoSuchClaim), d, e, f, g);
    TellsFour(reply, d, e, f, g);
  }

  /** In every run: a claim still open can be cancelled by its own claimant and nobody else, and by it exactly from
      a day after the filing on, whatever verdict is read along with the clock. */
  lemma OpenClaimsCanBeCancelled(c: Judge.Config, self: Account, start: nat, steps: seq<Step>, key: string,
                                 a: Account, v: Verdict)
    requires Legal(c, self, start, steps) && key in Exec(c, self, start, steps).judge.claims
    requires !Exec(c, self, start, steps).judge.claims[key].resolved
    ensures var w := Exec(c, self, start, steps);
            var claim := w.judge.claims[key];
            var call := Judge.CancelClaim(claim.requestId, claim.clauseId, Judge.Read(v, w.clock));
            Judge.Apply(c, w.judge, w.token, self, a, call).Done?
            <==> a == claim.claimant && w.clock - w.clock % 600 >= claim.filedAt + 86_400
  {
    RunsAreRecorded(c, self, start, steps);
    var w := Exec(c, self, start, steps);
    ConsistentOnRecord(c, w);
    KeyOnFile(w.judge, key);
    hide Exec, Legal, Recorded, Consistent, ClaimKey, Judge.Settle, CanonicalRequestId, IsRequestId, Judge.KeyOf;
  }

  lemma KeyOnFile(j: Judge.State, key: string)
    requires Consistent(j) && key in j.claims
    ensures IsRequestId(j.claims[key].requestId)
    ensures CanonicalRequestId(j.claims[key].requestId) == Some(j.claims[key].requestId)
    ensures Judge.KeyOf(j.claims[key].requestId, j.claims[key].clauseId) == key
    ensures ClaimKey(j.claims[key].requestId, j.claims[key].clauseId) == key
  {
    assert WellFiled(j, key);
  }

  /** What stands in the way of a filing, before Arc is read. */
  ghost function FilingObstacles(c: Judge.Config, self: Account, w: World, a: Account, requestId: string,
                                 clauseId: string, signature: string): seq<Obstacle>
    requires Consistent(w.judge)
  {
    [Obstacle(!("0x" <= signature), BadSignature),
     Obstacle(!IsRequestId(requestId), BadRequestId),
     Obstacle(OnFile(w.judge, requestId, clauseId), ClaimExists),
     Obstacle(c.bondAmount > 0
              && Held(c, self, w, a) - Sum(Deposits(w.judge, a)) - OpenBonds(w.judge, a) < c.bondAmount, BondShort)]
  }

  /** And after. */
  ghost function ReadObstacles(c: Judge.Config, slug: string, arc: Judge.ArcRead, criteria: Option<string>)
    : seq<Obstacle>
  {
    [Obstacle(arc.ReadError?, ReadFailed),
     Obstacle(arc.Read? && arc.verdict.writtenAt == 0, NoVerdict),
     Obstacle(arc.Read? && arc.verdict.serviceId != OfSlug(slug), WrongService),
     Obstacle(arc.Read? && arc.now > arc.verdict.writtenAt + c.filingWindow, FilingClosed),
     Obstacle(criteria.None?, NoCriteria)]
  }

  lemma ReadsInOrder(reply: Judge.Reply, c: Judge.Config, slug: string, arc: Judge.ArcRead, criteria: Option<string>)
    ensures Tells(reply, ReadObstacles(c, slug, arc, criteria)) <==>
              if arc.ReadError? then reply == Judge.Refused(ReadFailed)
              else if CheckEligibility(arc.verdict, slug, arc.now, c.filingWindow).Some?
              then reply == Judge.Refused(CheckEligibility(arc.verdict, slug, arc.now, c.filingWindow).value)
              else if criteria.None? then reply == Judge.Refused(NoCriteria)
              else reply.Done?
  {
    hide Tells;
    var os := ReadObstacles(c, slug, arc, criteria);
    assert os == [os[0]] + [os[1], os[2], os[3], os[4]];
    TellsOr(reply, os[0], [os[1], os[2], os[3], os[4]]);
    TellsFour(reply, os[1], os[2], os[3], os[4]);
  }

  lemma FilesInOrder(reply: Judge.Reply, os: seq<Obstacle>, rest: seq<Obstacle>)
    requires |os| == 4
    ensures Tells(reply, os + rest) <==>
              if os[0].stands then reply == Judge.Refused(os[0].why)
              else if os[1].stands then reply == Judge.Refused(os[1].why)
              else if os[2].stands then reply == Judge.Refused(os[2].why)
              else if os[3].stands then reply == Judge.Refused(os[3].why)
              else Tells(reply, rest)
  {
    hide Tells;
    assert os + rest == [os[0]] + ([os[1]] + ([os[2]] + ([os[3]] + rest)));
    TellsOr(reply, os[3], rest);
    TellsOr(reply, os[2], [os[3]] + rest);
    TellsOr(reply, os[1], [os[2]] + ([os[3]] + rest));
    TellsOr(reply, os[0], [os[1]] + ([os[2]] + ([os[3]] + rest)));
  }

  /** `submit_claim`: the bond must be covered by what the sender holds behind no slug and no other open claim. */
  lemma SubmitAnswers(c: Judge.Config, self: Account, w: World, a: Account, requestId: string, clauseId: string,
                      slug: string, signature: string, arc: Judge.ArcRead, criteria: Option<string>)
    requires Recorded(c, w) && Backed(w.judge, a)
    ensures Tells(Judge.Apply(c, w.judge, w.token, self, a,
                              Judge.SubmitClaim(requestId, clauseId, slug, signature, arc, criteria)),
              FilingObstacles(c, self, w, a, requestId, clauseId, signature) + ReadObstacles(c, slug, arc, criteria))
  {
    hide Tells, Recorded, Consistent, OnFile, ReadObstacles, ClaimKey, CheckEligibility, IsRequestId, Sum;
    ConsistentOnRecord(c, w);
    BondsOnFile(w.judge, a);
    if IsRequestId(requestId) { TheClaim(w.judge, requestId, clauseId); }
    var reply := Judge.Apply(c, w.judge, w.token, self, a,
                             Judge.SubmitClaim(requestId, clauseId, slug, signature, arc, criteria));
    FilesInOrder(reply, FilingObstacles(c, self, w, a, requestId, clauseId, signature),
                 ReadObstacles(c, slug, arc, criteria));
    ReadsInOrder(reply, c, slug, arc, criteria);
  }

  lemma BondsOnFile(j: Judge.State, a: Account)
    requires Consistent(j)
    ensures Get(j.bonded, a) == OpenBonds(j, a)
  {
    assert BondsAgree(j, a);
  }
}
