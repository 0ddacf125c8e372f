/** The pure rules at the foot of genlayer/contracts/sla_claim_judge.py. */
module ClaimRules {
  import opened Basics
  import opened Texts

  const CLOCK_BUCKET_SECONDS := 600
  const ADJUDICATION_WINDOW_SECONDS := 24 * 60 * 60

  datatype Outcome = Open | Breach | Met | Undetermined | Cancelled

  // ---------------------------------------------------------------- request ids and claim keys

  predicate HexDigit(c: char) { '0' <= c <= '9' || 'a' <= c <= 'f' || 'A' <= c <= 'F' }

  predicate IsRequestId(value: string) {
    "0x" <= value && |value| == 66 && forall i :: 2 <= i < |value| ==> HexDigit(value[i])
  }

  const HEX := {'0', '1', '2', '3', '4', '5', '6', '7', '8', '9', 'a', 'b', 'c', 'd', 'e', 'f',
                'A', 'B', 'C', 'D', 'E', 'F'}

  /** A request id is `0x` and the 64 hex digits of a 32-byte word. */
  lemma RequestIdsAre(value: string)
    ensures IsRequestId(value)
            <==> |value| == 66 && value[0] == '0' && value[1] == 'x' && forall i :: 2 <= i < 66 ==> value[i] in HEX
  {
    forall i | 0 <= i < |value| ensures HexDigit(value[i]) <==> value[i] in HEX { HexIs(value[i]); }
  }

  lemma HexIs(c: char)
    ensures HexDigit(c) <==> c in HEX
  {
  }

  function CanonicalRequestId(value: string): Option<string> {
    if IsRequestId(value) then Some("0x" + Lower(value[2..])) else None
  }

  /** The spelling claims are filed under: a request id already in lower case. */
  ghost predicate Canonical(id: string) { CanonicalRequestId(id) == Some(id) }

  function ClaimKey(requestId: string, clauseId: string): string { Lower(requestId) + ":" + clauseId }

  lemma CanonicalIsStable(value: string)
    requires IsRequestId(value)
    ensures Canonical(CanonicalRequestId(value).value)
  {
    var id := CanonicalRequestId(value).value;
    assert forall i :: 2 <= i < |id| ==> id[i] == Lower(value[2..])[i - 2];
    assert id[2..] == Lower(value[2..]);
    assert Lower(id[2..]) == id[2..];
  }

  /** The same text but for the case of hex letters. */
  ghost predicate SpelledAlike(a: string, b: string) {
    |a| == |b| && forall i :: 0 <= i < |a| ==> AlikeAt(a, b, i)
  }

  ghost predicate AlikeAt(a: string, b: string, i: nat)
    requires i < |a| && i < |b|
  {
    || a[i] == b[i]
    || ('A' <= a[i] <= 'F' && b[i] as int == a[i] as int + 32)
    || ('A' <= b[i] <= 'F' && a[i] as int == b[i] as int + 32)
  }

  /** Two spellings of a request id are filed under one id exactly when they differ only in the case of letters. */
  lemma CanonicalIgnoresCase(a: string, b: string)
    requires IsRequestId(a) && IsRequestId(b)
    ensures CanonicalRequestId(a) == CanonicalRequestId(b) <==> SpelledAlike(a, b)
  {
    LowerOfRequestId(a);
    LowerOfRequestId(b);
    hide IsRequestId, CanonicalRequestId;
    var x, y := CanonicalRequestId(a).value, CanonicalRequestId(b).value;
    forall i | 0 <= i < 66 ensures x[i] == y[i] <==> AlikeAt(a, b, i) {}
    if SpelledAlike(a, b) { assert x == y; }
  }

  lemma LowerOfRequestId(a: string)
    requires IsRequestId(a)
    ensures CanonicalRequestId(a).Some?
    ensures var x := CanonicalRequestId(a).value;
            && |a| == 66 == |x|
            && forall i :: 0 <= i < 66 ==>
                 x[i] as int == if 'A' <= a[i] <= 'F' then a[i] as int + 32 else a[i] as int
    ensures forall i :: 0 <= i < 66 ==> a[i] == 'x' || a[i] in HEX
  {
    RequestIdsAre(a);
    var x := CanonicalRequestId(a).value;
    forall i | 2 <= i < 66 ensures x[i] == LowerChar(a[i]) { assert x[i] == Lower(a[2..])[i - 2]; }
  }

  lemma LowerOfCanonical(id: string)
    requires Canonical(id)
    ensures Lower(id) == id && |id| == 66
  {
    assert id == "0x" + Lower(id[2..]);
    forall i | 0 <= i < |id| ensures Lower(id)[i] == id[i] {
      if i >= 2 { assert id[i] == Lower(id[2..])[i - 2]; }
    }
  }

  /** One key, one claim: two claims share a key only if they dispute the same clause of the same call,
      whatever the clause ids contain. */
  lemma ClaimKeyInjective(r1: string, c1: string, r2: string, c2: string)
    requires Canonical(r1) && Canonical(r2) && ClaimKey(r1, c1) == ClaimKey(r2, c2)
    ensures r1 == r2 && c1 == c2
  {
    LowerOfCanonical(r1);
    LowerOfCanonical(r2);
    var k1, k2 := ClaimKey(r1, c1), ClaimKey(r2, c2);
    assert k1[..66] == r1 && k1[67..] == c1;
    assert k2[..66] == r2 && k2[67..] == c2;
  }

  // ---------------------------------------------------------------- money rules

  function AvailableEscrow(escrowed: int, deposits: int, bonds: int): int { escrowed - deposits - bonds }

  datatype Plan = Plan(compensation: nat, bounty: nat, fromProvider: nat, fromConsumer: nat)

  /** Who pays what. Total, and within the means it is handed: compensation comes before the bounty,
      and a shortfall is never passed to the other side. */
  function SettlementFor(outcome: Outcome, paidAmount: nat, depositAvailable: nat, bond: nat, bounty: nat): (p: Plan)
    ensures p.fromProvider + p.fromConsumer == p.compensation + p.bounty
    ensures p.fromProvider <= depositAvailable && p.fromConsumer <= bond
    ensures p.compensation <= paidAmount && p.bounty <= bounty
    ensures outcome != Breach ==> p.compensation == 0 && p.fromProvider == 0
    ensures outcome != Met ==> p.fromConsumer == 0
    ensures outcome == Breach && p.compensation < paidAmount ==> p.compensation == depositAvailable && p.bounty == 0
    ensures outcome == Breach && p.bounty < bounty ==> p.fromProvider == depositAvailable
    ensures outcome == Met && p.bounty < bounty ==> p.bounty == bond
  {
    if outcome == Breach then
      var compensation := Max(0, Min(paidAmount, depositAvailable));
      var paidBounty := Max(0, Min(bounty, depositAvailable - compensation));
      Plan(compensation, paidBounty, compensation + paidBounty, 0)
    else if outcome == Met then
      var paidBounty := Max(0, Min(bounty, bond));
      Plan(0, paidBounty, 0, paidBounty)
    else
      Plan(0, 0, 0, 0)
  }

  // ---------------------------------------------------------------- the clock and the gates

  /** Arc's clock as validators agree on it. */
  function Bucketed(now: nat): (b: nat)
    ensures b <= now < b + CLOCK_BUCKET_SECONDS && b % CLOCK_BUCKET_SECONDS == 0
  {
    now - now % CLOCK_BUCKET_SECONDS
  }

  function CooldownElapsed(now: nat, requestedAt: nat, cooldown: nat): bool { now - requestedAt >= cooldown }

  /** The registry's service ids: keccak256 of the slug, as a free injective constructor, or some
      other word that is the hash of no slug in play. */
  datatype ServiceId = OfSlug(slug: string) | OtherWord(word: nat)

  datatype Verdict = Verdict(serviceId: ServiceId, writtenAt: nat, paidAmount: nat)

  function WithinFilingWindow(v: Verdict, now: nat, window: nat): bool {
    v.writtenAt != 0 && now - v.writtenAt <= window
  }

  datatype Refusal =
    | BadSignature | BadRequestId | ClaimExists | NoSuchClaim | AlreadyResolved
    | BondShort | ReadFailed | NoVerdict | WrongService | FilingClosed | NoCriteria
    | NotEscrowed | BackedByAnother | NoDepositOwner | NotDepositor | NothingToWithdraw
    | NoWithdrawalPending | ClaimsOpen | NotRequested | CooldownRunning
    | NotClaimant | WindowNotLapsed | JudgmentAborted | Underflow

  function CheckEligibility(v: Verdict, slug: string, now: nat, window: nat): Option<Refusal> {
    if v.writtenAt == 0 then Some(NoVerdict)
    else if v.serviceId != OfSlug(slug) then Some(WrongService)
    else if !WithinFilingWindow(v, now, window) then Some(FilingClosed)
    else None
  }

  function WithdrawalRefusal(openClaims: nat, requestedAt: nat, cooldownElapsed: bool): Option<Refusal> {
    if openClaims > 0 then Some(ClaimsOpen)
    else if requestedAt == 0 then Some(NotRequested)
    else if !cooldownElapsed then Some(CooldownRunning)
    else None
  }

  /** A verdict on record when a withdrawal was requested can still be claimed on once the cooldown,
      counted from the bucketed request time, is up. */
  ghost predicate Leaks(requested: nat, now: nat, v: Verdict, window: nat, cooldown: nat) {
    && v.writtenAt <= requested <= now
    && CooldownElapsed(now, Bucketed(requested), cooldown)
    && WithinFilingWindow(v, now, window)
  }

  lemma CooldownOutlastsExposure(requested: nat, now: nat, v: Verdict, window: nat, cooldown: nat)
    requires cooldown >= window + CLOCK_BUCKET_SECONDS
    ensures !Leaks(requested, now, v, window, cooldown)
  {
  }

  /** The cooldown outlasts the exposure exactly when it exceeds the filing window by a whole clock
      bucket, because the request time is rounded down. The constructor's own rule, cooldown at least
      twice the window, secures that for windows of 600 s or more and for no shorter one. */
  lemma CooldownSuffices(window: nat, cooldown: nat)
    ensures (forall requested: nat, now: nat, v: Verdict :: !Leaks(requested, now, v, window, cooldown))
            <==> cooldown >= window + CLOCK_BUCKET_SECONDS
    ensures window >= CLOCK_BUCKET_SECONDS && cooldown >= 2 * window ==> cooldown >= window + CLOCK_BUCKET_SECONDS
    ensures window < CLOCK_BUCKET_SECONDS && cooldown == 2 * window ==> cooldown < window + CLOCK_BUCKET_SECONDS
  {
    if cooldown < window + CLOCK_BUCKET_SECONDS {
      var requested := 2 * CLOCK_BUCKET_SECONDS - 1;
      var now: nat := Max(requested, CLOCK_BUCKET_SECONDS + cooldown);
      assert Bucketed(requested) == CLOCK_BUCKET_SECONDS;
      assert Leaks(requested, now, Verdict(OfSlug(""), requested, 0), window, cooldown);
    }
  }
}
