/** cre/lib/judge.js and packages/sdk/registry.js: one paid call is judged, the first broken clause is hashed
    into the verdict, and a reader resolves the hash against the published SLA. */
module SlaVerdicts {
  import opened Basics
  import opened JsonValues
  import opened JsonSchema
  import opened Outcomes
  import opened SlaEvaluation
  import opened Texts

  datatype Mode = SlaMode | StatusOnly

  datatype Reason = Refused | Unusable | Unreadable | Empty

  datatype Judgement = Judgement(mode: Mode, outcome: Option<Outcome>, clauses: seq<ClauseResult>,
                                 fallback: Option<Reason>)

  const PAYMENT_REFUSED := 402

  /** The record, parsed and shaped by the meta-schema; none when either refuses it. */
  type Parser = string -> Option<seq<Clause>>

  function StatusOnlyJudgement(o: Observation, reason: Reason): Option<Judgement> {
    var result := EvaluateStatusOnly(o);
    if result.None? then None else Some(Judgement(StatusOnly, result.value.outcome, result.value.clauses, Some(reason)))
  }

  /** None when `judge` throws. */
  function Judge(parse: Parser, slaText: Option<string>, o: Observation): Option<Judgement> {
    if o.status == Some(PAYMENT_REFUSED) then
      Some(Judgement(if slaText.Some? && slaText.value != "" then SlaMode else StatusOnly, None, [], Some(Refused)))
    else if slaText.Some? && slaText.value != "" then
      var result := Applied(parse(slaText.value), o);
      if result.Some? then Some(Judgement(SlaMode, result.value.outcome, result.value.clauses, None))
      else StatusOnlyJudgement(o, Unusable)
    else StatusOnlyJudgement(o, if slaText.None? then Unreadable else Empty)
  }

  /** `evaluate(parseSla(text), observation)`, none when it throws. */
  function Applied(sla: Option<seq<Clause>>, o: Observation): Option<Evaluation> {
    if sla.None? || FirstProblem(sla.value, {}).Some? then None else Evaluate(sla.value, o)
  }

  predicate ShouldWriteVerdict(j: Judgement) { j.outcome.Some? }

  function FirstFailing(results: seq<ClauseResult>): Option<string> {
    if results == [] then None
    else if !results[0].pass then Some(results[0].id)
    else FirstFailing(results[1..])
  }

  function FailedClauseOf(j: Judgement): Option<string> { FirstFailing(j.clauses) }

  // ---------------------------------------------------------------- the word on chain, and back

  const NO_CLAUSE := 0
  const UNKNOWN := "unknown"

  ghost predicate CollisionFree(hash: string -> int) {
    && (forall id :: hash(id) != 0)
    && (forall a, b :: hash(a) == hash(b) ==> a == b)
  }

  function WordOf(hash: string -> int, failed: Option<string>): int {
    if failed.Some? then hash(failed.value) else NO_CLAUSE
  }

  function FindByHash(hash: string -> int, word: int, clauses: seq<Clause>): string {
    if clauses == [] then UNKNOWN
    else if hash(clauses[0].id) == word then clauses[0].id
    else FindByHash(hash, word, clauses[1..])
  }

  function MatchFailedClause(hash: string -> int, word: int, sla: Option<seq<Clause>>): Option<string> {
    if word == NO_CLAUSE then None
    else if hash(DELIVERY) == word then Some(DELIVERY)
    else Some(FindByHash(hash, word, if sla.Some? then sla.value else []))
  }

  ghost predicate Declares(clauses: seq<Clause>, id: string) { exists i :: 0 <= i < |clauses| && clauses[i].id == id }

  lemma {:induction false} FindByHashFinds(hash: string -> int, id: string, clauses: seq<Clause>)
    requires CollisionFree(hash)
    ensures FindByHash(hash, hash(id), clauses) == if Declares(clauses, id) then id else UNKNOWN
  {
    if clauses != [] {
      var rest := clauses[1..];
      FindByHashFinds(hash, id, rest);
      assert forall i :: 0 <= i < |rest| ==> rest[i] == clauses[i + 1];
      assert forall i :: 1 <= i < |clauses| ==> clauses[i] == rest[i - 1];
    }
  }

  /** A recorded clause is recognised under an SLA exactly while that SLA still declares it, unless it is the
      implicit one, which always is; otherwise the reader is told it is unknown. */
  lemma RecognisedWhileDeclared(hash: string -> int, id: string, sla: Option<seq<Clause>>)
    requires CollisionFree(hash)
    ensures MatchFailedClause(hash, hash(id), sla)
            == Some(if id == "delivery" || (sla.Some? && Declares(sla.value, id)) then id else "unknown")
  {
    FindByHashFinds(hash, id, if sla.Some? then sla.value else []);
  }

  lemma {:induction false} FirstFailingIs(results: seq<ClauseResult>)
    ensures FirstFailing(results).None? <==> forall r <- results :: r.pass
    ensures FirstFailing(results).Some? ==>
      exists i :: 0 <= i < |results| && !results[i].pass && results[i].id == FirstFailing(results).value
          && forall k :: 0 <= k < i ==> results[k].pass
  {
    if results != [] {
      var rest := results[1..];
      FirstFailingIs(rest);
      assert results == [results[0]] + rest;
      if results[0].pass && FirstFailing(rest).Some? {
        var i :| 0 <= i < |rest| && !rest[i].pass && rest[i].id == FirstFailing(rest).value
          && forall k :: 0 <= k < i ==> rest[k].pass;
        assert results[i + 1] == rest[i] && forall k :: 1 <= k < i + 1 ==> results[k] == rest[k - 1];
      }
    }
  }

  // ---------------------------------------------------------------- results come from the SLA

  lemma {:induction false} ResultsAreDeclared(clauses: seq<Clause>, o: Observation, i: nat)
    requires EvaluateClauses(clauses, o).Some? && i < |EvaluateClauses(clauses, o).value|
    ensures Declares(clauses, EvaluateClauses(clauses, o).value[i].id)
  {
    hide Check, Find, ReadIndex;
    if i > 0 {
      ResultsAreDeclared(clauses[1..], o, i - 1);
      var k :| 0 <= k < |clauses[1..]| && clauses[1..][k].id == EvaluateClauses(clauses, o).value[i].id;
      assert clauses[k + 1].id == EvaluateClauses(clauses, o).value[i].id;
    } else {
      assert clauses[0].id == EvaluateClauses(clauses, o).value[0].id;
    }
  }

  lemma NamedIsDeclared(parse: Parser, text: string, o: Observation)
    requires Judge(parse, Some(text), o).Some? && FailedClauseOf(Judge(parse, Some(text), o).value).Some?
    ensures var id := FailedClauseOf(Judge(parse, Some(text), o).value).value;
            id == DELIVERY || (parse(text).Some? && Declares(parse(text).value, id))
  {
    var j := Judge(parse, Some(text), o).value;
    hide Declares, EvaluateClauses, FirstProblem;
    FirstFailingIs(j.clauses);
    var i :| 0 <= i < |j.clauses| && j.clauses[i].id == FailedClauseOf(j).value;
    if i > 0 { ResultsAreDeclared(parse(text).value, o, i - 1); }
  }

  /** Whatever the record and the call, the clause the judgement names is the clause a reader of the same
      record is shown; and no clause is shown exactly when none was named. */
  lemma NamedClauseComesBack(hash: string -> int, parse: Parser, text: string, o: Observation)
    requires CollisionFree(hash) && Judge(parse, Some(text), o).Some?
    ensures var named := FailedClauseOf(Judge(parse, Some(text), o).value);
            && MatchFailedClause(hash, WordOf(hash, named), parse(text)) == named
            && WordOf(hash, named) == if named.Some? then hash(named.value) else 0
  {
    var named := FailedClauseOf(Judge(parse, Some(text), o).value);
    if named.Some? {
      NamedIsDeclared(parse, text, o);
      hide Judge, FailedClauseOf, CollisionFree;
      RecognisedWhileDeclared(hash, named.value, parse(text));
    }
  }

  // ---------------------------------------------------------------- the verdict itself

  ghost predicate Broken(clauses: seq<Clause>, o: Observation, i: nat)
    requires i < |clauses|
  {
    !Kept(clauses[i], o) && forall k :: 0 <= k < i ==> Kept(clauses[k], o)
  }

  /** A call the engine can judge: a status HTTP knows, if anything arrived, and no negative measurement. */
  ghost predicate Usable(o: Observation) {
    (o.status.Some? ==> 100 <= o.status.value <= 599) && o.latencyMs >= 0 && o.paidAmount >= 0
  }

  /** With a record the engine can apply: nothing arrived is DOWN and names `delivery`; a 5xx fails and names
      `delivery`; otherwise the first broken promise in declared order fails the call and is named; otherwise it
      passes. A clause about meaning is never named. */
  lemma VerdictMeans(parse: Parser, text: string, o: Observation)
    requires text != "" && parse(text).Some? && Enforceable(parse(text).value) && Parsed(parse(text).value)
    requires Usable(o) && WellFormed(o.body) && o.status != Some(402)
    ensures Judge(parse, Some(text), o).Some?
    ensures var (sla, j) := (parse(text).value, Judge(parse, Some(text), o).value);
            && j.mode == SlaMode && j.fallback == None
            && |j.clauses| == 1 + (if o.status.None? then 0 else |sla|)
            && j.clauses[0].id == "delivery" && (j.clauses[0].pass <==> o.status.Some? && o.status.value < 500)
            && (o.status.Some? ==> forall i :: 0 <= i < |sla| ==> Answers(j.clauses[i + 1], sla[i], o))
            && (o.status.None? ==> j.outcome == Some(DOWN) && FailedClauseOf(j) == Some("delivery"))
            && (o.status.Some? && o.status.value >= 500
               ==> j.outcome == Some(FAIL) && FailedClauseOf(j) == Some("delivery"))
            && (o.status.Some? && o.status.value < 500 ==>
                  forall i :: 0 <= i < |sla| && Broken(sla, o, i) ==>
                    j.outcome == Some(FAIL) && FailedClauseOf(j) == Some(sla[i].id) && !sla[i].SemanticClause?)
            && (o.status.Some? && o.status.value < 500 && (forall i :: 0 <= i < |sla| ==> Kept(sla[i], o)) ==>
                  j.outcome == Some(PASS) && FailedClauseOf(j) == None)
  {
    var sla := parse(text).value;
    FirstProblemMeans(sla, {});
    hide FirstProblem, Enforceable, Parsed, EvaluateClauses, WellFormed, Kept;
    ResultsMean(sla, o);
    var j := Judge(parse, Some(text), o).value;
    FirstFailingIs(j.clauses);
    if o.status.Some? {
      var declared := EvaluateClauses(sla, o).value;
      assert forall i :: 0 <= i < |sla| ==> j.clauses[i + 1] == declared[i];
      FirstBrokenIsNamed(sla, declared, o, j.clauses);
    }
  }

  lemma FirstBrokenIsNamed(sla: seq<Clause>, declared: seq<ClauseResult>, o: Observation, results: seq<ClauseResult>)
    requires |declared| == |sla| && forall i :: 0 <= i < |sla| ==> Answers(declared[i], sla[i], o)
    requires results == [EvaluateDelivery(o)] + declared && o.status.Some?
    ensures o.status.value >= 500 ==> FirstFailing(results) == Some(DELIVERY)
    ensures o.status.value < 500 ==>
      forall i :: 0 <= i < |sla| && Broken(sla, o, i)
          ==> FirstFailing(results) == Some(sla[i].id) && !sla[i].SemanticClause?
    ensures o.status.value < 500 && (forall i :: 0 <= i < |sla| ==> Kept(sla[i], o)) ==> FirstFailing(results) == None
  {
    assert results[1..] == declared;
    if o.status.value < 500 {
      assert FirstFailing(results) == FirstFailing(declared);
      forall i | 0 <= i < |sla| && Broken(sla, o, i)
          ensures FirstFailing(declared) == Some(sla[i].id) && !sla[i].SemanticClause? {
        FirstFailingAt(declared, i);
      }
      FirstFailingIs(declared);
    }
  }

  lemma {:induction false} FirstFailingAt(results: seq<ClauseResult>, i: nat)
    requires i < |results| && !results[i].pass && forall k :: 0 <= k < i ==> results[k].pass
    ensures FirstFailing(results) == Some(results[i].id)
  {
    if i > 0 { FirstFailingAt(results[1..], i - 1); }
  }

  /** There is a record, it parses, and the engine enforces it. */
  ghost predicate Applies(parse: Parser, slaText: Option<string>) {
    slaText.Some? && slaText.value != "" && parse(slaText.value).Some? && Enforceable(parse(slaText.value).value)
  }

  /** A refused payment is never judged, whatever is on record; and judging throws exactly for any other call
      that is not usable. */
  lemma WhenJudged(parse: Parser, slaText: Option<string>, o: Observation)
    requires WellFormed(o.body)
    requires slaText.Some? && parse(slaText.value).Some? ==> Parsed(parse(slaText.value).value)
    ensures Judge(parse, slaText, o).None? <==> !Usable(o) && o.status != Some(402)
    ensures o.status == Some(402) ==>
      Judge(parse, slaText, o)
      == Some(Judgement(if slaText.Some? && slaText.value != "" then SlaMode else StatusOnly, None, [], Some(Refused)))
  {
    if slaText.Some? && parse(slaText.value).Some? { FirstProblemMeans(parse(slaText.value).value, {}); }
    hide FirstProblem, Enforceable, Parsed, EvaluateClauses, WellFormed;
    if Applies(parse, slaText) { ResultsMean(parse(slaText.value).value, o); }
  }

  /** Without a record that applies the status alone decides: nothing arrived is DOWN, a success PASS, a server
      failure FAIL, and anything else no verdict; no clause is named; and the judgement says why it fell back. */
  lemma StatusAloneDecides(parse: Parser, slaText: Option<string>, o: Observation)
    requires Usable(o) && o.status != Some(402) && !Applies(parse, slaText)
    ensures Judge(parse, slaText, o).Some?
    ensures var j := Judge(parse, slaText, o).value;
            && j.mode == StatusOnly && j.clauses == []
            && (j.outcome == Some(DOWN) <==> o.status.None?)
            && (j.outcome == Some(PASS) <==> o.status.Some? && 200 <= o.status.value <= 299)
            && (j.outcome == Some(FAIL) <==> o.status.Some? && 500 <= o.status.value <= 599)
            && (j.outcome == None <==>
                  o.status.Some? && !(200 <= o.status.value <= 299) && !(500 <= o.status.value <= 599))
            && j.fallback == Some(if slaText.None? then Unreadable else if slaText.value == "" then Empty else Unusable)
  {
    if slaText.Some? && parse(slaText.value).Some? { FirstProblemMeans(parse(slaText.value).value, {}); }
    hide FirstProblem, Enforceable, EvaluateClauses;
  }

  /** A verdict is written for every judgement but these: the payment was refused, or no record applies and the
      status is neither a success nor a server failure. */
  lemma DeclinesExactly(parse: Parser, slaText: Option<string>, o: Observation)
    requires Usable(o) && WellFormed(o.body)
    requires slaText.Some? && parse(slaText.value).Some? ==> Parsed(parse(slaText.value).value)
    ensures Judge(parse, slaText, o).Some?
    ensures ShouldWriteVerdict(Judge(parse, slaText, o).value)
            <==> o.status != Some(402)
                 && (Applies(parse, slaText) || o.status.None? || 200 <= o.status.value <= 299 || o.status.value >= 500)
  {
    hide Judge, Parsed, Enforceable, WellFormed;
    WhenJudged(parse, slaText, o);
    if o.status != Some(402) {
      if Applies(parse, slaText) {
        VerdictWritten(parse, slaText.value, o);
      } else {
        StatusAloneDecides(parse, slaText, o);
      }
    }
  }

  lemma VerdictWritten(parse: Parser, text: string, o: Observation)
    requires text != "" && parse(text).Some? && Enforceable(parse(text).value) && Parsed(parse(text).value)
    requires Usable(o) && WellFormed(o.body) && o.status != Some(402)
    ensures Judge(parse, Some(text), o).Some? && Judge(parse, Some(text), o).value.outcome.Some?
  {
    FirstProblemMeans(parse(text).value, {});
    hide FirstProblem, Enforceable, Parsed, EvaluateClauses, WellFormed;
    ResultsMean(parse(text).value, o);
  }

  /** The order a provider's response writes its members in never reaches the judgement. */
  lemma JudgementIgnoresMemberOrder(parse: Parser, slaText: Option<string>, o: Observation, body: Json)
    requires WellFormed(o.body) && WellFormed(body) && Same(o.body, body)
    requires slaText.Some? && parse(slaText.value).Some? ==> Parsed(parse(slaText.value).value)
    ensures Judge(parse, slaText, o.(body := body)) == Judge(parse, slaText, o)
  {
    hide FirstProblem, Parsed, EvaluateClauses, WellFormed, Same;
    if slaText.Some? && parse(slaText.value).Some? {
      ResultsIgnoreMemberOrder(parse(slaText.value).value, o, body);
    }
  }
}
