/** packages/sla/index.js and clauses.js: which documents the engine enforces, and what it says of one call. */
module SlaEvaluation {
  import opened Basics
  import opened JsonValues
  import opened JsonSchema
  import opened JsonSchemaMeaning
  import JsonSchemaEngine
  import JsonSchemaReports
  import opened Outcomes
  import opened Texts

  /** A clause of a document that already satisfies the SLA meta-schema. */
  datatype Clause =
    | SchemaClause(id: string, schema: Json)
    | LatencyClause(id: string, maxMs: nat)
    | PriceClause(id: string, minMinorUnits: string, maxMinorUnits: string)
    | SemanticClause(id: string, criteria: string)

  datatype Observation = Observation(status: Option<int>, body: Json, latencyMs: int, paidAmount: int)

  const DELIVERY := "delivery"

  // ---------------------------------------------------------------- assertSlaDocument

  datatype Problem =
    | ReservedId
    | DuplicateId(id: string)
    | OutsideSubset(id: string)
    | NotDecimal(id: string, bound: string)
    | BoundsReversed(id: string)

  function OwnProblem(clause: Clause): Option<Problem> {
    match clause
    case SchemaClause(id, schema) => if Accepted(schema) then None else Some(OutsideSubset(id))
    case PriceClause(id, min, max) =>
      if ReadIndex(min).None? then Some(NotDecimal(id, "minMinorUnits"))
      else if ReadIndex(max).None? then Some(NotDecimal(id, "maxMinorUnits"))
      else if ReadIndex(min).value > ReadIndex(max).value then Some(BoundsReversed(id))
      else None
    case _ => None
  }

  /** The first problem in clause order, after the ids in `seen`. */
  function FirstProblem(clauses: seq<Clause>, seen: set<string>): Option<Problem> {
    if clauses == [] then None
    else if clauses[0].id == DELIVERY then Some(ReservedId)
    else if clauses[0].id in seen then Some(DuplicateId(clauses[0].id))
    else if OwnProblem(clauses[0]).Some? then OwnProblem(clauses[0])
    else FirstProblem(clauses[1..], seen + {clauses[0].id})
  }

  /** A schema is in the subset; the bounds of a price are canonical decimals, the lower one not above the other. */
  ghost predicate Sensible(clause: Clause) {
    && (clause.SchemaClause? ==> Accepted(clause.schema))
    && (clause.PriceClause? ==>
          && ReadIndex(clause.minMinorUnits).Some? && ReadIndex(clause.maxMinorUnits).Some?
          && ReadIndex(clause.minMinorUnits).value <= ReadIndex(clause.maxMinorUnits).value)
  }

  /** `p` is a problem of clause `i`, and of nothing before it. */
  ghost predicate FirstAt(clauses: seq<Clause>, i: nat, p: Problem)
    requires i < |clauses|
  {
    var clause := clauses[i];
    && Enforceable(clauses[..i])
    && match p
       case ReservedId => clause.id == "delivery"
       case DuplicateId(id) => id == clause.id && exists k :: 0 <= k < i && clauses[k].id == id
       case OutsideSubset(id) => id == clause.id && clause.SchemaClause? && !Accepted(clause.schema)
       case NotDecimal(id, bound) =>
         && id == clause.id && clause.PriceClause?
         && (|| (bound == "minMinorUnits" && ReadIndex(clause.minMinorUnits).None?)
             || (bound == "maxMinorUnits" && ReadIndex(clause.minMinorUnits).Some?
                 && ReadIndex(clause.maxMinorUnits).None?))
       case BoundsReversed(id) =>
         && id == clause.id && clause.PriceClause?
         && ReadIndex(clause.minMinorUnits).Some? && ReadIndex(clause.maxMinorUnits).Some?
         && ReadIndex(clause.minMinorUnits).value > ReadIndex(clause.maxMinorUnits).value
  }

  lemma OwnProblemMeans(clause: Clause)
    ensures OwnProblem(clause).None? <==> Sensible(clause)
  {
    hide Accepted, ReadIndex;
  }

  /** What a document the engine enforces looks like, whatever the order of its clauses. */
  ghost predicate Enforceable(clauses: seq<Clause>) {
    && (forall i :: 0 <= i < |clauses| ==> clauses[i].id != "delivery" && Sensible(clauses[i]))
    && (forall i, j :: 0 <= i < j < |clauses| ==> clauses[i].id != clauses[j].id)
  }

  lemma {:induction false} FirstProblemMeans(clauses: seq<Clause>, seen: set<string>)
    ensures FirstProblem(clauses, seen).None?
            <==> Enforceable(clauses) && forall i :: 0 <= i < |clauses| ==> clauses[i].id !in seen
  {
    if clauses != [] {
      var head, rest := clauses[0], clauses[1..];
      hide OwnProblem, Sensible;
      OwnProblemMeans(head);
      FirstProblemMeans(rest, seen + {head.id});
      assert forall i :: 1 <= i < |clauses| ==> clauses[i] == rest[i - 1];
      assert forall i :: 0 <= i < |rest| ==> rest[i] == clauses[i + 1];
    }
  }

  /** The problem reported is one of the first clause that has any, after all the clauses before it. */
  lemma {:induction false} FirstProblemIs(clauses: seq<Clause>, n: nat, seen: set<string>) returns (i: nat)
    requires n <= |clauses| && Enforceable(clauses[..n]) && seen == (set k | 0 <= k < n :: clauses[k].id)
    requires FirstProblem(clauses[n..], seen).Some?
    ensures i < |clauses| && FirstAt(clauses, i, FirstProblem(clauses[n..], seen).value)
    decreases |clauses| - n
  {
    hide FirstAt, OwnProblem, Sensible;
    var clause := clauses[n];
    assert clauses[n..][0] == clause && clauses[n..][1..] == clauses[n + 1..];
    if clause.id == DELIVERY || clause.id in seen || OwnProblem(clause).Some? {
      StopsAt(clauses, n, seen);
      i := n;
    } else {
      OwnProblemMeans(clause);
      assert clauses[..n + 1] == clauses[..n] + [clause];
      i := FirstProblemIs(clauses, n + 1, seen + {clause.id});
    }
  }

  lemma StopsAt(clauses: seq<Clause>, n: nat, seen: set<string>)
    requires n < |clauses| && Enforceable(clauses[..n]) && seen == (set k | 0 <= k < n :: clauses[k].id)
    requires clauses[n].id == DELIVERY || clauses[n].id in seen || OwnProblem(clauses[n]).Some?
    ensures FirstAt(clauses, n, FirstProblem(clauses[n..], seen).value)
  {
    hide Enforceable, Sensible, Accepted, ReadIndex;
    assert clauses[n..][0] == clauses[n];
  }

  method AssertSlaDocument(clauses: seq<Clause>) returns (problem: Option<Problem>)
    ensures problem == FirstProblem(clauses, {})
    ensures problem.None? <==> Enforceable(clauses)
    ensures problem.Some? ==> exists i :: 0 <= i < |clauses| && FirstAt(clauses, i, problem.value)
  {
    FirstProblemMeans(clauses, {});
    if FirstProblem(clauses, {}).Some? {
      assert clauses[0..] == clauses;
      ghost var i := FirstProblemIs(clauses, 0, {});
    }
    hide Accepted, Enforceable, FirstAt;
    var seen: set<string> := {};
    for i := 0 to |clauses|
      invariant FirstProblem(clauses, {}) == FirstProblem(clauses[i..], seen)
    {
      var clause := clauses[i];
      assert clauses[i..][1..] == clauses[i + 1..];
      if clause.id == DELIVERY { return Some(ReservedId); }
      if clause.id in seen { return Some(DuplicateId(clause.id)); }
      seen := seen + {clause.id};
      if clause.SchemaClause? {
        var accepted := JsonSchemaEngine.AssertSchema(clause.schema);
        if !accepted { return Some(OutsideSubset(clause.id)); }
      }
      if clause.PriceClause? {
        if ReadIndex(clause.minMinorUnits).None? { return Some(NotDecimal(clause.id, "minMinorUnits")); }
        if ReadIndex(clause.maxMinorUnits).None? { return Some(NotDecimal(clause.id, "maxMinorUnits")); }
        if ReadIndex(clause.minMinorUnits).value > ReadIndex(clause.maxMinorUnits).value {
          return Some(BoundsReversed(clause.id));
        }
      }
    }
    return None;
  }

  // ---------------------------------------------------------------- evaluate

  datatype ClauseResult = ClauseResult(id: string, pass: bool, failure: Option<Failure>)

  datatype Evaluation = Evaluation(outcome: Option<Outcome>, clauses: seq<ClauseResult>)

  /** `assertObservation` */
  predicate Observable(o: Observation) {
    && (o.status.Some? ==> 100 <= o.status.value <= 599)
    && o.latencyMs >= 0 && o.paidAmount >= 0
  }

  function EvaluateDelivery(o: Observation): ClauseResult {
    ClauseResult(DELIVERY, o.status.Some? && o.status.value < 500, None)
  }

  /** None when the validator throws. */
  function EvaluateClause(clause: Clause, o: Observation): Option<ClauseResult> {
    match clause
    case SchemaClause(id, schema) =>
      (match Check(schema, o.body, "")
       case Throws => None
       case Conforms => Some(ClauseResult(id, true, None))
       case Fails(failure) => Some(ClauseResult(id, false, Some(failure))))
    case LatencyClause(id, maxMs) => Some(ClauseResult(id, o.latencyMs <= maxMs, None))
    case PriceClause(id, min, max) =>
      (match (ReadIndex(min), ReadIndex(max))
       case (Some(low), Some(high)) => Some(ClauseResult(id, low <= o.paidAmount <= high, None))
       case _ => None)
    case SemanticClause(id, _) => Some(ClauseResult(id, true, None))
  }

  function EvaluateClauses(clauses: seq<Clause>, o: Observation): Option<seq<ClauseResult>> {
    if clauses == [] then Some([])
    else match (EvaluateClause(clauses[0], o), EvaluateClauses(clauses[1..], o))
      case (Some(first), Some(rest)) => Some([first] + rest)
      case _ => None
  }

  /** None when it throws: an unusable observation, an unenforceable document, or a validator that throws. */
  function Evaluate(clauses: seq<Clause>, o: Observation): Option<Evaluation> {
    if !Observable(o) || FirstProblem(clauses, {}).Some? then None
    else if o.status.None? then Some(Evaluation(Some(DOWN), [EvaluateDelivery(o)]))
    else
      var declared := EvaluateClauses(clauses, o);
      if declared.None? then None
      else
        var results := [EvaluateDelivery(o)] + declared.value;
        Some(Evaluation(Some(if forall r <- results :: r.pass then PASS else FAIL), results))
  }

  function EvaluateStatusOnly(o: Observation): Option<Evaluation> {
    if !Observable(o) then None
    else
      var outcome :=
        if o.status.None? then Some(DOWN)
        else if 200 <= o.status.value < 300 then Some(PASS)
        else if o.status.value >= 500 then Some(FAIL)
        else None;
      Some(Evaluation(outcome, []))
  }

  // ---------------------------------------------------------------- what the results mean

  /** The provider kept the promise of this clause; a promise about meaning is not this engine's to judge. */
  ghost predicate Kept(clause: Clause, o: Observation) {
    match clause
    case SchemaClause(_, schema) => Satisfies(schema, o.body)
    case LatencyClause(_, maxMs) => o.latencyMs <= maxMs
    case PriceClause(_, min, max) =>
      ReadIndex(min).Some? && ReadIndex(max).Some? && ReadIndex(min).value <= o.paidAmount <= ReadIndex(max).value
    case SemanticClause(_, _) => true
  }

  /** The schemas of parsed documents are objects with distinct keys throughout. */
  ghost predicate Parsed(clauses: seq<Clause>) {
    forall i :: 0 <= i < |clauses| && clauses[i].SchemaClause? ==> WellFormed(clauses[i].schema)
  }

  /** The result carries the clause's id, passes exactly when the promise was kept, and shows the validator's
      failure exactly when it is a broken schema. */
  ghost predicate Answers(r: ClauseResult, clause: Clause, o: Observation) {
    && r.id == clause.id && (r.pass <==> Kept(clause, o))
    && (r.failure.Some? <==> clause.SchemaClause? && !r.pass)
    && (r.failure.Some? ==> Check(clause.schema, o.body, "") == Fails(r.failure.value))
  }

  /** One result per clause, in declared order. */
  lemma {:induction false} ResultsMean(clauses: seq<Clause>, o: Observation)
    requires Enforceable(clauses) && Parsed(clauses) && WellFormed(o.body)
    ensures EvaluateClauses(clauses, o).Some? && |EvaluateClauses(clauses, o).value| == |clauses|
    ensures forall i :: 0 <= i < |clauses| ==> Answers(EvaluateClauses(clauses, o).value[i], clauses[i], o)
  {
    if clauses != [] {
      var rest := clauses[1..];
      ResultMeans(clauses[0], o);
      RestEnforceable(clauses);
      hide EvaluateClause, Answers, Enforceable, Parsed, WellFormed;
      ResultsMean(rest, o);
      var results := EvaluateClauses(clauses, o).value;
      forall i | 0 <= i < |clauses| ensures Answers(results[i], clauses[i], o) {
        if i > 0 { assert Answers(EvaluateClauses(rest, o).value[i - 1], rest[i - 1], o); }
      }
    }
  }

  lemma RestEnforceable(clauses: seq<Clause>)
    requires clauses != [] && Enforceable(clauses) && Parsed(clauses)
    ensures Enforceable(clauses[1..]) && Parsed(clauses[1..])
  {
    hide Sensible, WellFormed;
  }

  lemma ResultMeans(clause: Clause, o: Observation)
    requires Sensible(clause) && WellFormed(o.body) && (clause.SchemaClause? ==> WellFormed(clause.schema))
    ensures EvaluateClause(clause, o).Some? && Answers(EvaluateClause(clause, o).value, clause, o)
  {
    hide Check, Satisfies, Accepted, WellFormed, ReadIndex;
    if clause.SchemaClause? { CheckMeans(clause.schema, o.body, ""); }
  }

  lemma {:induction false} ResultsIgnoreMemberOrder(clauses: seq<Clause>, o: Observation, body: Json)
    requires Parsed(clauses) && WellFormed(o.body) && WellFormed(body) && Same(o.body, body)
    ensures EvaluateClauses(clauses, o) == EvaluateClauses(clauses, o.(body := body))
  {
    if clauses != [] {
      var rest := clauses[1..];
      assert forall i :: 0 <= i < |rest| ==> rest[i] == clauses[i + 1];
      hide Check, WellFormed, Same, ReadIndex;
      if clauses[0].SchemaClause? { JsonSchemaReports.ReportIgnoresMemberOrder(clauses[0].schema, o.body, body, ""); }
      ResultsIgnoreMemberOrder(rest, o, body);
    }
  }
}
