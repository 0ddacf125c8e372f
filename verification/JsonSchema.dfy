/** packages/sla/jsonschema.js: the schema subset, what `assertSchema` admits, the first failure `validate`
    reports in its fixed traversal, and an order-free reading of the same keywords. */
module JsonSchema {
  import opened Basics
  import opened JsonValues
  import opened JsonPointers
  import opened Texts

  const TYPE := "type"
  const CONST := "const"
  const ENUM := "enum"
  const PROPERTIES := "properties"
  const REQUIRED := "required"
  const ADDITIONAL := "additionalProperties"
  const ITEMS := "items"
  const MIN_ITEMS := "minItems"
  const MAX_ITEMS := "maxItems"
  const MIN_LENGTH := "minLength"
  const MAX_LENGTH := "maxLength"
  const MINIMUM := "minimum"
  const MAXIMUM := "maximum"
  const ONE_OF := "oneOf"

  const ANNOTATIONS := {"$schema", "$id", "$comment", "title", "description", "examples", "default"}
  const SUPPORTED := {TYPE, CONST, ENUM, PROPERTIES, REQUIRED, ADDITIONAL, ITEMS, MIN_ITEMS, MAX_ITEMS,
                      MIN_LENGTH, MAX_LENGTH, MINIMUM, MAXIMUM, ONE_OF}
  const TYPE_NAMES := {"object", "array", "string", "number", "integer", "boolean", "null"}

  function At(ms: seq<Member>, key: string): Json
    requires Has(ms, key)
  {
    ms[Find(ms, key)].value
  }

  predicate IsInteger(n: real) { n == n.Floor as real }

  // ---------------------------------------------------------------- assertSchema

  function TypeList(t: Json): seq<Json> { if t.Arr? then t.items else [t] }

  predicate KnownType(name: Json) { name.Str? && name.s in TYPE_NAMES }

  predicate NonNegativeInteger(bound: Json) { bound.Num? && IsInteger(bound.n) && bound.n >= 0.0 }

  /** The keywords of one schema object that do not hold further schemas. */
  predicate AcceptedFlat(ms: seq<Member>) {
    && (forall m <- ms :: m.key in ANNOTATIONS || m.key in SUPPORTED)
    && (Has(ms, TYPE) ==> TypeList(At(ms, TYPE)) != [] && forall name <- TypeList(At(ms, TYPE)) :: KnownType(name))
    && (Has(ms, ENUM) ==> At(ms, ENUM).Arr? && At(ms, ENUM).items != [])
    && (Has(ms, REQUIRED) ==> At(ms, REQUIRED).Arr? && forall name <- At(ms, REQUIRED).items :: name.Str?)
    && (forall k <- {MIN_ITEMS, MAX_ITEMS, MIN_LENGTH, MAX_LENGTH} :: Has(ms, k) ==> NonNegativeInteger(At(ms, k)))
    && (forall k <- {MINIMUM, MAXIMUM} :: Has(ms, k) ==> At(ms, k).Num?)
  }

  /** The whole schema is inside the subset this validator enforces, including branches no value reaches. */
  predicate Accepted(s: Json)
    decreases s
  {
    s.Obj? &&
    var ms := s.members;
    && AcceptedFlat(ms)
    && (Has(ms, PROPERTIES) ==> At(ms, PROPERTIES).Obj?)
    && (Has(ms, PROPERTIES) ==>
        forall i :: 0 <= i < |At(ms, PROPERTIES).members| ==> Accepted(At(ms, PROPERTIES).members[i].value))
    && (Has(ms, ADDITIONAL) ==> At(ms, ADDITIONAL).Bool? || Accepted(At(ms, ADDITIONAL)))
    && (Has(ms, ITEMS) ==> Accepted(At(ms, ITEMS)))
    && (Has(ms, ONE_OF) ==> At(ms, ONE_OF).Arr? && |At(ms, ONE_OF).items| >= 2)
    && (Has(ms, ONE_OF) ==>
        forall i :: 0 <= i < |At(ms, ONE_OF).items| ==> Accepted(At(ms, ONE_OF).items[i]))
  }

  // ---------------------------------------------------------------- what a failure reports

  datatype Description =
    | NullValue
    | ArrayOf(length: nat)
    | ObjectOf(size: nat)
    | StringOf(shown: string, cut: bool)
    | NumberOf(n: real)
    | BooleanOf(b: bool)

  const SHOWN_CHARS := 40

  /** `describeValue` */
  function Describe(v: Json): Description {
    match v
    case Null => NullValue
    case Arr(items) => ArrayOf(|items|)
    case Obj(ms) => ObjectOf(|ms|)
    case Str(s) => if |s| > SHOWN_CHARS then StringOf(s[..SHOWN_CHARS], true) else StringOf(s, false)
    case Num(n) => NumberOf(n)
    case Bool(b) => BooleanOf(b)
  }

  datatype Expected =
    | OneOfTypes(names: seq<Json>) | EqualTo(const_: Json) | AmongValues(options: seq<Json>)
    | AtLeast(bound: real) | AtMost(bound: real)
    | LengthAtLeast(bound: real) | LengthAtMost(bound: real)
    | ItemsAtLeast(bound: real) | ItemsAtMost(bound: real)
    | Present | NoSuchMember | ExactlyOneOf(alternatives: nat)

  datatype Actual =
    | Described(description: Description) | NumberSeen(n: real) | LengthSeen(length: nat)
    | ItemsSeen(length: nat) | Absent | Matched(count: nat)

  datatype Failure = Failure(pointer: string, expected: Expected, actual: Actual)

  datatype Result = Throws | Conforms | Fails(failure: Failure)

  function Fail(pointer: string, expected: Expected, actual: Actual): Result {
    Fails(Failure(pointer, expected, actual))
  }

  function Then(first: Result, second: Result): Result { if first.Conforms? then second else first }

  // ---------------------------------------------------------------- validate, in its own order

  predicate MatchesType(v: Json, name: Json) {
    name.Str? &&
    match v
    case Null => name.s == "null"
    case Arr(_) => name.s == "array"
    case Obj(_) => name.s == "object"
    case Str(_) => name.s == "string"
    case Bool(_) => name.s == "boolean"
    case Num(n) => name.s == "number" || (name.s == "integer" && IsInteger(n))
  }

  predicate TypeOk(ms: seq<Member>, v: Json) {
    Has(ms, TYPE) ==> exists name <- TypeList(At(ms, TYPE)) :: MatchesType(v, name)
  }

  predicate HasBound(ms: seq<Member>, key: string) { Has(ms, key) && At(ms, key).Num? }

  function BoundOf(ms: seq<Member>, key: string): real
    requires HasBound(ms, key)
  {
    At(ms, key).n
  }

  function NameOf(name: Json): string { if name.Str? then name.s else "" }

  function FirstMissing(names: seq<Json>, ms: seq<Member>): Option<string> {
    if names == [] then None
    else if !Has(ms, NameOf(names[0])) then Some(NameOf(names[0]))
    else FirstMissing(names[1..], ms)
  }

  function CheckValue(ms: seq<Member>, v: Json, p: string): Result {
    if !TypeOk(ms, v) then Fail(p, OneOfTypes(TypeList(At(ms, TYPE))), Described(Describe(v)))
    else if Has(ms, CONST) && !DeepEqual(v, At(ms, CONST)) then Fail(p, EqualTo(At(ms, CONST)), Described(Describe(v)))
    else if Has(ms, ENUM) && At(ms, ENUM).Arr? && !(exists option <- At(ms, ENUM).items :: DeepEqual(v, option))
    then Fail(p, AmongValues(At(ms, ENUM).items), Described(Describe(v)))
    else Conforms
  }

  function CheckBounds(ms: seq<Member>, v: Json, p: string): Result {
    match v
    case Num(n) =>
      if HasBound(ms, MINIMUM) && n < BoundOf(ms, MINIMUM) then Fail(p, AtLeast(BoundOf(ms, MINIMUM)), NumberSeen(n))
      else if HasBound(ms, MAXIMUM) && n > BoundOf(ms, MAXIMUM)
        then Fail(p, AtMost(BoundOf(ms, MAXIMUM)), NumberSeen(n))
      else Conforms
    case Str(s) =>
      if HasBound(ms, MIN_LENGTH) && |s| as real < BoundOf(ms, MIN_LENGTH)
      then Fail(p, LengthAtLeast(BoundOf(ms, MIN_LENGTH)), LengthSeen(|s|))
      else if HasBound(ms, MAX_LENGTH) && |s| as real > BoundOf(ms, MAX_LENGTH)
      then Fail(p, LengthAtMost(BoundOf(ms, MAX_LENGTH)), LengthSeen(|s|))
      else Conforms
    case Arr(items) =>
      if HasBound(ms, MIN_ITEMS) && |items| as real < BoundOf(ms, MIN_ITEMS)
      then Fail(p, ItemsAtLeast(BoundOf(ms, MIN_ITEMS)), ItemsSeen(|items|))
      else if HasBound(ms, MAX_ITEMS) && |items| as real > BoundOf(ms, MAX_ITEMS)
      then Fail(p, ItemsAtMost(BoundOf(ms, MAX_ITEMS)), ItemsSeen(|items|))
      else Conforms
    case Obj(members) =>
      if Has(ms, REQUIRED) && At(ms, REQUIRED).Arr? && FirstMissing(At(ms, REQUIRED).items, members).Some?
      then Fail(Child(p, FirstMissing(At(ms, REQUIRED).items, members).value), Present, Absent)
      else Conforms
    case _ => Conforms
  }

  /** The keywords that need no recursion, in the order they are tried. */
  function CheckOwn(ms: seq<Member>, v: Json, p: string): Result { Then(CheckValue(ms, v, p), CheckBounds(ms, v, p)) }

  /** `schema.properties`, or none. */
  function DeclaredProperties(ms: seq<Member>): (properties: Json)
    ensures properties.Obj?
  {
    if Has(ms, PROPERTIES) && At(ms, PROPERTIES).Obj? then At(ms, PROPERTIES) else Obj([])
  }

  function Check(s: Json, v: Json, p: string): Result
    decreases s, 2, 0
  {
    if !s.Obj? then Throws
    else Then(CheckOwn(s.members, v, p), Then(CheckInside(s, v, p), CheckOneOf(s, v, p)))
  }

  /** Elements in index order; declared members, then undeclared ones, each in sorted key order. */
  function CheckInside(s: Json, v: Json, p: string): Result
    requires s.Obj?
    decreases s, 1, 0
  {
    var ms := s.members;
    match v
    case Arr(items) => if Has(ms, ITEMS) then CheckItems(At(ms, ITEMS), items, p, 0) else Conforms
    case Obj(members) =>
      Then(if Has(ms, PROPERTIES) && At(ms, PROPERTIES).Obj?
           then CheckProperties(At(ms, PROPERTIES), SortedKeys(At(ms, PROPERTIES).members), members, p) else Conforms,
           if Has(ms, ADDITIONAL)
           then CheckAdditional(At(ms, ADDITIONAL), DeclaredProperties(ms).members, SortedKeys(members), members, p)
               else Conforms)
    case _ => Conforms
  }

  function CheckItems(s: Json, items: seq<Json>, p: string, i: nat): Result
    decreases s, 3, |items| - i
  {
    if i >= |items| then Conforms
    else Then(Check(s, items[i], Child(p, Decimal(i))), CheckItems(s, items, p, i + 1))
  }

  function CheckProperties(properties: Json, names: seq<string>, members: seq<Member>, p: string): Result
    requires properties.Obj?
    decreases properties, 3, |names|
  {
    if names == [] then Conforms
    else
      Then(if Has(members, names[0]) && Has(properties.members, names[0])
           then Check(At(properties.members, names[0]), At(members, names[0]), Child(p, names[0])) else Conforms,
           CheckProperties(properties, names[1..], members, p))
  }

  function CheckAdditional(rule: Json, declared: seq<Member>, names: seq<string>, members: seq<Member>,
                           p: string): Result
    decreases rule, 3, |names|
  {
    if names == [] then Conforms
    else
      Then(if Has(declared, names[0]) || rule == Bool(true) || !Has(members, names[0]) then Conforms
           else if rule == Bool(false)
             then Fail(Child(p, names[0]), NoSuchMember, Described(Describe(At(members, names[0]))))
           else Check(rule, At(members, names[0]), Child(p, names[0])),
           CheckAdditional(rule, declared, names[1..], members, p))
  }

  function CheckOneOf(s: Json, v: Json, p: string): Result
    requires s.Obj?
    decreases s, 1, 0
  {
    var ms := s.members;
    if !Has(ms, ONE_OF) || !At(ms, ONE_OF).Arr? then Conforms
    else match CountMatches(At(ms, ONE_OF), v, p, 0)
      case None => Throws
      case Some(n) => if n != 1 then Fail(p, ExactlyOneOf(|At(ms, ONE_OF).items|), Matched(n)) else Conforms
  }

  /** How many branches from `i` on conform; none if one of them throws. */
  function CountMatches(branches: Json, v: Json, p: string, i: nat): Option<nat>
    requires branches.Arr?
    decreases branches, 3, |branches.items| - i
  {
    if i >= |branches.items| then Some(0)
    else match (Check(branches.items[i], v, p), CountMatches(branches, v, p, i + 1))
      case (Throws, _) => None
      case (_, None) => None
      case (Conforms, Some(n)) => Some(n + 1)
      case (Fails(_), Some(n)) => Some(n)
  }

  // ---------------------------------------------------------------- the same keywords, order-free

  ghost predicate SatisfiesOwn(ms: seq<Member>, v: Json) {
    && TypeOk(ms, v)
    && (Has(ms, CONST) ==> Same(v, At(ms, CONST)))
    && (Has(ms, ENUM) ==> At(ms, ENUM).Arr? ==> exists option <- At(ms, ENUM).items :: Same(v, option))
    && (v.Num? ==>
        && (HasBound(ms, MINIMUM) ==> v.n >= BoundOf(ms, MINIMUM))
        && (HasBound(ms, MAXIMUM) ==> v.n <= BoundOf(ms, MAXIMUM)))
    && (v.Str? ==>
        && (HasBound(ms, MIN_LENGTH) ==> |v.s| as real >= BoundOf(ms, MIN_LENGTH))
        && (HasBound(ms, MAX_LENGTH) ==> |v.s| as real <= BoundOf(ms, MAX_LENGTH)))
    && (v.Arr? ==>
        && (HasBound(ms, MIN_ITEMS) ==> |v.items| as real >= BoundOf(ms, MIN_ITEMS))
        && (HasBound(ms, MAX_ITEMS) ==> |v.items| as real <= BoundOf(ms, MAX_ITEMS)))
    && (v.Obj? && Has(ms, REQUIRED) && At(ms, REQUIRED).Arr? ==>
        forall name <- At(ms, REQUIRED).items :: Has(v.members, NameOf(name)))
  }

  /** `v` satisfies every keyword of `s`, said without any order of members, keywords or branches. */
  ghost predicate Satisfies(s: Json, v: Json)
    decreases s, 2
  {
    s.Obj? &&
    var ms := s.members;
    && SatisfiesOwn(ms, v)
    && SatisfiesInside(s, v)
    && (Has(ms, ONE_OF) && At(ms, ONE_OF).Arr? ==> ExactlyOne(Verdicts(At(ms, ONE_OF), v)))
  }

  ghost predicate SatisfiesInside(s: Json, v: Json)
    requires s.Obj?
    decreases s, 1
  {
    var ms := s.members;
    && (v.Arr? && Has(ms, ITEMS) ==>
        forall i :: 0 <= i < |v.items| ==> Satisfies(At(ms, ITEMS), v.items[i]))
    && (v.Obj? && Has(ms, PROPERTIES) && At(ms, PROPERTIES).Obj? ==>
        var properties := At(ms, PROPERTIES).members;
        forall i :: 0 <= i < |properties| && Has(v.members, properties[i].key) ==>
          Satisfies(properties[i].value, At(v.members, properties[i].key)))
    && (v.Obj? && Has(ms, ADDITIONAL) && At(ms, ADDITIONAL) != Bool(true) ==>
        forall i :: 0 <= i < |v.members| && !Has(DeclaredProperties(ms).members, v.members[i].key) ==>
          At(ms, ADDITIONAL) != Bool(false) && Satisfies(At(ms, ADDITIONAL), v.members[i].value))
  }

  ghost function Verdicts(branches: Json, v: Json): (holds: seq<bool>)
    requires branches.Arr?
    decreases branches, 3
  {
    seq(|branches.items|, i requires 0 <= i < |branches.items| => Satisfies(branches.items[i], v))
  }

  ghost predicate ExactlyOne(holds: seq<bool>) {
    exists i :: 0 <= i < |holds| && holds[i] && forall k :: 0 <= k < |holds| && k != i ==> !holds[k]
  }
}
