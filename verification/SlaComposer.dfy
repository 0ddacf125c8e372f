/** web/src/forms/sla-draft.js: the tree a provider edits, read from a schema or inferred from a sample, and
    the schema written back from it. */
module SlaComposer {
  import opened Basics
  import opened JsonValues
  import opened JsonSchema

  /** A field of the draft. Bounds hold the number a provider typed, or nothing. */
  datatype Node = Node(
    type_: string, required: bool, min: Option<real>, max: Option<real>,
    properties: seq<Property>, items: MaybeNode, extra: seq<Member>)

  datatype Property = Property(name: string, node: Node, ignored: bool)

  datatype MaybeNode = NoItems | Items(node: Node)

  const ANY := "any"
  const OBJECT := "object"
  const ARRAY := "array"
  const STRING := "string"
  const NUMBER := "number"
  const INTEGER := "integer"

  const MODELLED := {TYPE, PROPERTIES, REQUIRED, ITEMS, MINIMUM, MAXIMUM, MIN_LENGTH, MAX_LENGTH, MIN_ITEMS, MAX_ITEMS}

  /** The bound keywords a field of each type has controls for. */
  function BoundKeywords(type_: string): Option<(string, string)> {
    if type_ == NUMBER || type_ == INTEGER then Some((MINIMUM, MAXIMUM))
    else if type_ == STRING then Some((MIN_LENGTH, MAX_LENGTH))
    else if type_ == ARRAY then Some((MIN_ITEMS, MAX_ITEMS))
    else None
  }

  function Blank(type_: string, required: bool): Node { Node(type_, required, None, None, [], NoItems, []) }

  // ---------------------------------------------------------------- JavaScript objects being filled

  function Lookup(ms: seq<Member>, key: string): Option<Json> { if Has(ms, key) then Some(At(ms, key)) else None }

  /** `object[key] = value` */
  function Put(ms: seq<Member>, key: string, value: Json): seq<Member> {
    if Has(ms, key) then ms[Find(ms, key) := Member(key, value)] else ms + [Member(key, value)]
  }

  function PutSome(ms: seq<Member>, key: string, value: Option<Json>): seq<Member> {
    if value.Some? then Put(ms, key, value.value) else ms
  }

  /** `{ ...base, ...extra }` */
  function Spread(base: seq<Member>, extra: seq<Member>): seq<Member> {
    if extra == [] then base
    else
      var last := extra[|extra| - 1];
      Put(Spread(base, extra[..|extra| - 1]), last.key, last.value)
  }

  // ---------------------------------------------------------------- inferNode

  function InferNode(v: Json): Node
    decreases v
  {
    match v
    case Obj(ms) => Blank(OBJECT, true).(properties := InferProperties(v, |ms|))
    case Arr(items) => Blank(ARRAY, true).(items := if items == [] then NoItems else Items(InferNode(items[0])))
    case Str(_) => Blank(STRING, true)
    case Num(_) => Blank(NUMBER, true)
    case Bool(_) => Blank("boolean", true)
    case Null => Blank("null", true)
  }

  function InferProperties(v: Json, n: nat): (properties: seq<Property>)
    requires v.Obj? && n <= |v.members|
    ensures |properties| == n
    decreases v, n
  {
    if n == 0 then []
    else InferProperties(v, n - 1) + [Property(v.members[n - 1].key, InferNode(v.members[n - 1].value), false)]
  }

  // ---------------------------------------------------------------- nodeToSchema

  function RequiredNames(properties: seq<Property>): seq<Json> {
    if properties == [] then []
    else
      var p := properties[|properties| - 1];
      RequiredNames(properties[..|properties| - 1]) + (if !p.ignored && p.node.required then [Str(p.name)] else [])
  }

  function Entries(properties: seq<Property>): seq<Member>
    decreases properties
  {
    if properties == [] then []
    else
      var p := properties[|properties| - 1];
      var entries := Entries(properties[..|properties| - 1]);
      if p.ignored then entries else Put(entries, p.name, NodeToSchema(p.node))
  }

  function NonEmpty(names: seq<Json>): Option<Json> { if names == [] then None else Some(Arr(names)) }

  function NumberAt(bound: Option<real>): Option<Json> { if bound.Some? then Some(Num(bound.value)) else None }

  function NodeToSchema(n: Node): Json
    decreases n
  {
    var typed := PutSome([], TYPE, if n.type_ == ANY then None else Some(Str(n.type_)));
    var promised := PutSome(typed, REQUIRED, if n.type_ == OBJECT then NonEmpty(RequiredNames(n.properties)) else None);
    var entries := Entries(n.properties);
    var shaped := PutSome(promised, PROPERTIES,
                          if n.type_ == OBJECT && entries != [] then Some(Obj(entries)) else None);
    var itemised := PutSome(shaped, ITEMS,
                            if n.type_ == ARRAY && n.items.Items? then Some(NodeToSchema(n.items.node)) else None);
    var bounds := BoundKeywords(n.type_);
    var bounded := if bounds.None? then itemised
                   else PutSome(PutSome(itemised, bounds.value.0, NumberAt(n.min)), bounds.value.1, NumberAt(n.max));
    Obj(Spread(bounded, n.extra))
  }

  // ---------------------------------------------------------------- schemaToNode

  function TypeOf(ms: seq<Member>): string { if Has(ms, TYPE) && At(ms, TYPE).Str? then At(ms, TYPE).s else ANY }

  /** `new Set(schema.required)`, in first-seen order. */
  function Dedupe(names: seq<Json>): seq<Json> {
    if names == [] then []
    else
      var seen := Dedupe(names[..|names| - 1]);
      if names[|names| - 1] in seen then seen else seen + [names[|names| - 1]]
  }

  function RequiredOf(ms: seq<Member>): seq<Json> {
    if Has(ms, REQUIRED) && At(ms, REQUIRED).Arr? then Dedupe(At(ms, REQUIRED).items) else []
  }

  /** The required names no declared property carries. */
  function Orphans(names: seq<Json>, declared: seq<Member>): seq<Json> {
    if names == [] then []
    else
      var last := names[|names| - 1];
      Orphans(names[..|names| - 1], declared) + (if Has(declared, NameOf(last)) then [] else [last])
  }

  function OrphansOf(ms: seq<Member>): seq<Json> { Orphans(RequiredOf(ms), DeclaredProperties(ms).members) }

  /** What the keyword loop keeps verbatim for one member of the schema. */
  function Kept(type_: string, orphans: seq<Json>, m: Member): Option<Json> {
    if m.key == REQUIRED then NonEmpty(orphans)
    else if BoundKeywords(type_).Some?
        && (m.key == BoundKeywords(type_).value.0 || m.key == BoundKeywords(type_).value.1) then None
    else if m.key !in MODELLED || (m.key == PROPERTIES && type_ != OBJECT) || (m.key == ITEMS && type_ != ARRAY)
      then Some(m.value)
    else None
  }

  function Extras(type_: string, orphans: seq<Json>, ms: seq<Member>): seq<Member> {
    if ms == [] then []
    else
      var last := ms[|ms| - 1];
      PutSome(Extras(type_, orphans, ms[..|ms| - 1]), last.key, Kept(type_, orphans, last))
  }

  function BoundAt(ms: seq<Member>, key: string): Option<real> {
    if HasBound(ms, key) then Some(BoundOf(ms, key)) else None
  }

  function SchemaToNode(s: Json, required: bool): Node
    decreases s, 1
  {
    if !s.Obj? then Blank(ANY, required)
    else
      var ms := s.members;
      var type_ := TypeOf(ms);
      var bounds := BoundKeywords(type_);
      Node(type_, required,
           if bounds.Some? then BoundAt(ms, bounds.value.0) else None,
           if bounds.Some? then BoundAt(ms, bounds.value.1) else None,
           if type_ == OBJECT && Has(ms, PROPERTIES) && At(ms, PROPERTIES).Obj?
           then Rows(At(ms, PROPERTIES), RequiredOf(ms), |At(ms, PROPERTIES).members|) else [],
           if type_ == ARRAY && Has(ms, ITEMS) then Items(SchemaToNode(At(ms, ITEMS), true)) else NoItems,
           Extras(type_, OrphansOf(ms), ms))
  }

  function Rows(properties: Json, required: seq<Json>, n: nat): (rows: seq<Property>)
    requires properties.Obj? && n <= |properties.members|
    ensures |rows| == n
    decreases properties, 2, n
  {
    if n == 0 then []
    else
      var m := properties.members[n - 1];
      Rows(properties, required, n - 1) + [Property(m.key, SchemaToNode(m.value, Str(m.key) in required), false)]
  }

  /** Read into the tree and written back. */
  function RoundTrip(s: Json): Json { NodeToSchema(SchemaToNode(s, true)) }
}
