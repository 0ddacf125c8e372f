/** What the tree on the provider's screen asks of a response, read off its controls; that the schema written from
    the tree asks exactly that; and so what an inferred draft asks. */
module SlaComposerTrees {
  import opened Basics
  import opened JsonValues
  import opened JsonSchema
  import opened SlaComposer
  import opened SlaComposerMeaning
  import opened SlaComposerRoundTrip
  import opened SlaInference

  /** The size is within the bounds typed for the field. */
  ghost predicate Bounded(n: Node, size: real) {
    (n.min.Some? ==> size >= n.min.value) && (n.max.Some? ==> size <= n.max.value)
  }

  ghost predicate OwnAccepted(n: Node, v: Json) {
    && (n.type_ == "string" ==> v.Str? && Bounded(n, |v.s| as real))
    && (n.type_ == "number" ==> v.Num? && Bounded(n, v.n))
    && (n.type_ == "integer" ==> v.Num? && v.n == v.n.Floor as real && Bounded(n, v.n))
    && (n.type_ == "boolean" ==> v.Bool?)
    && (n.type_ == "null" ==> v.Null?)
    && (n.type_ == "array" ==> v.Arr? && Bounded(n, |v.items| as real))
    && (n.type_ == "object" ==> v.Obj? && forall k :: 0 <= k < |n.properties| ==>
          (!n.properties[k].ignored && n.properties[k].node.required ==> Has(v.members, n.properties[k].name)))
  }

  /** A value has the type of the field and keeps its bounds; an object has the promised members; and the members
      and elements that the tree shows are accepted in their turn. An ignored field asks nothing. */
  ghost predicate Accepts(n: Node, v: Json)
    decreases n
  {
    && OwnAccepted(n, v)
    && (n.type_ == "object" ==> forall k :: 0 <= k < |n.properties| ==>
          (!n.properties[k].ignored && Has(v.members, n.properties[k].name) ==>
             Accepts(n.properties[k].node, At(v.members, n.properties[k].name))))
    && (n.type_ == "array" && n.items.Items? ==>
          forall i :: 0 <= i < |v.items| ==> Accepts(n.items.node, v.items[i]))
  }

  /** A tree made with the controls alone: nothing kept verbatim, and no two rows of one name. */
  ghost predicate Plainly(n: Node)
    decreases n
  {
    && n.extra == []
    && n.type_ in {"any", "object", "array", "string", "number", "integer", "boolean", "null"}
    && DistinctRows(n.properties)
    && (forall k :: 0 <= k < |n.properties| ==> Plainly(n.properties[k].node))
    && (n.items.Items? ==> Plainly(n.items.node))
  }

  lemma Says(n: Node, q: string)
    requires Plainly(n)
    ensures NodeToSchema(n).Obj?
    ensures var t := NodeToSchema(n).members;
            (Has(t, q) <==> BaseSays(n, q).Some?) && (Has(t, q) ==> At(t, q) == BaseSays(n, q).value)
  {
    EmptyLookup(q);
    BaseLookup(n, q);
    hide NodeToSchema, BaseSays, Plainly;
  }

  lemma OwnWritten(n: Node, v: Json)
    requires Plainly(n)
    ensures NodeToSchema(n).Obj?
    ensures SatisfiesOwn(NodeToSchema(n).members, v) <==> OwnAccepted(n, v)
  {
    Says(n, TYPE);
    var t := NodeToSchema(n).members;
    TypeWritten(n, t, v);
    BoundsWritten(n, t, v);
    RequiredWritten(n, t, v);
    Says(n, CONST);
    Says(n, ENUM);
    hide NodeToSchema, Plainly, Find, Same, TypeOk, BoundsKept, PromisesKept, TypeAccepted, OwnAccepted;
    OwnIs(n, v);
  }

  ghost predicate TypeAccepted(type_: string, v: Json) {
    && (type_ == "string" ==> v.Str?) && (type_ == "number" ==> v.Num?)
    && (type_ == "integer" ==> v.Num? && v.n == v.n.Floor as real)
    && (type_ == "boolean" ==> v.Bool?) && (type_ == "null" ==> v.Null?)
    && (type_ == "array" ==> v.Arr?) && (type_ == "object" ==> v.Obj?)
  }

  ghost predicate BoundsKept(n: Node, v: Json) {
    && (n.type_ == "string" && v.Str? ==> Bounded(n, |v.s| as real))
    && (n.type_ in {"number", "integer"} && v.Num? ==> Bounded(n, v.n))
    && (n.type_ == "array" && v.Arr? ==> Bounded(n, |v.items| as real))
  }

  ghost predicate PromisesKept(n: Node, v: Json) {
    n.type_ == "object" && v.Obj? ==> forall k :: 0 <= k < |n.properties| ==>
      (!n.properties[k].ignored && n.properties[k].node.required ==> Has(v.members, n.properties[k].name))
  }

  lemma OwnIs(n: Node, v: Json)
    ensures OwnAccepted(n, v) <==> TypeAccepted(n.type_, v) && BoundsKept(n, v) && PromisesKept(n, v)
  {
    hide Bounded, Find;
  }

  lemma TypeWritten(n: Node, t: seq<Member>, v: Json)
    requires Plainly(n) && NodeToSchema(n) == Obj(t)
    ensures TypeOk(t, v) <==> TypeAccepted(n.type_, v)
  {
    Says(n, TYPE);
    hide NodeToSchema, Find, MatchesType, TypeAccepted;
    TypeMatched(n.type_, v);
    if n.type_ != "any" { assert TypeList(At(t, TYPE))[0] == Str(n.type_); }
  }

  lemma TypeMatched(type_: string, v: Json)
    requires type_ in {"any", "object", "array", "string", "number", "integer", "boolean", "null"}
    ensures TypeAccepted(type_, v) <==> type_ == "any" || MatchesType(v, Str(type_))
  {
  }

  /** The clauses of `SatisfiesOwn` about sizes. */
  ghost predicate SizesOk(t: seq<Member>, v: Json) {
    && (v.Num? ==>
        && (HasBound(t, MINIMUM) ==> v.n >= BoundOf(t, MINIMUM))
        && (HasBound(t, MAXIMUM) ==> v.n <= BoundOf(t, MAXIMUM)))
    && (v.Str? ==>
        && (HasBound(t, MIN_LENGTH) ==> |v.s| as real >= BoundOf(t, MIN_LENGTH))
        && (HasBound(t, MAX_LENGTH) ==> |v.s| as real <= BoundOf(t, MAX_LENGTH)))
    && (v.Arr? ==>
        && (HasBound(t, MIN_ITEMS) ==> |v.items| as real >= BoundOf(t, MIN_ITEMS))
        && (HasBound(t, MAX_ITEMS) ==> |v.items| as real <= BoundOf(t, MAX_ITEMS)))
  }

  lemma BoundsWritten(n: Node, t: seq<Member>, v: Json)
    requires Plainly(n) && NodeToSchema(n) == Obj(t)
    ensures SizesOk(t, v) <==> BoundsKept(n, v)
  {
    assert n.type_ in {"any", "object", "array", "string", "number", "integer", "boolean", "null"};
    forall q <- BOUNDS ensures Bound(t, q) == SaidBound(n, q) { BoundWritten(n, t, q); }
    hide NodeToSchema, Find, Plainly, SaidBound;
    BoundsSaid(n);
  }

  ghost function Bound(t: seq<Member>, q: string): Option<real> {
    if HasBound(t, q) then Some(BoundOf(t, q)) else None
  }

  ghost function SaidBound(n: Node, q: string): Option<real> {
    if BoundKeywords(n.type_).Some? && q == BoundKeywords(n.type_).value.0 then n.min
    else if BoundKeywords(n.type_).Some? && q == BoundKeywords(n.type_).value.1 then n.max
    else None
  }

  lemma BoundWritten(n: Node, t: seq<Member>, q: string)
    requires Plainly(n) && NodeToSchema(n) == Obj(t) && q in BOUNDS
    ensures Bound(t, q) == SaidBound(n, q)
  {
    hide NodeToSchema, Find, Plainly, BaseSays, SaidBound;
    Says(n, q);
    BoundIsSaid(n, q);
  }

  lemma BoundIsSaid(n: Node, q: string)
    requires q in BOUNDS
    ensures BaseSays(n, q) == NumberAt(SaidBound(n, q))
  {
    hide NodeToSchema;
  }

  lemma BoundsSaid(n: Node)
    requires n.type_ in {"any", "object", "array", "string", "number", "integer", "boolean", "null"}
    ensures n.type_ in {"number", "integer"} ==> SaidBound(n, MINIMUM) == n.min && SaidBound(n, MAXIMUM) == n.max
    ensures n.type_ !in {"number", "integer"} ==> SaidBound(n, MINIMUM) == None == SaidBound(n, MAXIMUM)
    ensures n.type_ == "string" ==> SaidBound(n, MIN_LENGTH) == n.min && SaidBound(n, MAX_LENGTH) == n.max
    ensures n.type_ != "string" ==> SaidBound(n, MIN_LENGTH) == None == SaidBound(n, MAX_LENGTH)
    ensures n.type_ == "array" ==> SaidBound(n, MIN_ITEMS) == n.min && SaidBound(n, MAX_ITEMS) == n.max
    ensures n.type_ != "array" ==> SaidBound(n, MIN_ITEMS) == None == SaidBound(n, MAX_ITEMS)
  {
  }

  lemma RequiredWritten(n: Node, t: seq<Member>, v: Json)
    requires Plainly(n) && NodeToSchema(n) == Obj(t)
    ensures (v.Obj? && Has(t, REQUIRED) && At(t, REQUIRED).Arr? ==>
               forall name <- At(t, REQUIRED).items :: Has(v.members, NameOf(name)))
            <==> PromisesKept(n, v)
  {
    Says(n, REQUIRED);
    if n.type_ == OBJECT {
      forall name ensures name in RequiredNames(n.properties)
          <==> exists k :: 0 <= k < |n.properties| && !n.properties[k].ignored && n.properties[k].node.required
                           && name == Str(n.properties[k].name) {
        PromisedName(n.properties, name);
      }
    }
    hide NodeToSchema, Find, Plainly, RequiredNames;
    if n.type_ == OBJECT && v.Obj? {
      var names := RequiredNames(n.properties);
      if forall name <- names :: Has(v.members, NameOf(name)) {
        forall k | 0 <= k < |n.properties| && !n.properties[k].ignored && n.properties[k].node.required
          ensures Has(v.members, n.properties[k].name)
        {
          assert Str(n.properties[k].name) in names;
        }
      }
    }
  }

  /** The schema written from a tree accepts exactly what the tree asks for. */
  lemma {:induction false} TreeMeans(n: Node, v: Json)
    requires Plainly(n)
    ensures Satisfies(NodeToSchema(n), v) <==> Accepts(n, v)
    decreases n, 1, 0
  {
    OwnWritten(n, v);
    Says(n, ONE_OF);
    var t := NodeToSchema(n).members;
    if OwnAccepted(n, v) { InsideWritten(n, t, v); }
    hide NodeToSchema, SatisfiesOwn, OwnAccepted, Find, SatisfiesInside, Plainly;
  }

  lemma {:induction false} InsideWritten(n: Node, t: seq<Member>, v: Json)
    requires Plainly(n) && NodeToSchema(n) == Obj(t) && OwnAccepted(n, v)
    ensures SatisfiesInside(Obj(t), v) <==> Accepts(n, v)
    decreases n, 0, 1
  {
    Says(n, ITEMS);
    Says(n, PROPERTIES);
    Says(n, ADDITIONAL);
    if v.Arr? {
      if n.type_ == ARRAY && n.items.Items? {
        forall i | 0 <= i < |v.items|
          ensures Satisfies(NodeToSchema(n.items.node), v.items[i]) <==> Accepts(n.items.node, v.items[i])
        {
          TreeMeans(n.items.node, v.items[i]);
        }
      }
      hide NodeToSchema, Find, Plainly, Satisfies;
    } else if v.Obj? {
      if n.type_ == OBJECT {
        RowsMean(n, v.members);
        RowsWritten(n, v.members);
      }
      hide NodeToSchema, Find, Plainly, Satisfies, Entries;
      InsideOfObject(t, v.members);
    }
  }

  lemma {:induction false} RowsMean(n: Node, members: seq<Member>)
    requires Plainly(n)
    ensures forall k :: 0 <= k < |n.properties| && Has(members, n.properties[k].name) ==>
              (Satisfies(NodeToSchema(n.properties[k].node), At(members, n.properties[k].name))
               <==> Accepts(n.properties[k].node, At(members, n.properties[k].name)))
    decreases n, 0, 0
  {
    hide NodeToSchema, Satisfies, Find, Accepts;
    forall k | 0 <= k < |n.properties| && Has(members, n.properties[k].name)
      ensures Satisfies(NodeToSchema(n.properties[k].node), At(members, n.properties[k].name))
              <==> Accepts(n.properties[k].node, At(members, n.properties[k].name))
    {
      TreeMeans(n.properties[k].node, At(members, n.properties[k].name));
    }
  }

  /** The properties written are those of the rows that are not ignored. */
  lemma RowsWritten(n: Node, members: seq<Member>)
    requires DistinctRows(n.properties)
    ensures var es := Entries(n.properties);
            (forall i :: 0 <= i < |es| && Has(members, es[i].key) ==> Satisfies(es[i].value, At(members, es[i].key)))
            <==> forall k :: 0 <= k < |n.properties| && !n.properties[k].ignored
                             && Has(members, n.properties[k].name) ==>
                   Satisfies(NodeToSchema(n.properties[k].node), At(members, n.properties[k].name))
  {
    hide NodeToSchema, Satisfies, Find, Entries;
    var ps, es := n.properties, Entries(n.properties);
    forall i | 0 <= i < |es|
      ensures exists k :: 0 <= k < |ps| && !ps[k].ignored && es[i] == Member(ps[k].name, NodeToSchema(ps[k].node))
    {
      var k := EntryFrom(ps, i);
    }
    forall k | 0 <= k < |ps| && !ps[k].ignored
      ensures exists i :: 0 <= i < |es| && es[i] == Member(ps[k].name, NodeToSchema(ps[k].node))
    {
      EntryOf(ps, k);
      EntryPlace(es, ps[k].name);
    }
  }

  lemma EntryPlace(es: seq<Member>, name: string)
    requires Has(es, name)
    ensures exists i :: 0 <= i < |es| && es[i] == Member(name, At(es, name))
  {
    assert es[Find(es, name)] == Member(name, At(es, name));
  }

  // ---------------------------------------------------------------- what an inferred draft asks

  /** `w` is shaped as the sample `v` is: of its type; with every member of its objects, so shaped; with elements
      shaped as its first one. */
  ghost predicate Like(v: Json, w: Json)
    decreases v
  {
    match v
    case Null => w.Null?
    case Bool(_) => w.Bool?
    case Num(_) => w.Num?
    case Str(_) => w.Str?
    case Arr(items) => w.Arr? && (items != [] ==> forall i :: 0 <= i < |w.items| ==> Like(items[0], w.items[i]))
    case Obj(ms) => w.Obj? && forall k :: 0 <= k < |ms| ==>
                      Has(w.members, ms[k].key) && Like(ms[k].value, At(w.members, ms[k].key))
  }

  /** The schema inferred from one response accepts exactly the responses of its shape. */
  lemma SampleMeans(v: Json, w: Json)
    requires WellFormed(v)
    ensures Satisfies(SampleSchema(v), w) <==> Like(v, w)
  {
    InferredPlainly(v);
    TreeMeans(InferNode(v), w);
    InferredAccepts(v, w);
    hide NodeToSchema, Satisfies, Like, Accepts;
  }

  lemma {:induction false} InferredPlainly(v: Json)
    requires WellFormed(v)
    ensures Plainly(InferNode(v))
    decreases v
  {
    match v
    case Obj(ms) =>
      forall i | 0 <= i < |ms|
        ensures InferProperties(v, |ms|)[i] == Property(ms[i].key, InferNode(ms[i].value), false) {
        RowOfSample(v, |ms|, i);
      }
      forall i | 0 <= i < |ms| ensures Plainly(InferNode(ms[i].value)) { InferredPlainly(ms[i].value); }
    case Arr(items) => if items != [] { InferredPlainly(items[0]); }
    case _ =>
  }

  lemma {:induction false} InferredAccepts(v: Json, w: Json)
    requires WellFormed(v)
    ensures Accepts(InferNode(v), w) <==> Like(v, w)
    decreases v
  {
    match v
    case Obj(ms) =>
      forall i | 0 <= i < |ms|
        ensures InferProperties(v, |ms|)[i] == Property(ms[i].key, InferNode(ms[i].value), false) {
        RowOfSample(v, |ms|, i);
      }
      forall i | 0 <= i < |ms| ensures InferNode(ms[i].value).required { InferredIsPromised(ms[i].value); }
      if w.Obj? {
        forall i | 0 <= i < |ms| && Has(w.members, ms[i].key)
          ensures Accepts(InferNode(ms[i].value), At(w.members, ms[i].key))
                  <==> Like(ms[i].value, At(w.members, ms[i].key))
        {
          InferredAccepts(ms[i].value, At(w.members, ms[i].key));
        }
      }
    case Arr(items) =>
      if items != [] && w.Arr? {
        forall i | 0 <= i < |w.items| ensures Accepts(InferNode(items[0]), w.items[i]) <==> Like(items[0], w.items[i]) {
          InferredAccepts(items[0], w.items[i]);
        }
      }
    case _ =>
  }
}
