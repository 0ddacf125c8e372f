/** A draft inferred from one real response: exactly when the response satisfies the schema written from it,
    and what a provider's loosening edits do to the accepted values. */
module SlaInference {
  import opened Basics
  import opened JsonValues
  import opened JsonSchema
  import opened JsonSchemaMeaning
  import opened SlaComposer
  import opened SlaComposerMeaning
  import opened SlaComposerRoundTrip
  import opened SlaComposerAdmitted

  // ---------------------------------------------------------------- the schema of a sample

  function SampleSchema(v: Json): Json { NodeToSchema(InferNode(v)) }

  /** Along everything the tree was inferred from, the elements of an array fit the schema of the first. */
  ghost predicate Uniform(v: Json)
    decreases v
  {
    match v
    case Arr(items) =>
      items != [] ==> Uniform(items[0]) && forall i :: 1 <= i < |items| ==> Satisfies(SampleSchema(items[0]), items[i])
    case Obj(ms) => forall i :: 0 <= i < |ms| ==> Uniform(ms[i].value)
    case _ => true
  }

  /** The properties written for an inferred object, in the order of its members. */
  ghost function SampleMembers(ms: seq<Member>): (ts: seq<Member>)
    ensures |ts| == |ms| && forall i :: 0 <= i < |ms| ==> ts[i] == Member(ms[i].key, SampleSchema(ms[i].value))
  {
    seq(|ms|, i requires 0 <= i < |ms| => Member(ms[i].key, SampleSchema(ms[i].value)))
  }

  lemma {:induction false} EntriesOfSample(v: Json, n: nat)
    requires v.Obj? && n <= |v.members| && DistinctKeys(v.members)
    ensures Entries(InferProperties(v, n)) == SampleMembers(v.members)[..n]
  {
    hide NodeToSchema, InferNode, Entries, Put;
    if n == 0 {
      NoEntries();
    } else {
      var m := v.members[n - 1];
      var written := SampleMembers(v.members);
      EntriesOfSample(v, n - 1);
      EntriesStep(InferProperties(v, n - 1), Property(m.key, InferNode(m.value), false));
      PutNew(written[..n - 1], m.key, SampleSchema(m.value));
      assert written[..n] == written[..n - 1] + [written[n - 1]];
    }
  }

  /** Every name of the sample is promised. */
  lemma {:induction false} PromisedBySample(v: Json, n: nat, name: Json)
    requires v.Obj? && n <= |v.members|
    ensures name in RequiredNames(InferProperties(v, n)) <==> exists i :: 0 <= i < n && name == Str(v.members[i].key)
  {
    hide RequiredNames;
    if n == 0 {
      NothingPromised();
    } else {
      var m := v.members[n - 1];
      PromisedBySample(v, n - 1, name);
      InferredIsPromised(m.value);
      hide InferNode;
      PromisedStep(InferProperties(v, n - 1), Property(m.key, InferNode(m.value), false), name);
    }
  }

  lemma InferredIsPromised(v: Json)
    ensures InferNode(v).required && InferNode(v).extra == []
  {
  }

  /** What the schema of a sample says for keyword `q`. */
  ghost function Sampled(v: Json, q: string): Option<Json> {
    if q == TYPE then Some(Str(InferNode(v).type_))
    else if q == REQUIRED && v.Obj? then NonEmpty(RequiredNames(InferProperties(v, |v.members|)))
    else if q == PROPERTIES && v.Obj? && v.members != [] then Some(Obj(SampleMembers(v.members)))
    else if q == ITEMS && v.Arr? && v.items != [] then Some(SampleSchema(v.items[0]))
    else None
  }

  lemma SampleSays(v: Json, q: string)
    requires WellFormed(v)
    ensures SampleSchema(v).Obj? && Lookup(SampleSchema(v).members, q) == Sampled(v, q)
  {
    hide NodeToSchema, Entries, RequiredNames, WellFormed, InferProperties;
    BaseLookup(InferNode(v), q);
    InferredIsPromised(v);
    EmptyLookup(q);
    if v.Obj? {
      MembersDistinct(v.members);
      EntriesOfSample(v, |v.members|);
      assert SampleMembers(v.members)[..|v.members|] == SampleMembers(v.members);
    }
  }

  lemma MembersDistinct(ms: seq<Member>)
    requires WellFormed(Obj(ms))
    ensures DistinctKeys(ms)
  {
  }

  lemma SampleHas(v: Json, t: seq<Member>, q: string)
    requires WellFormed(v) && SampleSchema(v) == Obj(t)
    ensures Has(t, q) <==> Sampled(v, q).Some?
    ensures Has(t, q) ==> At(t, q) == Sampled(v, q).value
  {
    SampleSays(v, q);
    hide SampleSchema, Sampled, WellFormed;
  }

  /** A sample always satisfies the type, and the names, its own schema asks for. */
  lemma SampleOwn(v: Json, t: seq<Member>)
    requires WellFormed(v) && SampleSchema(v) == Obj(t)
    ensures SatisfiesOwn(t, v)
  {
    hide SampleSchema, WellFormed, Find, InferProperties, RequiredNames, Same;
    forall q <- {CONST, ENUM, MINIMUM, MAXIMUM, MIN_LENGTH, MAX_LENGTH, MIN_ITEMS, MAX_ITEMS} ensures !Has(t, q) {
      SampleHas(v, t, q);
    }
    SampleHas(v, t, TYPE);
    assert TypeOk(t, v) by { assert MatchesType(v, TypeList(At(t, TYPE))[0]); }
    SampleHas(v, t, REQUIRED);
    if v.Obj? {
      forall name <- RequiredNames(InferProperties(v, |v.members|)) ensures Has(v.members, NameOf(name)) {
        PromisedBySample(v, |v.members|, name);
        var i :| 0 <= i < |v.members| && name == Str(v.members[i].key);
        HasAt(v.members, i);
      }
    }
  }

  /** A response satisfies the schema inferred from it exactly when its arrays are uniform. */
  lemma {:induction false} SampleFits(v: Json)
    requires WellFormed(v)
    ensures Satisfies(SampleSchema(v), v) <==> Uniform(v)
    decreases v, 1
  {
    SampleSays(v, TYPE);
    var t := SampleSchema(v).members;
    hide SampleSchema, SatisfiesOwn, Find, WellFormed, InferNode, Satisfies;
    SampleOwn(v, t);
    SampleHas(v, t, ONE_OF);
    SampleHas(v, t, ADDITIONAL);
    WithoutBranches(t, v);
    if v.Arr? {
      ArrayFits(v, t);
    } else if v.Obj? {
      ObjectFits(v, t);
    }
  }

  lemma {:induction false} ArrayFits(v: Json, t: seq<Member>)
    requires WellFormed(v) && v.Arr? && SampleSchema(v) == Obj(t)
    ensures SatisfiesInside(Obj(t), v) <==> Uniform(v)
    decreases v, 0
  {
    if v.items != [] {
      SampleFits(v.items[0]);
      hide SampleSchema, Find, WellFormed, InferNode, Satisfies;
      SampleHas(v, t, ITEMS);
      if Uniform(v) {
        forall i | 0 <= i < |v.items| ensures Satisfies(SampleSchema(v.items[0]), v.items[i]) {
          if i == 0 { assert Uniform(v.items[0]); }
        }
      }
    } else {
      SampleHas(v, t, ITEMS);
    }
  }

  lemma {:induction false} ObjectFits(v: Json, t: seq<Member>)
    requires WellFormed(v) && v.Obj? && SampleSchema(v) == Obj(t) && !Has(t, ADDITIONAL)
    ensures SatisfiesInside(Obj(t), v) <==> Uniform(v)
    decreases v, 0
  {
    var ms := v.members;
    forall i | 0 <= i < |ms| ensures Satisfies(SampleSchema(ms[i].value), At(ms, ms[i].key)) <==> Uniform(ms[i].value) {
      HasAt(ms, i);
      SampleFits(ms[i].value);
    }
    forall i | 0 <= i < |ms| ensures Has(ms, ms[i].key) { HasAt(ms, i); }
    hide SampleSchema, Find, Satisfies, WellFormed;
    SampleHas(v, t, PROPERTIES);
    InsideOfObject(t, ms);
    assert DeclaredProperties(t) == Obj(SampleMembers(ms));
    hide DeclaredProperties, SatisfiesInside;
  }

  lemma WithoutBranches(t: seq<Member>, v: Json)
    requires SatisfiesOwn(t, v) && !Has(t, ONE_OF)
    ensures Satisfies(Obj(t), v) <==> SatisfiesInside(Obj(t), v)
    ensures !v.Arr? && !v.Obj? ==> SatisfiesInside(Obj(t), v)
  {
    hide SatisfiesOwn, Find;
  }

  // ---------------------------------------------------------------- loosening a draft

  /** Names are object keys, and extras are an object, at every depth. */
  ghost predicate WellShaped(n: Node)
    decreases n
  {
    && DistinctKeys(n.extra)
    && (forall i, j :: 0 <= i < j < |n.properties| ==> n.properties[i].name != n.properties[j].name)
    && (forall i :: 0 <= i < |n.properties| ==> WellShaped(n.properties[i].node))
    && (n.items.Items? ==> WellShaped(n.items.node))
  }

  /** `m` is `n` after a provider stopped promising some fields, cleared some bounds, and ignored some fields
      of objects that do not forbid unknown members; at any depth. */
  ghost predicate Loosened(n: Node, m: Node)
    decreases n
  {
    && m.type_ == n.type_ && m.extra == n.extra && |m.properties| == |n.properties|
    && m.min in {n.min, None} && m.max in {n.max, None}
    && (forall k :: 0 <= k < |n.properties| ==> LoosenedRow(n.properties[k], m.properties[k], Has(n.extra, ADDITIONAL)))
    && (forall k :: 0 <= k < |n.properties| ==> Loosened(n.properties[k].node, m.properties[k].node))
    && (n.items.Items? <==> m.items.Items?)
    && (n.items.Items? ==> Loosened(n.items.node, m.items.node))
  }

  ghost predicate LoosenedRow(p: Property, q: Property, closed: bool) {
    && q.name == p.name
    && (p.ignored ==> q.ignored)
    && (closed ==> q.ignored == p.ignored)
    && (q.node.required ==> p.node.required)
  }

  ghost predicate DistinctRows(ps: seq<Property>) { forall i, j :: 0 <= i < j < |ps| ==> ps[i].name != ps[j].name }

  /** The rows write one property each, under their own names. */
  lemma {:induction false} EntryOf(ps: seq<Property>, k: nat)
    requires DistinctRows(ps) && k < |ps|
    ensures Lookup(Entries(ps), ps[k].name) == if ps[k].ignored then None else Some(NodeToSchema(ps[k].node))
  {
    var init, last := ps[..|ps| - 1], ps[|ps| - 1];
    hide NodeToSchema, Put;
    if k < |ps| - 1 { EntryOf(init, k); } else { NoEntryFor(init, last.name); }
    LookupPut(Entries(init), last.name, NodeToSchema(last.node), ps[k].name);
  }

  lemma {:induction false} NoEntryFor(ps: seq<Property>, name: string)
    requires forall k :: 0 <= k < |ps| ==> ps[k].name != name
    ensures Lookup(Entries(ps), name) == None
  {
    if ps != [] {
      var init, last := ps[..|ps| - 1], ps[|ps| - 1];
      hide NodeToSchema, Put;
      NoEntryFor(init, name);
      LookupPut(Entries(init), last.name, NodeToSchema(last.node), name);
    }
  }

  lemma {:induction false} EntriesDistinct(ps: seq<Property>)
    ensures DistinctKeys(Entries(ps))
  {
    if ps != [] {
      var init, last := ps[..|ps| - 1], ps[|ps| - 1];
      hide NodeToSchema, Put;
      EntriesDistinct(init);
      LookupPut(Entries(init), last.name, NodeToSchema(last.node), last.name);
    }
  }

  lemma {:induction false} PromisedName(ps: seq<Property>, name: Json)
    ensures name in RequiredNames(ps)
            <==> exists k :: 0 <= k < |ps| && !ps[k].ignored && ps[k].node.required && name == Str(ps[k].name)
  {
    hide RequiredNames;
    if ps == [] {
      NothingPromised();
    } else {
      var init, last := ps[..|ps| - 1], ps[|ps| - 1];
      PromisedName(init, name);
      PromisedStep(init, last, name);
      assert ps == init + [last];
    }
  }

  const BOUNDS := {MINIMUM, MAXIMUM, MIN_LENGTH, MAX_LENGTH, MIN_ITEMS, MAX_ITEMS}

  /** The relation between one keyword before (`a`) and after (`b`) the edits. */
  ghost predicate KeywordLoosened(q: string, a: Option<Json>, b: Option<Json>) {
    if q in {PROPERTIES, ITEMS} then true
    else if q in BOUNDS then b == a || b == None
    else if q == REQUIRED then
      b == a || b == None || (a.Some? && a.value.Arr? && b.value.Arr?
          && forall name <- b.value.items :: name in a.value.items)
    else b == a
  }

  lemma LookupLoosened(n: Node, m: Node, s: seq<Member>, t: seq<Member>, q: string)
    requires WellShaped(n) && Loosened(n, m) && NodeToSchema(n) == Obj(s) && NodeToSchema(m) == Obj(t)
    ensures KeywordLoosened(q, Lookup(s, q), Lookup(t, q))
    ensures Has(n.extra, q) ==> Lookup(s, q) == Lookup(t, q)
  {
    EdgesLoosened(n, m);
    BaseLoosened(n, m, q);
    hide NodeToSchema, Find, Loosened, WellShaped, BaseSays, DistinctKeys;
    BaseLookup(n, q);
    BaseLookup(m, q);
  }

  lemma BaseLoosened(n: Node, m: Node, q: string)
    requires WellShaped(n) && Loosened(n, m)
    ensures KeywordLoosened(q, BaseSays(n, q), BaseSays(m, q))
  {
    EdgesLoosened(n, m);
    forall name ensures name in RequiredNames(m.properties) ==> name in RequiredNames(n.properties) {
      PromisedLoosened(n, m, name);
    }
    assert RequiredNames(m.properties) != [] ==> RequiredNames(m.properties)[0] in RequiredNames(n.properties);
    hide NodeToSchema, Entries, RequiredNames, Loosened, WellShaped;
  }

  lemma PromisedLoosened(n: Node, m: Node, name: Json)
    requires WellShaped(n) && Loosened(n, m)
    ensures name in RequiredNames(m.properties) ==> name in RequiredNames(n.properties)
  {
    PromisedName(m.properties, name);
    PromisedName(n.properties, name);
    hide RequiredNames;
  }

  lemma EdgesLoosened(n: Node, m: Node)
    requires WellShaped(n) && Loosened(n, m)
    ensures m.type_ == n.type_ && m.extra == n.extra && m.min in {n.min, None} && m.max in {n.max, None}
    ensures DistinctKeys(n.extra)
    ensures n.items.Items? <==> m.items.Items?
  {
  }

  lemma OwnLoosened(s: seq<Member>, t: seq<Member>, v: Json)
    requires forall q :: KeywordLoosened(q, Lookup(s, q), Lookup(t, q))
    requires SatisfiesOwn(s, v)
    ensures SatisfiesOwn(t, v)
  {
    assert KeywordLoosened(TYPE, Lookup(s, TYPE), Lookup(t, TYPE));
    assert KeywordLoosened(CONST, Lookup(s, CONST), Lookup(t, CONST));
    assert KeywordLoosened(ENUM, Lookup(s, ENUM), Lookup(t, ENUM));
    assert KeywordLoosened(REQUIRED, Lookup(s, REQUIRED), Lookup(t, REQUIRED));
    forall q <- BOUNDS ensures HasBound(t, q) ==> HasBound(s, q) && BoundOf(t, q) == BoundOf(s, q) {
      assert KeywordLoosened(q, Lookup(s, q), Lookup(t, q));
    }
    hide Find, Same, KeywordLoosened;
  }

  /** Whatever an edit of this kind is applied to, and however deep, no value the draft accepted is refused. */
  lemma {:induction false} LooseningAccepts(n: Node, m: Node, v: Json)
    requires WellShaped(n) && Loosened(n, m)
    ensures Satisfies(NodeToSchema(n), v) ==> Satisfies(NodeToSchema(m), v)
    decreases n, 1
  {
    BaseLookup(n, TYPE);
    BaseLookup(m, TYPE);
    var s, t := NodeToSchema(n).members, NodeToSchema(m).members;
    hide NodeToSchema, SatisfiesOwn, Find, SatisfiesInside, Loosened, WellShaped, KeywordLoosened, ExactlyOne, Verdicts;
    forall q ensures KeywordLoosened(q, Lookup(s, q), Lookup(t, q)) { LookupLoosened(n, m, s, t, q); }
    if Satisfies(Obj(s), v) {
      OwnLoosened(s, t, v);
      InsideLoosened(n, m, s, t, v);
      LookupLoosened(n, m, s, t, ONE_OF);
      SameBranches(s, t, v);
    }
  }

  lemma SameBranches(s: seq<Member>, t: seq<Member>, v: Json)
    requires KeywordLoosened(ONE_OF, Lookup(s, ONE_OF), Lookup(t, ONE_OF))
    requires Satisfies(Obj(s), v) && SatisfiesOwn(t, v) && SatisfiesInside(Obj(t), v)
    ensures Satisfies(Obj(t), v)
  {
    hide SatisfiesOwn, SatisfiesInside, Find, Verdicts, ExactlyOne;
  }

  lemma {:induction false} InsideLoosened(n: Node, m: Node, s: seq<Member>, t: seq<Member>, v: Json)
    requires WellShaped(n) && Loosened(n, m) && NodeToSchema(n) == Obj(s) && NodeToSchema(m) == Obj(t)
    requires SatisfiesInside(Obj(s), v)
    ensures SatisfiesInside(Obj(t), v)
    decreases n, 0, 2
  {
    if v.Arr? {
      hide NodeToSchema, Find, Entries, RequiredNames, Satisfies, DistinctKeys;
      EdgesLoosened(n, m);
      LookupLoosened(n, m, s, t, ITEMS);
      BaseLookup(n, ITEMS);
      BaseLookup(m, ITEMS);
      if Has(t, ITEMS) && !Has(n.extra, ITEMS) {
        forall i | 0 <= i < |v.items| ensures Satisfies(At(t, ITEMS), v.items[i]) {
          LooseningAccepts(n.items.node, m.items.node, v.items[i]);
        }
      }
    } else if v.Obj? {
      hide NodeToSchema, Find, SatisfiesInside, PropertiesHold, AdditionalHolds, Loosened, WellShaped;
      InsideOfObject(s, v.members);
      InsideOfObject(t, v.members);
      PropertiesLoosened(n, m, s, t, v);
      AdditionalLoosened(n, m, s, t, v);
    }
  }

  lemma DeclaredOf(n: Node, s: seq<Member>)
    requires DistinctKeys(n.extra) && NodeToSchema(n) == Obj(s) && !Has(n.extra, PROPERTIES)
    ensures DeclaredProperties(s) == Obj(if n.type_ == OBJECT then Entries(n.properties) else [])
  {
    BaseLookup(n, PROPERTIES);
    hide NodeToSchema, Find, Entries;
  }

  /** A property that is written was written by one of the rows. */
  lemma EntryFrom(ps: seq<Property>, i: nat) returns (k: nat)
    requires DistinctRows(ps) && i < |Entries(ps)|
    ensures k < |ps| && !ps[k].ignored && Entries(ps)[i] == Member(ps[k].name, NodeToSchema(ps[k].node))
  {
    var key := Entries(ps)[i].key;
    EntriesDistinct(ps);
    HasAt(Entries(ps), i);
    if forall j :: 0 <= j < |ps| ==> ps[j].name != key { NoEntryFor(ps, key); }
    k :| 0 <= k < |ps| && ps[k].name == key;
    EntryOf(ps, k);
    hide NodeToSchema, Entries, Find;
  }

  lemma {:induction false} PropertiesLoosened(n: Node, m: Node, s: seq<Member>, t: seq<Member>, v: Json)
    requires WellShaped(n) && Loosened(n, m) && NodeToSchema(n) == Obj(s) && NodeToSchema(m) == Obj(t)
    requires v.Obj? && PropertiesHold(s, v.members)
    ensures PropertiesHold(t, v.members)
    decreases n, 0, 1
  {
    EdgesLoosened(n, m);
    hide NodeToSchema, Find, Entries, Satisfies, Loosened, WellShaped;
    LookupLoosened(n, m, s, t, PROPERTIES);
    if Has(n.extra, PROPERTIES) {
      assert DeclaredProperties(t) == DeclaredProperties(s);
    } else {
      DeclaredOf(n, s);
      DeclaredOf(m, t);
      hide DeclaredProperties;
      if n.type_ == OBJECT {
        forall i | 0 <= i < |Entries(m.properties)| && Has(v.members, Entries(m.properties)[i].key)
          ensures Satisfies(Entries(m.properties)[i].value, At(v.members, Entries(m.properties)[i].key))
        {
          EntryHolds(n, m, s, v, i);
        }
      }
    }
  }

  lemma {:induction false} EntryHolds(n: Node, m: Node, s: seq<Member>, v: Json, i: nat)
    requires WellShaped(n) && Loosened(n, m) && DeclaredProperties(s) == Obj(Entries(n.properties))
    requires v.Obj? && PropertiesHold(s, v.members)
    requires i < |Entries(m.properties)| && Has(v.members, Entries(m.properties)[i].key)
    ensures Satisfies(Entries(m.properties)[i].value, At(v.members, Entries(m.properties)[i].key))
    decreases n, 0, 0
  {
    hide NodeToSchema, Find, Entries, Satisfies, DeclaredProperties, PropertiesHold;
    var k := EntryFrom(m.properties, i);
    EntryOf(n.properties, k);
    RowHolds(s, v.members, n.properties[k].name);
    LooseningAccepts(n.properties[k].node, m.properties[k].node, At(v.members, Entries(m.properties)[i].key));
  }

  lemma RowHolds(s: seq<Member>, members: seq<Member>, name: string)
    requires PropertiesHold(s, members) && Has(DeclaredProperties(s).members, name) && Has(members, name)
    ensures Satisfies(At(DeclaredProperties(s).members, name), At(members, name))
  {
    hide Satisfies, DeclaredProperties;
  }

  lemma AdditionalLoosened(n: Node, m: Node, s: seq<Member>, t: seq<Member>, v: Json)
    requires WellShaped(n) && Loosened(n, m) && NodeToSchema(n) == Obj(s) && NodeToSchema(m) == Obj(t)
    requires v.Obj? && AdditionalHolds(s, v.members)
    ensures AdditionalHolds(t, v.members)
  {
    EdgesLoosened(n, m);
    LookupLoosened(n, m, s, t, ADDITIONAL);
    BaseLookup(n, ADDITIONAL);
    hide NodeToSchema, Find, Entries, Satisfies, AdditionalHolds;
    if Has(n.extra, ADDITIONAL) {
      forall q ensures Has(DeclaredProperties(t).members, q) <==> Has(DeclaredProperties(s).members, q) {
        DeclaredLoosened(n, m, s, t, q);
      }
      SameAdditional(s, t, v.members);
    } else {
      NoAdditional(t, v.members);
    }
  }

  lemma NoAdditional(t: seq<Member>, members: seq<Member>)
    requires !Has(t, ADDITIONAL)
    ensures AdditionalHolds(t, members)
  {
  }

  /** An object that forbids unknown members still declares the same ones. */
  lemma DeclaredLoosened(n: Node, m: Node, s: seq<Member>, t: seq<Member>, q: string)
    requires WellShaped(n) && Loosened(n, m) && NodeToSchema(n) == Obj(s) && NodeToSchema(m) == Obj(t)
    requires Has(n.extra, ADDITIONAL)
    ensures Has(DeclaredProperties(t).members, q) <==> Has(DeclaredProperties(s).members, q)
  {
    EdgesLoosened(n, m);
    LookupLoosened(n, m, s, t, PROPERTIES);
    hide NodeToSchema, Find, Entries;
    if !Has(n.extra, PROPERTIES) {
      DeclaredOf(n, s);
      DeclaredOf(m, t);
      hide DeclaredProperties, WellShaped, Loosened;
      SameNames(n, m, q);
    }
  }

  lemma SameNames(n: Node, m: Node, q: string)
    requires WellShaped(n) && Loosened(n, m) && Has(n.extra, ADDITIONAL)
    ensures Has(Entries(m.properties), q) <==> Has(Entries(n.properties), q)
  {
    if k :| 0 <= k < |n.properties| && n.properties[k].name == q {
      EntryOf(n.properties, k);
      EntryOf(m.properties, k);
    } else {
      NoEntryFor(n.properties, q);
      NoEntryFor(m.properties, q);
    }
    hide Find, Entries, NodeToSchema;
  }

  // ---------------------------------------------------------------- what the engine says of an edited sample

  /** A tree the composer can hold: known types, bounds the schema subset allows, and extras it enforces. */
  ghost predicate Composable(n: Node)
    decreases n
  {
    && WellShaped(n)
    && (n.type_ == ANY || n.type_ in TYPE_NAMES)
    && (forall q :: Has(n.extra, q) ==> KeywordAccepted(q, At(n.extra, q)) && WellFormed(At(n.extra, q)))
    && (n.type_ in {STRING, ARRAY} ==>
          forall bound <- {n.min, n.max} :: bound.Some? ==> NonNegativeInteger(Num(bound.value)))
    && (forall i :: 0 <= i < |n.properties| ==> Composable(n.properties[i].node))
    && (n.items.Items? ==> Composable(n.items.node))
  }

  lemma {:induction false} EntriesAdmitted(n: Node)
    requires Composable(n)
    ensures KeywordAccepted(PROPERTIES, Obj(Entries(n.properties))) && WellFormed(Obj(Entries(n.properties)))
    decreases n, 0
  {
    hide NodeToSchema, Entries, Accepted, KeywordAccepted, DistinctKeys;
    EntriesDistinct(n.properties);
    forall i | 0 <= i < |Entries(n.properties)|
      ensures Accepted(Entries(n.properties)[i].value) && WellFormed(Entries(n.properties)[i].value)
    {
      var k := EntryFrom(n.properties, i);
      TreeAdmitted(n.properties[k].node);
    }
    ObjectAdmitted(Entries(n.properties), Entries(n.properties));
  }

  lemma {:induction false} SaidAdmitted(n: Node, q: string)
    requires Composable(n) && BaseSays(n, q).Some?
    ensures KeywordAccepted(q, BaseSays(n, q).value) && WellFormed(BaseSays(n, q).value)
    decreases n, 1
  {
    hide NodeToSchema, Entries, Accepted, RequiredNames, KeywordAccepted, Find, WellFormed, WellShaped;
    if q == PROPERTIES {
      hide Composable;
      EntriesAdmitted(n);
    } else if q == ITEMS {
      TreeAdmitted(n.items.node);
      ItemsAdmitted(NodeToSchema(n.items.node));
    } else if q == REQUIRED {
      hide Composable;
      RequiredNamesAreStrings(n.properties);
      NamesAdmitted(RequiredNames(n.properties));
    } else {
      hide Composable;
      ScalarSaidAdmitted(n, q);
    }
  }

  lemma ItemsAdmitted(s: Json)
    requires Admitted(s)
    ensures KeywordAccepted(ITEMS, s) && WellFormed(s)
  {
    hide Accepted, WellFormed;
  }

  lemma NamesAdmitted(names: seq<Json>)
    requires forall name <- names :: name.Str?
    ensures KeywordAccepted(REQUIRED, Arr(names)) && WellFormed(Arr(names))
  {
  }

  lemma ScalarSaidAdmitted(n: Node, q: string)
    requires Composable(n) && BaseSays(n, q).Some? && q !in {REQUIRED, PROPERTIES, ITEMS}
    ensures KeywordAccepted(q, BaseSays(n, q).value) && WellFormed(BaseSays(n, q).value)
  {
    assert n.type_ == ANY || n.type_ in TYPE_NAMES;
    assert n.type_ in {STRING, ARRAY} ==>
        forall bound <- {n.min, n.max} :: bound.Some? ==> NonNegativeInteger(Num(bound.value));
    hide Composable, NodeToSchema, Entries, Accepted, RequiredNames, NonNegativeInteger;
  }

  /** Every such tree is written as a schema the engine admits. */
  lemma {:induction false} TreeAdmitted(n: Node)
    requires Composable(n)
    ensures Admitted(NodeToSchema(n))
    decreases n, 2
  {
    NodeSchemaDistinct(n);
    var t := NodeToSchema(n).members;
    assert DistinctKeys(n.extra);
    hide NodeToSchema, BaseSays, KeywordAccepted, Accepted, DistinctKeys, Find;
    forall q | Has(t, q) ensures KeywordAccepted(q, At(t, q)) && WellFormed(At(t, q)) {
      BaseLookup(n, q);
      if !Has(n.extra, q) { SaidAdmitted(n, q); }
    }
    KeywordsMeanAccepted(t);
    forall i | 0 <= i < |t| ensures WellFormed(t[i].value) { HasAt(t, i); }
  }

  lemma {:induction false} InferredIsComposable(v: Json)
    requires WellFormed(v)
    ensures Composable(InferNode(v))
    decreases v
  {
    InferredIsPromised(v);
    match v
    case Obj(ms) =>
      forall i | 0 <= i < |ms|
        ensures InferProperties(v, |ms|)[i] == Property(ms[i].key, InferNode(ms[i].value), false) {
        RowOfSample(v, |ms|, i);
      }
      forall i | 0 <= i < |ms| ensures Composable(InferNode(ms[i].value)) { InferredIsComposable(ms[i].value); }
    case Arr(items) => if items != [] { InferredIsComposable(items[0]); }
    case _ =>
  }

  lemma {:induction false} RowOfSample(v: Json, n: nat, i: nat)
    requires v.Obj? && i < n <= |v.members|
    ensures InferProperties(v, n)[i] == Property(v.members[i].key, InferNode(v.members[i].value), false)
    decreases n
  {
    hide InferNode;
    if i < n - 1 { RowOfSample(v, n - 1, i); }
  }

  lemma {:induction false} LoosenedIsComposable(n: Node, m: Node)
    requires Composable(n) && Loosened(n, m)
    ensures Composable(m)
    decreases n
  {
    forall i | 0 <= i < |n.properties| ensures Composable(m.properties[i].node) {
      LoosenedIsComposable(n.properties[i].node, m.properties[i].node);
    }
    if n.items.Items? { LoosenedIsComposable(n.items.node, m.items.node); }
  }

  /** The engine passes a response against the schema inferred from it exactly when its arrays are uniform, and
      then also against every loosening of that draft. */
  lemma SamplePasses(v: Json, m: Node)
    requires WellFormed(v) && Loosened(InferNode(v), m)
    ensures Check(SampleSchema(v), v, "").Conforms? <==> Uniform(v)
    ensures Uniform(v) ==> Check(NodeToSchema(m), v, "").Conforms?
  {
    hide *;
    InferredIsComposable(v);
    LoosenedIsComposable(InferNode(v), m);
    TreeAdmitted(m);
    TreeAdmitted(InferNode(v));
    ComposableIsShaped(InferNode(v));
    SampleFits(v);
    LooseningAccepts(InferNode(v), m, v);
    SampleSchemaIs(v);
    CheckMeans(SampleSchema(v), v, "");
    CheckMeans(NodeToSchema(m), v, "");
  }

  lemma ComposableIsShaped(n: Node)
    requires Composable(n)
    ensures WellShaped(n)
  {
  }

  lemma SampleSchemaIs(v: Json)
    ensures SampleSchema(v) == NodeToSchema(InferNode(v))
  {
  }
}
