/** Editing as text: when the schema written back is the very text that was read, member order and all. */
module SlaComposerText {
  import opened Basics
  import opened JsonValues
  import opened JsonSchema
  import opened JsonSchemaMeaning
  import opened SlaComposer
  import opened SlaComposerMeaning
  import opened SlaComposerLosses

  // ---------------------------------------------------------------- members that are appended

  function Opt(key: string, value: Option<Json>): seq<Member> {
    if value.Some? then [Member(key, value.value)] else []
  }

  ghost predicate NoKey(ms: seq<Member>, key: string) { forall i :: 0 <= i < |ms| ==> ms[i].key != key }

  lemma PutSomeNew(ms: seq<Member>, key: string, value: Option<Json>)
    requires NoKey(ms, key)
    ensures PutSome(ms, key, value) == ms + Opt(key, value)
  {
    if value.Some? { PutNew(ms, key, value.value); }
  }

  lemma {:induction false} SpreadNew(base: seq<Member>, extra: seq<Member>)
    requires DistinctKeys(extra) && forall i :: 0 <= i < |extra| ==> NoKey(base, extra[i].key)
    ensures Spread(base, extra) == base + extra
  {
    if extra != [] {
      var init, last := extra[..|extra| - 1], extra[|extra| - 1];
      SpreadNew(base, init);
      PutNew(base + init, last.key, last.value);
      assert extra == init + [last];
    }
  }

  /** What a node writes before its extras, in the order the code writes it. */
  ghost function BaseMembers(n: Node): seq<Member> {
    var bounds := BoundKeywords(n.type_);
    Opt(TYPE, BaseSays(n, TYPE)) + Opt(REQUIRED, BaseSays(n, REQUIRED)) + Opt(PROPERTIES, BaseSays(n, PROPERTIES))
    + Opt(ITEMS, BaseSays(n, ITEMS))
    + (if bounds.Some? then
         Opt(bounds.value.0, BaseSays(n, bounds.value.0)) + Opt(bounds.value.1, BaseSays(n, bounds.value.1))
       else [])
  }

  lemma FilledInOrder(t: Option<Json>, r: Option<Json>, p: Option<Json>, i: Option<Json>)
    ensures PutSome(PutSome(PutSome(PutSome([], TYPE, t), REQUIRED, r), PROPERTIES, p), ITEMS, i)
            == Opt(TYPE, t) + Opt(REQUIRED, r) + Opt(PROPERTIES, p) + Opt(ITEMS, i)
  {
    hide Put, PutSome;
    var a := Opt(TYPE, t);
    var b := a + Opt(REQUIRED, r);
    assert [] + a == a;
    PutSomeNew([], TYPE, t);
    PutSomeNew(a, REQUIRED, r);
    PutSomeNew(b, PROPERTIES, p);
    PutSomeNew(b + Opt(PROPERTIES, p), ITEMS, i);
  }

  lemma WritesBaseThenExtras(n: Node)
    requires DistinctKeys(n.extra) && forall i :: 0 <= i < |n.extra| ==> NoKey(BaseMembers(n), n.extra[i].key)
    ensures NodeToSchema(n) == Obj(BaseMembers(n) + n.extra)
  {
    hide Entries, RequiredNames, Put, DistinctKeys, Spread, PutSome;
    FilledInOrder(BaseSays(n, TYPE), BaseSays(n, REQUIRED), BaseSays(n, PROPERTIES), BaseSays(n, ITEMS));
    var d := Opt(TYPE, BaseSays(n, TYPE)) + Opt(REQUIRED, BaseSays(n, REQUIRED))
      + Opt(PROPERTIES, BaseSays(n, PROPERTIES)) + Opt(ITEMS, BaseSays(n, ITEMS));
    var bounds := BoundKeywords(n.type_);
    if bounds.Some? {
      PutSomeNew(d, bounds.value.0, BaseSays(n, bounds.value.0));
      var e := d + Opt(bounds.value.0, BaseSays(n, bounds.value.0));
      PutSomeNew(e, bounds.value.1, BaseSays(n, bounds.value.1));
      assert e + Opt(bounds.value.1, BaseSays(n, bounds.value.1)) == BaseMembers(n);
    } else {
      assert BaseMembers(n) == d;
    }
    SpreadNew(BaseMembers(n), n.extra);
  }

  // ---------------------------------------------------------------- a tree that is written and read again

  /** A tree as the composer shows it: a control only where its type has one, distinct names, no field ignored,
      and verbatim only keywords it has no control for. */
  ghost predicate Shown(n: Node)
    decreases n
  {
    && (BoundKeywords(n.type_).None? ==> n.min.None? && n.max.None?)
    && (n.type_ != OBJECT ==> n.properties == [])
    && (n.type_ != ARRAY ==> n.items == NoItems)
    && (forall i, j :: 0 <= i < j < |n.properties| ==> n.properties[i].name != n.properties[j].name)
    && (forall i :: 0 <= i < |n.properties| ==> !n.properties[i].ignored && Shown(n.properties[i].node))
    && (n.items.Items? ==> n.items.node.required && Shown(n.items.node))
    && DistinctKeys(n.extra) && (forall m <- n.extra :: m.key !in MODELLED)
  }

  ghost predicate NamesDiffer(rows: seq<Property>) {
    forall i, j :: 0 <= i < j < |rows| ==> rows[i].name != rows[j].name
  }

  ghost predicate NoneIgnored(rows: seq<Property>) { forall i :: 0 <= i < |rows| ==> !rows[i].ignored }

  /** One entry per row, in order. */
  lemma {:induction false} EntriesInOrder(rows: seq<Property>)
    requires NamesDiffer(rows) && NoneIgnored(rows)
    ensures |Entries(rows)| == |rows|
    ensures forall i :: 0 <= i < |rows| ==> Entries(rows)[i] == Member(rows[i].name, NodeToSchema(rows[i].node))
  {
    hide NodeToSchema, Put;
    if rows != [] {
      var init, last := rows[..|rows| - 1], rows[|rows| - 1];
      EntriesInOrder(init);
      PutNew(Entries(init), last.name, NodeToSchema(last.node));
    }
  }

  lemma {:induction false} PromisedAreFlagged(rows: seq<Property>, name: Json)
    requires NoneIgnored(rows)
    ensures name in RequiredNames(rows) <==>
              exists i :: 0 <= i < |rows| && rows[i].node.required && name == Str(rows[i].name)
  {
    if rows != [] {
      var init, last := rows[..|rows| - 1], rows[|rows| - 1];
      PromisedAreFlagged(init, name);
      assert rows == init + [last];
      if last.node.required && name == Str(last.name) { assert rows[|rows| - 1].node.required; }
    }
  }

  lemma KeptVerbatim(type_: string, m: Member)
    requires m.key !in MODELLED
    ensures Kept(type_, [], m) == Some(m.value)
  {
  }

  lemma {:induction false} NothingKept(type_: string, base: seq<Member>)
    requires forall m <- base :: Kept(type_, [], m).None?
    ensures Extras(type_, [], base) == []
  {
    hide Kept, Put;
    if base != [] {
      assert base[|base| - 1] in base;
      NothingKept(type_, base[..|base| - 1]);
    }
  }

  /** The members a node writes itself leave nothing for the extras; the extras come back as they are. */
  lemma {:induction false} ExtrasComeBack(type_: string, base: seq<Member>, extra: seq<Member>)
    requires forall m <- base :: Kept(type_, [], m).None?
    requires DistinctKeys(extra) && forall m <- extra :: m.key !in MODELLED
    ensures Extras(type_, [], base + extra) == extra
  {
    hide Kept, Put, Find;
    if extra == [] {
      assert base + extra == base;
      NothingKept(type_, base);
    } else {
      var init, last := extra[..|extra| - 1], extra[|extra| - 1];
      assert extra == init + [last];
      ExtrasComeBack(type_, base, init);
      KeptVerbatim(type_, last);
      PutNew(init, last.key, last.value);
      ExtrasStep(type_, base + init, last);
      assert base + extra == base + init + [last];
    }
  }

  lemma ExtrasStep(type_: string, ms: seq<Member>, last: Member)
    ensures Extras(type_, [], ms + [last]) == PutSome(Extras(type_, [], ms), last.key, Kept(type_, [], last))
  {
    hide Kept, Put, Find;
    assert (ms + [last])[..|ms|] == ms;
  }

  /** What the keyword loop drops of what a node writes itself: everything but `required`, when some required
      name is undeclared. */
  lemma BaseIsNotKept(n: Node)
    requires Shown(n)
    ensures forall m <- BaseMembers(n) :: Kept(n.type_, [], m).None?
    ensures forall m <- BaseMembers(n) :: m.key in MODELLED
  {
    hide Entries, RequiredNames, NodeToSchema, DistinctKeys;
  }

  lemma WrittenMembers(n: Node)
    requires Shown(n)
    ensures NodeToSchema(n) == Obj(BaseMembers(n) + n.extra)
    ensures forall q :: Lookup(BaseMembers(n) + n.extra, q)
                        == if Has(n.extra, q) then Lookup(n.extra, q) else BaseSays(n, q)
    ensures forall q <- MODELLED :: !Has(n.extra, q)
  {
    hide BaseMembers, BaseSays, NodeToSchema, DistinctKeys;
    BaseIsNotKept(n);
    forall i | 0 <= i < |n.extra| ensures NoKey(BaseMembers(n), n.extra[i].key) { assert n.extra[i] in n.extra; }
    WritesBaseThenExtras(n);
    forall q ensures Lookup(BaseMembers(n) + n.extra, q)
                     == if Has(n.extra, q) then Lookup(n.extra, q) else BaseSays(n, q) {
      BaseLookup(n, q);
    }
  }

  /** Rows read from entries that were written from them. */
  lemma {:induction false} RowsComeBack(entries: seq<Member>, required: seq<Json>, rows: seq<Property>, k: nat)
    requires k <= |rows| == |entries| && NoneIgnored(rows)
    requires forall i :: 0 <= i < |rows| ==>
      && entries[i].key == rows[i].name
      && (Str(rows[i].name) in required <==> rows[i].node.required)
      && SchemaToNode(entries[i].value, rows[i].node.required) == rows[i].node
    ensures Rows(Obj(entries), required, k) == rows[..k]
  {
    hide SchemaToNode;
    if k > 0 {
      RowsComeBack(entries, required, rows, k - 1);
      assert rows[..k] == rows[..k - 1] + [rows[k - 1]];
    }
  }

  lemma FlaggedAreRequired(rows: seq<Property>, i: nat)
    requires NoneIgnored(rows) && NamesDiffer(rows) && i < |rows|
    ensures Str(rows[i].name) in RequiredNames(rows) <==> rows[i].node.required
  {
    PromisedAreFlagged(rows, Str(rows[i].name));
  }

  /** What a node of fields reads back from the members it wrote. */
  lemma PropertiesComeBack(n: Node, t: seq<Member>)
    requires Shown(n) && n.type_ == OBJECT && n.properties != []
    requires forall q <- MODELLED :: Lookup(t, q) == BaseSays(n, q)
    requires forall i :: 0 <= i < |n.properties| ==>
      SchemaToNode(NodeToSchema(n.properties[i].node), n.properties[i].node.required) == n.properties[i].node
    ensures Has(t, PROPERTIES) && At(t, PROPERTIES) == Obj(Entries(n.properties))
    ensures Rows(At(t, PROPERTIES), RequiredOf(t), |Entries(n.properties)|) == n.properties
  {
    hide SchemaToNode, NodeToSchema, Shown, RequiredNames, Rows, Entries, Dedupe;
    ShownRows(n);
    EntriesInOrder(n.properties);
    assert Lookup(t, PROPERTIES) == BaseSays(n, PROPERTIES) && Lookup(t, REQUIRED) == BaseSays(n, REQUIRED);
    forall i | 0 <= i < |n.properties|
      ensures Str(n.properties[i].name) in RequiredOf(t) <==> n.properties[i].node.required
    {
      FlaggedAreRequired(n.properties, i);
      DedupeKeeps(RequiredNames(n.properties), Str(n.properties[i].name));
    }
    RowsComeBack(Entries(n.properties), RequiredOf(t), n.properties, |n.properties|);
    assert n.properties[..|n.properties|] == n.properties;
  }

  lemma ShownRows(n: Node)
    requires Shown(n)
    ensures NamesDiffer(n.properties) && NoneIgnored(n.properties)
  {
  }

  /** Every name a node promises is one it declares. */
  lemma NothingOrphanedBy(n: Node, t: seq<Member>)
    requires Shown(n) && forall q <- MODELLED :: Lookup(t, q) == BaseSays(n, q)
    ensures OrphansOf(t) == []
  {
    hide NodeToSchema, Shown, RequiredNames, Entries, Dedupe, Orphans;
    ShownRows(n);
    assert Lookup(t, PROPERTIES) == BaseSays(n, PROPERTIES) && Lookup(t, REQUIRED) == BaseSays(n, REQUIRED);
    EntriesInOrder(n.properties);
    forall i | 0 <= i < |n.properties| ensures Has(Entries(n.properties), n.properties[i].name) {
      HasAt(Entries(n.properties), i);
    }
    forall name ensures name !in OrphansOf(t) {
      OrphansAre(RequiredOf(t), DeclaredProperties(t).members, name);
      DedupeKeeps(RequiredNames(n.properties), name);
      PromisedAreFlagged(n.properties, name);
    }
    EmptyOrNot(OrphansOf(t));
  }

  lemma EmptyOrNot<T>(xs: seq<T>)
    ensures xs == [] || exists x :: x in xs
  {
    if xs != [] { assert xs[0] in xs; }
  }

  lemma OneBoundComesBack(t: seq<Member>, key: string, bound: Option<real>)
    requires Lookup(t, key) == NumberAt(bound)
    ensures BoundAt(t, key) == bound
  {
  }

  lemma SaysBounds(n: Node)
    ensures BoundKeywords(n.type_).Some? ==>
      && BaseSays(n, BoundKeywords(n.type_).value.0) == NumberAt(n.min)
      && BaseSays(n, BoundKeywords(n.type_).value.1) == NumberAt(n.max)
      && BoundKeywords(n.type_).value.0 in MODELLED && BoundKeywords(n.type_).value.1 in MODELLED
  {
    hide NodeToSchema, Entries, RequiredNames, Find;
  }

  lemma TypeAndBoundsComeBack(n: Node, t: seq<Member>)
    requires forall q <- MODELLED :: Lookup(t, q) == BaseSays(n, q)
    ensures TypeOf(t) == n.type_
    ensures BoundKeywords(n.type_).Some? ==>
      BoundAt(t, BoundKeywords(n.type_).value.0) == n.min && BoundAt(t, BoundKeywords(n.type_).value.1) == n.max
  {
    hide NodeToSchema, Entries, RequiredNames, Find, BoundAt, BoundKeywords;
    assert Lookup(t, TYPE) == BaseSays(n, TYPE);
    SaysBounds(n);
    if BoundKeywords(n.type_).Some? {
      OneBoundComesBack(t, BoundKeywords(n.type_).value.0, n.min);
      OneBoundComesBack(t, BoundKeywords(n.type_).value.1, n.max);
    }
  }

  lemma NoPropertiesComeBack(n: Node, t: seq<Member>)
    requires n.properties == [] && Lookup(t, PROPERTIES) == BaseSays(n, PROPERTIES)
    ensures !Has(t, PROPERTIES)
  {
    NoEntries();
  }

  lemma {:induction false} ChildrenComeBack(n: Node)
    requires Shown(n)
    ensures forall i :: 0 <= i < |n.properties| ==>
      SchemaToNode(NodeToSchema(n.properties[i].node), n.properties[i].node.required) == n.properties[i].node
    ensures n.items.Items? ==> SchemaToNode(NodeToSchema(n.items.node), true) == n.items.node
    decreases n, 0
  {
    hide SchemaToNode, NodeToSchema, DistinctKeys;
    forall i | 0 <= i < |n.properties|
      ensures SchemaToNode(NodeToSchema(n.properties[i].node), n.properties[i].node.required) == n.properties[i].node
    {
      TreeComesBack(n.properties[i].node);
    }
    if n.items.Items? { TreeComesBack(n.items.node); }
  }

  /** Every tree the composer can show is read back, field for field, from the schema written for it. */
  lemma {:induction false} TreeComesBack(n: Node)
    requires Shown(n)
    ensures SchemaToNode(NodeToSchema(n), n.required) == n
    decreases n, 1
  {
    hide NodeToSchema, Shown, BaseMembers, BaseSays, Rows, Extras, Entries, RequiredOf, OrphansOf, Find;
    var t := BaseMembers(n) + n.extra;
    WrittenMembers(n);
    ChildrenComeBack(n);
    TypeAndBoundsComeBack(n, t);
    NothingOrphanedBy(n, t);
    BaseIsNotKept(n);
    ShownExtras(n);
    ExtrasComeBack(n.type_, BaseMembers(n), n.extra);
    ItemsComeBack(n, t);
    if n.type_ == OBJECT && n.properties != [] {
      PropertiesComeBack(n, t);
    } else {
      ShownShape(n);
      NoPropertiesComeBack(n, t);
    }
    ShownShape(n);
  }

  lemma ShownExtras(n: Node)
    requires Shown(n)
    ensures DistinctKeys(n.extra) && forall m <- n.extra :: m.key !in MODELLED
  {
  }

  lemma ShownShape(n: Node)
    requires Shown(n)
    ensures BoundKeywords(n.type_).None? ==> n.min.None? && n.max.None?
    ensures (n.type_ != OBJECT ==> n.properties == []) && (n.type_ != ARRAY ==> n.items == NoItems)
  {
  }

  lemma ItemsComeBack(n: Node, t: seq<Member>)
    requires Shown(n) && forall q <- MODELLED :: Lookup(t, q) == BaseSays(n, q)
    requires n.items.Items? ==> SchemaToNode(NodeToSchema(n.items.node), true) == n.items.node
    ensures n.type_ == ARRAY ==>
      (if Has(t, ITEMS) then Items(SchemaToNode(At(t, ITEMS), true)) else NoItems) == n.items
  {
    hide SchemaToNode, NodeToSchema, Shown, Entries, RequiredNames, Find;
    assert Lookup(t, ITEMS) == BaseSays(n, ITEMS);
  }

  /** So what the composer has written stays the same text, however often it is opened and saved. */
  lemma WrittenStays(n: Node)
    requires Shown(n)
    ensures RoundTrip(NodeToSchema(n)) == NodeToSchema(n)
  {
    TreeComesBack(n);
    hide SchemaToNode, NodeToSchema, Shown;
    FlagIsTheParents(NodeToSchema(n), n.required);
  }

  // ---------------------------------------------------------------- which texts come back as they are

  /** The tree shows keyword `q`, so it is written in the tree's place for it. */
  ghost predicate InTree(ms: seq<Member>, q: string) {
    || q == TYPE || OwnBound(TypeOf(ms), q)
    || (q == REQUIRED && OrphansOf(ms) == [])
    || (q == PROPERTIES && TypeOf(ms) == OBJECT)
    || (q == ITEMS && TypeOf(ms) == ARRAY)
  }

  ghost function Pick(ms: seq<Member>, q: string): seq<Member> {
    if InTree(ms, q) then Opt(q, Lookup(ms, q)) else []
  }

  /** The keywords the tree shows, in the order it writes them. */
  ghost function TreeMembers(ms: seq<Member>): seq<Member> {
    var bounds := BoundKeywords(TypeOf(ms));
    Pick(ms, TYPE) + Pick(ms, REQUIRED) + Pick(ms, PROPERTIES) + Pick(ms, ITEMS)
    + (if bounds.Some? then Pick(ms, bounds.value.0) + Pick(ms, bounds.value.1) else [])
  }

  /** The others among `part`, in their own order. */
  ghost function OtherMembers(ms: seq<Member>, part: seq<Member>): seq<Member> {
    if part == [] then []
    else
      var last := part[|part| - 1];
      OtherMembers(ms, part[..|part| - 1]) + (if InTree(ms, last.key) then [] else [last])
  }

  /** Names in the order in which the properties they require are declared. */
  ghost predicate InDeclaredOrder(names: seq<Json>, ps: seq<Member>) {
    && (forall i :: 0 <= i < |names| ==> names[i].Str? && Has(ps, NameOf(names[i])))
    && (forall i, j :: 0 <= i < j < |names| ==> Find(ps, NameOf(names[i])) < Find(ps, NameOf(names[j])))
  }

  /** The list of required names is one the tree writes: not empty, and either the names of declared fields of
      an object, in their order, or distinct names of none. */
  ghost predicate RequiredStays(ms: seq<Member>) {
    Has(ms, REQUIRED) && At(ms, REQUIRED).Arr? ==>
      var names, ps := At(ms, REQUIRED).items, DeclaredProperties(ms).members;
      && names != []
      && (|| (TypeOf(ms) == OBJECT && InDeclaredOrder(names, ps))
          || (DistinctNames(names) && forall name <- names :: !Has(ps, NameOf(name))))
  }

  /** No keyword of the node is dropped or rewritten, whatever the order. */
  ghost predicate KeywordsStay(ms: seq<Member>) {
    && (Has(ms, TYPE) ==> At(ms, TYPE).Str?)
    && (forall q <- {MINIMUM, MAXIMUM, MIN_LENGTH, MAX_LENGTH, MIN_ITEMS, MAX_ITEMS} ::
          Has(ms, q) ==> OwnBound(TypeOf(ms), q))
    && RequiredStays(ms)
    && (TypeOf(ms) == OBJECT && Has(ms, PROPERTIES) && At(ms, PROPERTIES).Obj? ==> At(ms, PROPERTIES).members != [])
  }

  /** A schema written the way the tree writes: at every node it shows, its keywords in the tree's order and
      then the others, and nothing the tree would drop. */
  ghost predicate AsWritten(s: Json)
    decreases s
  {
    s.Obj? &&
    var ms := s.members;
    && KeywordsStay(ms)
    && ms == TreeMembers(ms) + OtherMembers(ms, ms)
    && (TypeOf(ms) == OBJECT && Has(ms, PROPERTIES) && At(ms, PROPERTIES).Obj? ==>
          forall i :: 0 <= i < |At(ms, PROPERTIES).members| ==> AsWritten(At(ms, PROPERTIES).members[i].value))
    && (TypeOf(ms) == ARRAY && Has(ms, ITEMS) ==> AsWritten(At(ms, ITEMS)))
  }

  // ---------------------------------------------------------------- required names

  lemma {:induction false} DistinctIsDeduped(names: seq<Json>)
    requires DistinctNames(names)
    ensures Dedupe(names) == names
  {
    if names != [] {
      var init := names[..|names| - 1];
      DistinctIsDeduped(init);
      assert names == init + [names[|names| - 1]];
    }
  }

  lemma {:induction false} UndeclaredAreOrphans(names: seq<Json>, declared: seq<Member>)
    requires forall name <- names :: !Has(declared, NameOf(name))
    ensures Orphans(names, declared) == names
  {
    if names != [] {
      var init := names[..|names| - 1];
      UndeclaredAreOrphans(init, declared);
      assert names == init + [names[|names| - 1]];
    }
  }

  /** The promised names of rows come out in the order of the rows. */
  lemma {:induction false} PromisedInOrder(properties: Json, required: seq<Json>, n: nat)
    requires properties.Obj? && n <= |properties.members| && DistinctKeys(properties.members)
    ensures var promised := RequiredNames(Rows(properties, required, n));
            && InDeclaredOrder(promised, properties.members)
            && forall i :: 0 <= i < |promised| ==> Find(properties.members, NameOf(promised[i])) < n
  {
    hide SchemaToNode, RequiredNames;
    if n == 0 {
      NothingPromised();
    } else {
      PromisedInOrder(properties, required, n - 1);
      var m := properties.members[n - 1];
      var row := Property(m.key, SchemaToNode(m.value, Str(m.key) in required), false);
      HasAt(properties.members, n - 1);
      RequiredNamesStep(Rows(properties, required, n - 1), row);
    }
  }

  lemma RequiredNamesStep(rows: seq<Property>, row: Property)
    ensures RequiredNames(rows + [row])
            == RequiredNames(rows) + (if !row.ignored && row.node.required then [Str(row.name)] else [])
  {
    assert (rows + [row])[..|rows|] == rows;
  }

  ghost predicate Ascending(xs: seq<nat>) { forall i, j :: 0 <= i < j < |xs| ==> xs[i] < xs[j] }

  lemma LastIsLargest(a: seq<nat>)
    requires Ascending(a) && a != []
    ensures var last := a[|a| - 1];
            && last in a && Ascending(a[..|a| - 1])
            && forall z :: (z in a ==> z <= last) && (z in a[..|a| - 1] <==> z in a && z != last)
  {
    var init, last := a[..|a| - 1], a[|a| - 1];
    assert a == init + [last];
    forall z ensures (z in a ==> z <= last) && (z in init <==> z in a && z != last) {
      if z in init {
        var i :| 0 <= i < |init| && init[i] == z;
        assert a[i] < last;
      }
    }
  }

  lemma {:induction false} OneAscendingOrder(a: seq<nat>, b: seq<nat>)
    requires Ascending(a) && Ascending(b) && forall x :: x in a <==> x in b
    ensures a == b
  {
    hide Ascending;
    EmptyOrNot(a);
    EmptyOrNot(b);
    if a != [] && b != [] {
      LastIsLargest(a);
      LastIsLargest(b);
      assert a[|a| - 1] == b[|b| - 1];
      var a', b' := a[..|a| - 1], b[..|b| - 1];
      forall z ensures z in a' <==> z in b' { assert z in a <==> z in b; }
      OneAscendingOrder(a', b');
      assert a == a[..|a| - 1] + [a[|a| - 1]] && b == b[..|b| - 1] + [b[|b| - 1]];
    }
  }

  ghost function Places(names: seq<Json>, ps: seq<Member>): (places: seq<nat>)
    ensures |places| == |names| && forall i :: 0 <= i < |names| ==> places[i] == Find(ps, NameOf(names[i]))
  {
    seq(|names|, i requires 0 <= i < |names| => Find(ps, NameOf(names[i])))
  }

  /** There is one declared order. */
  lemma OneDeclaredOrder(a: seq<Json>, b: seq<Json>, ps: seq<Member>)
    requires InDeclaredOrder(a, ps) && InDeclaredOrder(b, ps) && forall name :: name in a <==> name in b
    ensures a == b
  {
    var xs, ys := Places(a, ps), Places(b, ps);
    SamePlaces(a, b, ps);
    SamePlaces(b, a, ps);
    OneAscendingOrder(xs, ys);
    forall i | 0 <= i < |a| ensures a[i] == b[i] {
      assert a[i] == Str(ps[xs[i]].key) && b[i] == Str(ps[ys[i]].key);
    }
  }

  lemma SamePlaces(a: seq<Json>, b: seq<Json>, ps: seq<Member>)
    requires forall name :: name in a ==> name in b
    ensures forall x :: x in Places(a, ps) ==> x in Places(b, ps)
  {
    hide Find;
    forall x | x in Places(a, ps) ensures x in Places(b, ps) {
      var i :| 0 <= i < |a| && Places(a, ps)[i] == x;
      assert a[i] in a;
      var j :| 0 <= j < |b| && b[j] == a[i];
      assert Places(b, ps)[j] == x;
    }
  }

  /** Undeclared names are carried as they are listed exactly when they are distinct. */
  lemma OrphansStayIff(ms: seq<Member>)
    requires Accepted(Obj(ms)) && Has(ms, REQUIRED)
    ensures At(ms, REQUIRED).Arr?
    ensures var names, ps := At(ms, REQUIRED).items, DeclaredProperties(ms).members;
            OrphansOf(ms) == names <==> DistinctNames(names) && forall name <- names :: !Has(ps, NameOf(name))
  {
    var names, ps := At(ms, REQUIRED).items, DeclaredProperties(ms).members;
    hide Find, Dedupe, Orphans, DeclaredProperties;
    DedupeDistinct(names);
    OrphansDistinct(Dedupe(names), ps);
    if OrphansOf(ms) == names {
      forall name <- names ensures !Has(ps, NameOf(name)) { OrphansAre(RequiredOf(ms), ps, name); }
    }
    if DistinctNames(names) && forall name <- names :: !Has(ps, NameOf(name)) {
      DistinctIsDeduped(names);
      UndeclaredAreOrphans(names, ps);
    }
  }

  /** Declared names are promised as they are listed exactly when they are listed in declared order. */
  lemma PromisedStayIff(ms: seq<Member>)
    requires Admitted(Obj(ms)) && Has(ms, REQUIRED) && OrphansOf(ms) == []
    requires TypeOf(ms) == OBJECT && Has(ms, PROPERTIES) && At(ms, PROPERTIES).Obj?
    ensures At(ms, REQUIRED).Arr?
    ensures var names, ps := At(ms, REQUIRED).items, At(ms, PROPERTIES).members;
            RequiredNames(Rows(At(ms, PROPERTIES), RequiredOf(ms), |ps|)) == names <==> InDeclaredOrder(names, ps)
  {
    hide Find, Rows, RequiredNames, OrphansOf, InDeclaredOrder, WellFormed, Accepted;
    RequiredIsList(ms);
    var names, ps := At(ms, REQUIRED).items, At(ms, PROPERTIES).members;
    DeclaredDistinct(ms);
    PromisedInOrder(At(ms, PROPERTIES), RequiredOf(ms), |ps|);
    RequiredRows(ms);
    var promised := RequiredNames(Rows(At(ms, PROPERTIES), RequiredOf(ms), |ps|));
    forall name ensures name in promised <==> name in names { AllDeclared(ms, name); }
    if InDeclaredOrder(names, ps) { OneDeclaredOrder(promised, names, ps); }
  }

  lemma RequiredIsList(ms: seq<Member>)
    requires Accepted(Obj(ms)) && Has(ms, REQUIRED)
    ensures At(ms, REQUIRED).Arr?
  {
  }

  lemma AllDeclared(ms: seq<Member>, name: Json)
    requires Accepted(Obj(ms)) && Has(ms, REQUIRED) && OrphansOf(ms) == []
    ensures At(ms, REQUIRED).Arr?
    ensures name in At(ms, REQUIRED).items ==> Has(DeclaredProperties(ms).members, NameOf(name))
  {
    OrphansOfAre(ms, name);
  }

  lemma RequiredStaysIff(ms: seq<Member>)
    requires Admitted(Obj(ms))
    ensures RequiredBack(ms) == Lookup(ms, REQUIRED) <==> RequiredStays(ms)
  {
    hide Find, Rows, RequiredNames, OrphansOf, RequiredOf, InDeclaredOrder, DistinctNames, WellFormed, Accepted, TypeOf;
    if !Has(ms, REQUIRED) {
      NothingRequired(ms);
    } else {
      RequiredIsList(ms);
      OrphansStayIff(ms);
      var names, ps := At(ms, REQUIRED).items, DeclaredProperties(ms).members;
      if OrphansOf(ms) != [] {
        SomeUndeclared(ms);
      } else if TypeOf(ms) == OBJECT && Has(ms, PROPERTIES) && At(ms, PROPERTIES).Obj? {
        PromisedStayIff(ms);
      } else {
        NoneDeclared(ms);
      }
    }
  }

  /** With an undeclared name among them the names are not in declared order. */
  lemma SomeUndeclared(ms: seq<Member>)
    requires Accepted(Obj(ms)) && Has(ms, REQUIRED) && At(ms, REQUIRED).Arr? && OrphansOf(ms) != []
    ensures !InDeclaredOrder(At(ms, REQUIRED).items, DeclaredProperties(ms).members)
  {
    var name := OrphansOf(ms)[0];
    assert name in OrphansOf(ms);
    OrphansOfAre(ms, name);
    hide Find, OrphansOf, DeclaredProperties;
  }

  /** Where the tree has no rows, only undeclared names are kept. */
  lemma NoneDeclared(ms: seq<Member>)
    requires Accepted(Obj(ms)) && Has(ms, REQUIRED) && At(ms, REQUIRED).Arr? && OrphansOf(ms) == []
    requires !(TypeOf(ms) == OBJECT && Has(ms, PROPERTIES) && At(ms, PROPERTIES).Obj?)
    ensures !RequiredStays(ms)
  {
    hide Find, OrphansOf, DistinctNames, Accepted, TypeOf, DeclaredProperties;
    var names := At(ms, REQUIRED).items;
    if names != [] {
      assert names[0] in names;
      AllDeclared(ms, names[0]);
      DeclaredSomewhere(ms, NameOf(names[0]));
    }
  }

  lemma DeclaredSomewhere(ms: seq<Member>, name: string)
    requires Has(DeclaredProperties(ms).members, name)
    ensures Has(ms, PROPERTIES) && At(ms, PROPERTIES).Obj?
  {
  }

  // ---------------------------------------------------------------- keyword by keyword

  /** The schemas inside that the tree shows come back as they are. */
  ghost predicate ChildrenStay(ms: seq<Member>) {
    && (TypeOf(ms) == OBJECT && Has(ms, PROPERTIES) && At(ms, PROPERTIES).Obj? ==>
          forall i :: 0 <= i < |At(ms, PROPERTIES).members| ==>
            RoundTrip(At(ms, PROPERTIES).members[i].value) == At(ms, PROPERTIES).members[i].value)
    && (TypeOf(ms) == ARRAY && Has(ms, ITEMS) ==> RoundTrip(At(ms, ITEMS)) == At(ms, ITEMS))
  }

  lemma PropertiesStayIff(ms: seq<Member>)
    requires Admitted(Obj(ms))
    ensures PropertiesBack(ms) == Lookup(ms, PROPERTIES)
            <==> (TypeOf(ms) == OBJECT && Has(ms, PROPERTIES) && At(ms, PROPERTIES).Obj? ==>
                    && At(ms, PROPERTIES).members != []
                    && forall i :: 0 <= i < |At(ms, PROPERTIES).members| ==>
                         RoundTrip(At(ms, PROPERTIES).members[i].value) == At(ms, PROPERTIES).members[i].value)
  {
    hide Find, Rows, Entries, RoundTrip, RequiredOf, WellFormed, Accepted, TypeOf;
    PropertiesAreObject(ms);
    if TypeOf(ms) == OBJECT && Has(ms, PROPERTIES) {
      var ps := At(ms, PROPERTIES).members;
      MemberWellFormed(ms, PROPERTIES);
      MembersAreDistinct(At(ms, PROPERTIES));
      EntriesOfRows(At(ms, PROPERTIES), RequiredOf(ms), |ps|);
      assert TrippedMembers(ps)[..|ps|] == TrippedMembers(ps);
      if forall i :: 0 <= i < |ps| ==> RoundTrip(ps[i].value) == ps[i].value {
        assert TrippedMembers(ps) == ps;
      }
    }
  }

  lemma PropertiesAreObject(ms: seq<Member>)
    requires Accepted(Obj(ms))
    ensures Has(ms, PROPERTIES) ==> At(ms, PROPERTIES).Obj?
  {
  }

  lemma TypeStaysIff(ms: seq<Member>)
    requires Accepted(Obj(ms))
    ensures Back(ms, TYPE) == Lookup(ms, TYPE) <==> (Has(ms, TYPE) ==> At(ms, TYPE).Str?)
  {
    if Has(ms, TYPE) && At(ms, TYPE).Str? { NamedTypeIsKnown(ms); }
    hide Find, Accepted;
  }

  lemma PlainKeyword(ms: seq<Member>, q: string)
    requires q !in {TYPE, REQUIRED, PROPERTIES, ITEMS}
    ensures Back(ms, q) == if q in MODELLED && !OwnBound(TypeOf(ms), q) then None else Lookup(ms, q)
  {
    hide RequiredBack, PropertiesBack, ItemsBack, Find;
  }

  /** The written schema says of every keyword what the one that was read says, exactly when nothing at the node
      is dropped or rewritten and nothing inside changes. */
  lemma KeywordsStayIff(ms: seq<Member>)
    requires Admitted(Obj(ms))
    ensures (forall q :: Back(ms, q) == Lookup(ms, q)) <==> KeywordsStay(ms) && ChildrenStay(ms)
  {
    hide RequiredBack, PropertiesBack, RequiredStays, RoundTrip, Find, WellFormed, Accepted, OwnBound, TypeOf, Back;
    TypeStaysIff(ms);
    RequiredStaysIff(ms);
    PropertiesStayIff(ms);
    BackAt(ms);
    forall q | q !in {TYPE, REQUIRED, PROPERTIES, ITEMS}
      ensures Back(ms, q) == if q in MODELLED && !OwnBound(TypeOf(ms), q) then None else Lookup(ms, q)
    {
      PlainKeyword(ms, q);
    }
  }

  lemma BackAt(ms: seq<Member>)
    ensures Back(ms, REQUIRED) == RequiredBack(ms) && Back(ms, PROPERTIES) == PropertiesBack(ms)
    ensures Back(ms, ITEMS) == ItemsBack(ms)
  {
    hide RequiredBack, PropertiesBack, ItemsBack, Find;
  }

  // ---------------------------------------------------------------- and in the tree's order

  /** With every keyword as it was, the keyword loop carries exactly what the tree does not show. */
  lemma KeptWhole(ms: seq<Member>, i: nat)
    requires Admitted(Obj(ms)) && i < |ms| && Back(ms, ms[i].key) == Lookup(ms, ms[i].key)
    ensures Kept(TypeOf(ms), OrphansOf(ms), ms[i]) == if InTree(ms, ms[i].key) then None else Some(ms[i].value)
  {
    hide Rows, Entries, RoundTrip, RequiredOf, OrphansOf, Accepted, TypeOf;
    HasAt(ms, i);
  }

  lemma {:induction false} ExtrasAreOthers(ms: seq<Member>, k: nat)
    requires Admitted(Obj(ms)) && k <= |ms| && DistinctKeys(ms) && forall q :: Back(ms, q) == Lookup(ms, q)
    ensures Extras(TypeOf(ms), OrphansOf(ms), ms[..k]) == OtherMembers(ms, ms[..k])
    ensures forall m <- OtherMembers(ms, ms[..k]) :: !InTree(ms, m.key) && m in ms[..k]
  {
    hide Back, Kept, InTree, Find, Accepted, WellFormed, TypeOf, OrphansOf, Put;
    if k > 0 {
      ExtrasAreOthers(ms, k - 1);
      KeptWhole(ms, k - 1);
      assert ms[..k][..k - 1] == ms[..k - 1] && ms[..k] == ms[..k - 1] + [ms[k - 1]];
      OthersBefore(ms, k - 1);
      PutSomeNew(Extras(TypeOf(ms), OrphansOf(ms), ms[..k - 1]), ms[k - 1].key,
                 Kept(TypeOf(ms), OrphansOf(ms), ms[k - 1]));
      assert ms[k - 1] == Member(ms[k - 1].key, ms[k - 1].value);
    }
  }

  lemma OthersBefore(ms: seq<Member>, k: nat)
    requires k < |ms| && DistinctKeys(ms) && forall m <- OtherMembers(ms, ms[..k]) :: m in ms[..k]
    ensures NoKey(OtherMembers(ms, ms[..k]), ms[k].key)
  {
    hide OtherMembers;
    var others := OtherMembers(ms, ms[..k]);
    forall i | 0 <= i < |others| ensures others[i].key != ms[k].key { assert others[i] in others; }
  }

  /** What the node writes itself for a keyword is what it said, if the tree shows it, and otherwise nothing. */
  lemma BaseIsPicked(ms: seq<Member>, n: Node, q: string)
    requires Admitted(Obj(ms)) && n == SchemaToNode(Obj(ms), true) && Back(ms, q) == Lookup(ms, q)
    requires q in {TYPE, REQUIRED, PROPERTIES, ITEMS} || OwnBound(TypeOf(ms), q)
    ensures Opt(q, BaseSays(n, q)) == Pick(ms, q)
  {
    hide Rows, Entries, RoundTrip, RequiredOf, RequiredNames, OrphansOf, Accepted, NodeToSchema, Extras, Find, TypeOf;
    hide Back;
    KeptOrSaid(ms, n, q);
    if InTree(ms, q) {
      if Has(ms, q) { ShownIsNotKept(ms, q); }
    } else if q == REQUIRED {
      CarriedIsNotPromised(ms, n);
    }
  }

  lemma ShownIsNotKept(ms: seq<Member>, q: string)
    requires Admitted(Obj(ms)) && InTree(ms, q) && Has(ms, q)
    ensures Kept(TypeOf(ms), OrphansOf(ms), ms[Find(ms, q)]).None?
  {
    hide OrphansOf, Accepted, WellFormed, TypeOf;
  }

  lemma CarriedIsNotPromised(ms: seq<Member>, n: Node)
    requires Admitted(Obj(ms)) && n == SchemaToNode(Obj(ms), true)
    requires OrphansOf(ms) != [] && Back(ms, REQUIRED) == Lookup(ms, REQUIRED)
    ensures BaseSays(n, REQUIRED) == None
  {
    hide Rows, Entries, RequiredNames, RequiredOf, OrphansOf, Accepted, WellFormed, NodeToSchema, Extras, Find, TypeOf;
    BackAt(ms);
    if TypeOf(ms) == OBJECT {
      NothingPromised();
      if Has(ms, PROPERTIES) && At(ms, PROPERTIES).Obj? { NoneOfThemPromised(ms); }
    }
  }

  /** When the list is one of undeclared names, no row is promised. */
  lemma NoneOfThemPromised(ms: seq<Member>)
    requires Admitted(Obj(ms)) && TypeOf(ms) == OBJECT && Has(ms, PROPERTIES) && At(ms, PROPERTIES).Obj?
    requires Lookup(ms, REQUIRED) == Some(Arr(OrphansOf(ms)))
    ensures RequiredNames(Rows(At(ms, PROPERTIES), RequiredOf(ms), |At(ms, PROPERTIES).members|)) == []
  {
    hide Rows, RequiredNames, RequiredOf, OrphansOf, Accepted, WellFormed, Find, TypeOf;
    var promised := RequiredNames(Rows(At(ms, PROPERTIES), RequiredOf(ms), |At(ms, PROPERTIES).members|));
    RequiredRows(ms);
    forall name ensures name !in promised { OrphansOfAre(ms, name); }
    EmptyOrNot(promised);
  }

  lemma BaseInOrder(ms: seq<Member>, n: Node)
    requires Admitted(Obj(ms)) && n == SchemaToNode(Obj(ms), true) && forall q :: Back(ms, q) == Lookup(ms, q)
    ensures BaseMembers(n) == TreeMembers(ms)
    ensures forall m <- TreeMembers(ms) :: InTree(ms, m.key)
  {
    hide Back, BaseSays, Pick, Accepted, WellFormed, NodeToSchema, Extras, Rows, InTree, Lookup;
    BaseIsPicked(ms, n, TYPE);
    BaseIsPicked(ms, n, REQUIRED);
    BaseIsPicked(ms, n, PROPERTIES);
    BaseIsPicked(ms, n, ITEMS);
    PickedInTree(ms);
    var bounds := BoundKeywords(TypeOf(ms));
    if bounds.Some? {
      BaseIsPicked(ms, n, bounds.value.0);
      BaseIsPicked(ms, n, bounds.value.1);
    }
  }

  lemma PickedInTree(ms: seq<Member>)
    ensures forall q :: forall m <- Pick(ms, q) :: InTree(ms, m.key)
  {
    hide InTree;
  }

  /** A node whose keywords all stay is written as the members the tree shows, in its order, and then the others. */
  lemma StaysInOrder(ms: seq<Member>)
    requires Admitted(Obj(ms)) && forall q :: Back(ms, q) == Lookup(ms, q)
    ensures RoundTrip(Obj(ms)) == Obj(TreeMembers(ms) + OtherMembers(ms, ms))
  {
    hide Back, Accepted, WellFormed, NodeToSchema, Extras, Rows, InTree, Lookup, BaseMembers, TreeMembers, TypeOf, Find;
    var n := SchemaToNode(Obj(ms), true);
    MembersAreDistinct(Obj(ms));
    BaseInOrder(ms, n);
    ExtrasAreOthers(ms, |ms|);
    assert ms[..|ms|] == ms;
    LookupExtras(TypeOf(ms), OrphansOf(ms), ms, "");
    forall i | 0 <= i < |n.extra| ensures NoKey(BaseMembers(n), n.extra[i].key) { assert n.extra[i] in n.extra; }
    WritesBaseThenExtras(n);
  }

  // ---------------------------------------------------------------- exactly when the text is the same

  lemma {:induction false} ChildrenAsWritten(s: Json)
    requires Admitted(s)
    ensures ChildrenStay(s.members)
            <==> (var ms := s.members;
                  && (TypeOf(ms) == OBJECT && Has(ms, PROPERTIES) && At(ms, PROPERTIES).Obj? ==>
                        forall i :: 0 <= i < |At(ms, PROPERTIES).members| ==>
                          AsWritten(At(ms, PROPERTIES).members[i].value))
                  && (TypeOf(ms) == ARRAY && Has(ms, ITEMS) ==> AsWritten(At(ms, ITEMS))))
    decreases s, 0
  {
    var ms := s.members;
    hide RoundTrip, AsWritten, Find, TypeOf;
    if Has(ms, PROPERTIES) && At(ms, PROPERTIES).Obj? {
      MemberWellFormed(ms, PROPERTIES);
      forall i | 0 <= i < |At(ms, PROPERTIES).members|
        ensures RoundTrip(At(ms, PROPERTIES).members[i].value) == At(ms, PROPERTIES).members[i].value
                <==> AsWritten(At(ms, PROPERTIES).members[i].value)
      {
        SameTextIff(At(ms, PROPERTIES).members[i].value);
      }
    }
    if Has(ms, ITEMS) {
      MemberWellFormed(ms, ITEMS);
      SameTextIff(At(ms, ITEMS));
    }
  }

  /** A schema is written back as the very text it was read from exactly when it is written the tree's way. */
  lemma {:induction false} SameTextIff(s: Json)
    requires Admitted(s)
    ensures RoundTrip(s) == s <==> AsWritten(s)
    decreases s, 1
  {
    hide RoundTrip, Back, KeywordsStay, ChildrenStay, TreeMembers, OtherMembers, Accepted, WellFormed, Find, TypeOf;
    AdmittedIsObject(s);
    var ms := s.members;
    ChildrenAsWritten(s);
    KeywordsStayIff(ms);
    WrittenIs(ms);
    if RoundTrip(s) == s {
      SameLookups(ms, RoundTrip(s).members);
    }
    if forall q :: Back(ms, q) == Lookup(ms, q) { StaysInOrder(ms); }
  }

  lemma SameLookups(ms: seq<Member>, t: seq<Member>)
    requires WrittenBack(ms, t) && t == ms
    ensures forall q :: Back(ms, q) == Lookup(ms, q)
  {
    hide Back, Find;
    forall q ensures Back(ms, q) == Lookup(ms, q) { assert Lookup(t, q) == Back(ms, q); }
  }

  lemma AdmittedIsObject(s: Json)
    requires Admitted(s)
    ensures s.Obj?
  {
  }

  const BOUND_FIRST := Obj([Member(MINIMUM, Num(0.0)), Member(TYPE, Str(NUMBER))])

  /** A bound written before its type loses nothing, but does not come back as the same text. */
  lemma OrderIsRewritten()
    ensures Admitted(BOUND_FIRST) && RoundTrip(BOUND_FIRST) != BOUND_FIRST && Faithful(BOUND_FIRST)
  {
    var ms := BOUND_FIRST.members;
    BoundFirst();
    hide RoundTrip, Accepted, WellFormed, Find, OtherMembers, KeywordsStay;
    SameTextIff(BOUND_FIRST);
    assert TreeMembers(ms)[0].key == TYPE && ms[0].key == MINIMUM;
  }

  lemma BoundFirst()
    ensures Admitted(BOUND_FIRST) && Faithful(BOUND_FIRST)
    ensures Has(BOUND_FIRST.members, TYPE) && Lookup(BOUND_FIRST.members, TYPE) == Some(Str(NUMBER))
  {
    var ms := BOUND_FIRST.members;
    assert ms[0].key == MINIMUM && ms[1].key == TYPE;
    HasAt(ms, 0);
    HasAt(ms, 1);
    assert WellFormed(Num(0.0)) && WellFormed(Str(NUMBER));
    assert forall q :: q !in {TYPE, MINIMUM} ==> !Has(ms, q);
    hide Find;
    assert TypeList(At(ms, TYPE)) == [Str(NUMBER)];
  }
}
