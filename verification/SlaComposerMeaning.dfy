/** Editing an SLA that already exists: what the schema written back from the tree accepts, against what the
    schema it was read from accepts. */
module SlaComposerMeaning {
  import opened Basics
  import opened JsonValues
  import opened JsonSchema
  import opened JsonSchemaMeaning
  import opened SlaComposer

  // ---------------------------------------------------------------- filled objects, key by key

  lemma LookupPut(ms: seq<Member>, key: string, value: Json, q: string)
    ensures Lookup(Put(ms, key, value), q) == if q == key then Some(value) else Lookup(ms, q)
    ensures DistinctKeys(ms) ==> DistinctKeys(Put(ms, key, value))
  {
    var now := Put(ms, key, value);
    if Has(ms, key) {
      var i := Find(ms, key);
      assert forall k :: 0 <= k < |ms| ==> now[k].key == ms[k].key;
      assert Find(now, q) == Find(ms, q) by { SameFind(now, ms, q); }
    } else {
      FindAppend(ms, Member(key, value), q);
    }
  }

  lemma {:induction false} SameFind(ms: seq<Member>, ns: seq<Member>, q: string)
    requires |ms| == |ns| && forall k :: 0 <= k < |ms| ==> ms[k].key == ns[k].key
    ensures Find(ms, q) == Find(ns, q)
  {
  }

  lemma {:induction false} FindAppend(ms: seq<Member>, m: Member, q: string)
    ensures Find(ms + [m], q) == if Has(ms, q) then Find(ms, q) else if m.key == q then |ms| else |ms| + 1
  {
    if ms == [] {
      assert [] + [m] == [m];
    } else {
      assert (ms + [m])[1..] == ms[1..] + [m];
      FindAppend(ms[1..], m, q);
    }
  }

  lemma {:induction false} LookupSpread(base: seq<Member>, extra: seq<Member>, q: string)
    requires DistinctKeys(extra)
    ensures Lookup(Spread(base, extra), q) == if Has(extra, q) then Lookup(extra, q) else Lookup(base, q)
  {
    if extra != [] {
      var init, last := extra[..|extra| - 1], extra[|extra| - 1];
      assert extra == init + [last];
      LookupSpread(base, init, q);
      LookupPut(Spread(base, init), last.key, last.value, q);
      FindAppend(init, last, q);
    }
  }

  lemma {:induction false} LookupExtras(type_: string, orphans: seq<Json>, ms: seq<Member>, q: string)
    requires DistinctKeys(ms)
    ensures Lookup(Extras(type_, orphans, ms), q) == if Has(ms, q) then Kept(type_, orphans, ms[Find(ms, q)]) else None
    ensures DistinctKeys(Extras(type_, orphans, ms))
  {
    if ms != [] {
      var init, last := ms[..|ms| - 1], ms[|ms| - 1];
      assert ms == init + [last];
      hide Kept;
      LookupExtras(type_, orphans, init, q);
      var kept := Kept(type_, orphans, last);
      if kept.Some? { LookupPut(Extras(type_, orphans, init), last.key, kept.value, q); }
      FindAppend(init, last, q);
      HasAt(ms, |ms| - 1);
    }
  }

  // ---------------------------------------------------------------- rows

  lemma PutNew(ms: seq<Member>, key: string, value: Json)
    requires forall i :: 0 <= i < |ms| ==> ms[i].key != key
    ensures Put(ms, key, value) == ms + [Member(key, value)]
  {
  }

  /** The members a list of properties would have after the trip, in their own order. */
  ghost function TrippedMembers(ps: seq<Member>): (ts: seq<Member>)
    ensures |ts| == |ps| && forall i :: 0 <= i < |ps| ==> ts[i] == Member(ps[i].key, RoundTrip(ps[i].value))
  {
    seq(|ps|, i requires 0 <= i < |ps| => Member(ps[i].key, RoundTrip(ps[i].value)))
  }

  lemma EntriesStep(rows: seq<Property>, row: Property)
    ensures Entries(rows + [row])
            == if row.ignored then Entries(rows) else Put(Entries(rows), row.name, NodeToSchema(row.node))
  {
    assert (rows + [row])[..|rows|] == rows;
    hide Put, NodeToSchema;
  }

  /** Every row writes back the property it was read from. */
  lemma {:induction false} EntriesOfRows(properties: Json, required: seq<Json>, n: nat)
    requires properties.Obj? && n <= |properties.members| && DistinctKeys(properties.members)
    ensures Entries(Rows(properties, required, n)) == TrippedMembers(properties.members)[..n]
  {
    hide NodeToSchema, SchemaToNode, RoundTrip, Entries, Put;
    if n == 0 {
      NoEntries();
    } else {
      var m := properties.members[n - 1];
      var tripped := TrippedMembers(properties.members);
      EntriesOfRows(properties, required, n - 1);
      EntriesStep(Rows(properties, required, n - 1),
          Property(m.key, SchemaToNode(m.value, Str(m.key) in required), false));
      FlagIsTheParents(m.value, Str(m.key) in required);
      PutNew(tripped[..n - 1], m.key, RoundTrip(m.value));
      assert tripped[..n] == tripped[..n - 1] + [tripped[n - 1]];
    }
  }

  lemma NoEntries()
    ensures Entries([]) == []
  {
  }

  /** The `required` flag of a field is written by its parent, never by the field itself. */
  lemma FlagIsTheParents(s: Json, flag: bool)
    ensures NodeToSchema(SchemaToNode(s, flag)) == RoundTrip(s)
  {
    hide Extras, Entries, Rows;
  }

  lemma PromisedStep(rows: seq<Property>, row: Property, name: Json)
    ensures name in RequiredNames(rows + [row])
            <==> name in RequiredNames(rows) || (!row.ignored && row.node.required && name == Str(row.name))
  {
    assert (rows + [row])[..|rows|] == rows;
  }

  ghost predicate Named(ms: seq<Member>, n: nat, name: Json)
    requires n <= |ms|
  {
    exists i :: 0 <= i < n && name == Str(ms[i].key)
  }

  lemma {:induction false} PromisedRows(properties: Json, required: seq<Json>, n: nat, name: Json)
    requires properties.Obj? && n <= |properties.members|
    ensures name in RequiredNames(Rows(properties, required, n))
            <==> name in required && Named(properties.members, n, name)
  {
    hide RequiredNames, Extras;
    if n == 0 {
      NothingPromised();
    } else {
      var m := properties.members[n - 1];
      var row := Property(m.key, SchemaToNode(m.value, Str(m.key) in required), false);
      PromisedRows(properties, required, n - 1, name);
      assert row.node.required == (Str(m.key) in required);
      assert Rows(properties, required, n) == Rows(properties, required, n - 1) + [row];
      assert Named(properties.members, n, name) <==> Named(properties.members, n - 1, name) || name == Str(m.key);
      hide SchemaToNode, Rows, Named;
      PromisedStep(Rows(properties, required, n - 1), row, name);
    }
  }

  lemma NothingPromised()
    ensures RequiredNames([]) == []
  {
  }

  lemma {:induction false} DedupeKeeps(names: seq<Json>, name: Json)
    ensures name in Dedupe(names) <==> name in names
  {
    if names != [] {
      DedupeKeeps(names[..|names| - 1], name);
      assert names == names[..|names| - 1] + [names[|names| - 1]];
    }
  }

  lemma {:induction false} OrphansAre(names: seq<Json>, declared: seq<Member>, name: Json)
    ensures name in Orphans(names, declared) <==> name in names && !Has(declared, NameOf(name))
  {
    if names != [] {
      OrphansAre(names[..|names| - 1], declared, name);
      assert names == names[..|names| - 1] + [names[|names| - 1]];
    }
  }

  // ---------------------------------------------------------------- the schema written back, keyword by keyword

  ghost function RequiredBack(ms: seq<Member>): Option<Json> {
    if OrphansOf(ms) != [] then Some(Arr(OrphansOf(ms)))
    else if TypeOf(ms) == OBJECT && Has(ms, PROPERTIES) && At(ms, PROPERTIES).Obj?
    then NonEmpty(RequiredNames(Rows(At(ms, PROPERTIES), RequiredOf(ms), |At(ms, PROPERTIES).members|)))
    else None
  }

  ghost function PropertiesBack(ms: seq<Member>): Option<Json> {
    if TypeOf(ms) != OBJECT then Lookup(ms, PROPERTIES)
    else if Has(ms, PROPERTIES) && At(ms, PROPERTIES).Obj? && At(ms, PROPERTIES).members != []
    then Some(Obj(Entries(Rows(At(ms, PROPERTIES), RequiredOf(ms), |At(ms, PROPERTIES).members|))))
    else None
  }

  ghost function ItemsBack(ms: seq<Member>): Option<Json> {
    if TypeOf(ms) != ARRAY then Lookup(ms, ITEMS)
    else if Has(ms, ITEMS) then Some(RoundTrip(At(ms, ITEMS))) else None
  }

  ghost predicate OwnBound(type_: string, q: string) {
    BoundKeywords(type_).Some? && (q == BoundKeywords(type_).value.0 || q == BoundKeywords(type_).value.1)
  }

  /** What the schema written back says for keyword `q`. */
  ghost function Back(ms: seq<Member>, q: string): Option<Json> {
    if q == TYPE then (if TypeOf(ms) == ANY then None else Some(Str(TypeOf(ms))))
    else if q == REQUIRED then RequiredBack(ms)
    else if q == PROPERTIES then PropertiesBack(ms)
    else if q == ITEMS then ItemsBack(ms)
    else if q in MODELLED && !OwnBound(TypeOf(ms), q) then None
    else Lookup(ms, q)
  }

  /** What a node writes for keyword `q` itself, before its extras are spread over it. */
  ghost function BaseSays(n: Node, q: string): Option<Json> {
    if q == TYPE then (if n.type_ == ANY then None else Some(Str(n.type_)))
    else if q == REQUIRED then (if n.type_ == OBJECT then NonEmpty(RequiredNames(n.properties)) else None)
    else if q == PROPERTIES
      then (if n.type_ == OBJECT && Entries(n.properties) != [] then Some(Obj(Entries(n.properties))) else None)
    else if q == ITEMS then (if n.type_ == ARRAY && n.items.Items? then Some(NodeToSchema(n.items.node)) else None)
    else if BoundKeywords(n.type_).Some? && q == BoundKeywords(n.type_).value.1 then NumberAt(n.max)
    else if BoundKeywords(n.type_).Some? && q == BoundKeywords(n.type_).value.0 then NumberAt(n.min)
    else None
  }

  lemma BaseLookup(n: Node, q: string)
    requires DistinctKeys(n.extra)
    ensures NodeToSchema(n).Obj?
    ensures Lookup(NodeToSchema(n).members, q) == if Has(n.extra, q) then Lookup(n.extra, q) else BaseSays(n, q)
  {
    hide Put, Entries, RequiredNames, Find;
    var typed := PutSome([], TYPE, if n.type_ == ANY then None else Some(Str(n.type_)));
    assert Lookup([], q) == None by { EmptyLookup(q); }
    PutSomeLookup([], TYPE, if n.type_ == ANY then None else Some(Str(n.type_)), q);
    var required := if n.type_ == OBJECT then NonEmpty(RequiredNames(n.properties)) else None;
    PutSomeLookup(typed, REQUIRED, required, q);
    var promised := PutSome(typed, REQUIRED, required);
    var entries := Entries(n.properties);
    var properties := if n.type_ == OBJECT && entries != [] then Some(Obj(entries)) else None;
    PutSomeLookup(promised, PROPERTIES, properties, q);
    var shaped := PutSome(promised, PROPERTIES, properties);
    var items := if n.type_ == ARRAY && n.items.Items? then Some(NodeToSchema(n.items.node)) else None;
    PutSomeLookup(shaped, ITEMS, items, q);
    var itemised := PutSome(shaped, ITEMS, items);
    var bounds := BoundKeywords(n.type_);
    var bounded := itemised;
    if bounds.Some? {
      PutSomeLookup(itemised, bounds.value.0, NumberAt(n.min), q);
      PutSomeLookup(PutSome(itemised, bounds.value.0, NumberAt(n.min)), bounds.value.1, NumberAt(n.max), q);
      bounded := PutSome(PutSome(itemised, bounds.value.0, NumberAt(n.min)), bounds.value.1, NumberAt(n.max));
    }
    assert NodeToSchema(n) == Obj(Spread(bounded, n.extra));
    LookupSpread(bounded, n.extra, q);
  }

  lemma EmptyLookup(q: string)
    ensures Lookup([], q) == None
  {
  }

  lemma PutSomeLookup(ms: seq<Member>, key: string, value: Option<Json>, q: string)
    ensures Lookup(PutSome(ms, key, value), q) == if q == key && value.Some? then value else Lookup(ms, q)
  {
    if value.Some? { LookupPut(ms, key, value.value, q); }
  }

  lemma RoundTripLookup(ms: seq<Member>, q: string)
    requires Admitted(Obj(ms))
    ensures RoundTrip(Obj(ms)).Obj? && Lookup(RoundTrip(Obj(ms)).members, q) == Back(ms, q)
  {
    var n := SchemaToNode(Obj(ms), true);
    LookupExtras(TypeOf(ms), OrphansOf(ms), ms, q);
    KeptOrSaid(ms, n, q);
    assert n.extra == Extras(TypeOf(ms), OrphansOf(ms), ms);
    hide NodeToSchema, SchemaToNode, Extras, WellFormed, Accepted, OrphansOf, Find, DistinctKeys, BaseSays, Kept, Back;
    BaseLookup(n, q);
  }

  lemma KeptOrSaid(ms: seq<Member>, n: Node, q: string)
    requires Admitted(Obj(ms)) && n == SchemaToNode(Obj(ms), true)
    ensures (if Has(ms, q) && Kept(TypeOf(ms), OrphansOf(ms), ms[Find(ms, q)]).Some?
             then Kept(TypeOf(ms), OrphansOf(ms), ms[Find(ms, q)]) else BaseSays(n, q)) == Back(ms, q)
  {
    BoundsAreNumbers(ms, q);
    hide NodeToSchema, Extras, Entries, Rows, WellFormed, Accepted, RequiredNames, Orphans, Dedupe, Find, TypeOf;
    if q == REQUIRED {
      if !Has(ms, REQUIRED) { NothingOrphaned(ms); }
      hide RequiredOf;
    } else if q == PROPERTIES && TypeOf(ms) == OBJECT {
      PropertiesKeptOrSaid(ms, n);
    }
  }

  lemma PropertiesKeptOrSaid(ms: seq<Member>, n: Node)
    requires Admitted(Obj(ms)) && n == SchemaToNode(Obj(ms), true) && TypeOf(ms) == OBJECT
    ensures BaseSays(n, PROPERTIES) == PropertiesBack(ms)
  {
    hide NodeToSchema, Extras, Entries, Rows, WellFormed, Accepted, RequiredNames, OrphansOf, RequiredOf, Find, TypeOf;
    if Has(ms, PROPERTIES) && At(ms, PROPERTIES).Obj? {
      MemberWellFormed(ms, PROPERTIES);
      MembersAreDistinct(At(ms, PROPERTIES));
      EntriesOfRows(At(ms, PROPERTIES), RequiredOf(ms), |At(ms, PROPERTIES).members|);
    } else {
      NoEntries();
    }
  }

  lemma NothingOrphaned(ms: seq<Member>)
    requires !Has(ms, REQUIRED)
    ensures OrphansOf(ms) == []
  {
  }

  lemma MembersAreDistinct(v: Json)
    requires WellFormed(v) && v.Obj?
    ensures DistinctKeys(v.members)
  {
  }

  lemma BoundsAreNumbers(ms: seq<Member>, q: string)
    requires Accepted(Obj(ms))
    ensures OwnBound(TypeOf(ms), q) ==> NumberAt(BoundAt(ms, q)) == Lookup(ms, q)
  {
  }

  lemma NamedTypeIsKnown(ms: seq<Member>)
    requires Accepted(Obj(ms)) && Has(ms, TYPE) && At(ms, TYPE).Str?
    ensures TypeOf(ms) != ANY
  {
    assert At(ms, TYPE) in TypeList(At(ms, TYPE));
  }

  // ---------------------------------------------------------------- which schemas survive

  const EVERY_TYPE := {"null", "array", "object", "string", "boolean", "number"}

  /** At one node the tree shows: a list of types excludes nothing; a node with no single type carries no bound
      that excludes anything, and requires no declared property; an object node requires only declared names
      or only undeclared ones. */
  ghost predicate FaithfulHere(ms: seq<Member>) {
    && (Has(ms, TYPE) && At(ms, TYPE).Arr? ==> forall name <- EVERY_TYPE :: Str(name) in At(ms, TYPE).items)
    && (TypeOf(ms) == ANY ==>
        && (forall q <- {MINIMUM, MAXIMUM, MAX_LENGTH, MAX_ITEMS} :: !Has(ms, q))
        && (forall q <- {MIN_LENGTH, MIN_ITEMS} :: Has(ms, q) ==> At(ms, q) == Num(0.0)))
    && (TypeOf(ms) in {ANY, OBJECT} ==>
        || (TypeOf(ms) == OBJECT && OrphansOf(ms) == [])
        || forall name <- RequiredOf(ms) :: name in OrphansOf(ms))
  }

  /** Every node the tree shows is faithful; subschemas the tree carries verbatim need not be. */
  ghost predicate Faithful(s: Json)
    decreases s
  {
    s.Obj? &&
    var ms := s.members;
    && FaithfulHere(ms)
    && (TypeOf(ms) == OBJECT && Has(ms, PROPERTIES) && At(ms, PROPERTIES).Obj? ==>
        forall i :: 0 <= i < |At(ms, PROPERTIES).members| ==> Faithful(At(ms, PROPERTIES).members[i].value))
    && (TypeOf(ms) == ARRAY && Has(ms, ITEMS) ==> Faithful(At(ms, ITEMS)))
  }

  /** `t` is what the tree writes back for `ms`. */
  ghost predicate WrittenBack(ms: seq<Member>, t: seq<Member>) {
    forall q :: Lookup(t, q) == Back(ms, q)
  }

  lemma WrittenKeyword(ms: seq<Member>, t: seq<Member>, q: string)
    requires WrittenBack(ms, t)
    ensures Has(t, q) <==> Back(ms, q).Some?
    ensures Has(t, q) ==> At(t, q) == Back(ms, q).value
  {
    assert Lookup(t, q) == Back(ms, q);
  }

  ghost function Written(ms: seq<Member>): (t: seq<Member>)
    requires Admitted(Obj(ms))
    ensures RoundTrip(Obj(ms)) == Obj(t) && WrittenBack(ms, t)
  {
    WrittenIs(ms);
    RoundTrip(Obj(ms)).members
  }

  lemma WrittenIs(ms: seq<Member>)
    requires Admitted(Obj(ms))
    ensures RoundTrip(Obj(ms)).Obj? && WrittenBack(ms, RoundTrip(Obj(ms)).members)
  {
    hide RoundTrip, Back, Admitted, Find;
    RoundTripLookup(ms, TYPE);
    forall q ensures Lookup(RoundTrip(Obj(ms)).members, q) == Back(ms, q) { RoundTripLookup(ms, q); }
  }

  lemma TypeListOf(type_: Json)
    ensures type_.Arr? || type_ in TypeList(type_)
  {
  }

  lemma KindIsNamed(v: Json)
    ensures exists name <- EVERY_TYPE :: MatchesType(v, Str(name))
  {
    var name :=
      match v
      case Null => "null"
      case Arr(_) => ARRAY
      case Obj(_) => OBJECT
      case Str(_) => STRING
      case Bool(_) => "boolean"
      case Num(_) => NUMBER;
    assert name in EVERY_TYPE && MatchesType(v, Str(name));
  }

  lemma TypeBack(ms: seq<Member>, t: seq<Member>, v: Json)
    requires Accepted(Obj(ms)) && WrittenBack(ms, t)
    ensures TypeOk(ms, v) ==> TypeOk(t, v)
    ensures FaithfulHere(ms) && TypeOk(t, v) ==> TypeOk(ms, v)
    ensures FaithfulHere(ms) && TypeOk(t, v) && TypeOf(ms) != ANY ==> MatchesType(v, Str(TypeOf(ms)))
  {
    assert Lookup(t, TYPE) == Back(ms, TYPE);
    if Has(ms, TYPE) && At(ms, TYPE).Str? {
      NamedTypeIsKnown(ms);
      assert At(ms, TYPE) == Str(TypeOf(ms)) && At(t, TYPE) == Str(TypeOf(ms));
      assert TypeList(At(ms, TYPE)) == [Str(TypeOf(ms))] && TypeList(At(t, TYPE)) == [Str(TypeOf(ms))];
      assert Str(TypeOf(ms)) in TypeList(At(t, TYPE));
    } else if FaithfulHere(ms) && Has(ms, TYPE) {
      TypeListOf(At(ms, TYPE));
      KindIsNamed(v);
      var name :| name in EVERY_TYPE && MatchesType(v, Str(name));
      assert Str(name) in TypeList(At(ms, TYPE));
    }
  }

  /** A bound of the type the value has survives; any other bound the tree drops cannot apply to the value. */
  lemma BoundBack(ms: seq<Member>, t: seq<Member>, v: Json, q: string)
    requires WrittenBack(ms, t) && q in {MINIMUM, MAXIMUM, MIN_LENGTH, MAX_LENGTH, MIN_ITEMS, MAX_ITEMS}
    ensures HasBound(t, q) ==> HasBound(ms, q) && BoundOf(t, q) == BoundOf(ms, q)
    ensures OwnBound(TypeOf(ms), q) && HasBound(ms, q) ==> HasBound(t, q)
  {
    assert Lookup(t, q) == Back(ms, q);
  }

  lemma OrphansOfAre(ms: seq<Member>, name: Json)
    requires Has(ms, REQUIRED) && At(ms, REQUIRED).Arr?
    ensures name in RequiredOf(ms) <==> name in At(ms, REQUIRED).items
    ensures name in OrphansOf(ms) <==>
              name in At(ms, REQUIRED).items && !Has(DeclaredProperties(ms).members, NameOf(name))
  {
    DedupeKeeps(At(ms, REQUIRED).items, name);
    OrphansAre(RequiredOf(ms), DeclaredProperties(ms).members, name);
  }

  /** What is required afterwards was required before. */
  lemma RequiredOnlyDrops(ms: seq<Member>, t: seq<Member>)
    requires Admitted(Obj(ms)) && WrittenBack(ms, t)
    ensures Has(t, REQUIRED) ==> At(t, REQUIRED).Arr? && Has(ms, REQUIRED) && At(ms, REQUIRED).Arr?
    ensures Has(t, REQUIRED) ==> forall name <- At(t, REQUIRED).items :: name in At(ms, REQUIRED).items
  {
    assert Lookup(t, REQUIRED) == Back(ms, REQUIRED);
    if Has(ms, REQUIRED) {
      RequiredRows(ms);
      hide Find, WellFormed, OrphansOf, RequiredOf, RequiredNames, Rows;
      forall name ensures name in OrphansOf(ms) ==> name in At(ms, REQUIRED).items { OrphansOfAre(ms, name); }
    } else {
      NothingRequired(ms);
    }
  }

  /** At a faithful node no required name is lost. */
  lemma RequiredSurvives(ms: seq<Member>, t: seq<Member>, name: Json)
    requires Admitted(Obj(ms)) && WrittenBack(ms, t) && FaithfulHere(ms) && TypeOf(ms) in {ANY, OBJECT}
    requires Has(ms, REQUIRED) && At(ms, REQUIRED).Arr? && name in At(ms, REQUIRED).items
    ensures Has(t, REQUIRED) && At(t, REQUIRED).Arr? && name in At(t, REQUIRED).items
  {
    assert Lookup(t, REQUIRED) == Back(ms, REQUIRED);
    OrphansOfAre(ms, name);
    RequiredRows(ms);
    hide Find, WellFormed, WrittenBack, OrphansOf, RequiredOf, RequiredNames, Rows, Accepted;
  }

  lemma NothingRequired(ms: seq<Member>)
    requires !Has(ms, REQUIRED)
    ensures RequiredBack(ms) == None
  {
    if TypeOf(ms) == OBJECT && Has(ms, PROPERTIES) && At(ms, PROPERTIES).Obj? {
      var properties := At(ms, PROPERTIES);
      var promised := RequiredNames(Rows(properties, [], |properties.members|));
      if promised != [] { PromisedRows(properties, [], |properties.members|, promised[0]); }
    }
  }

  /** The rows flagged as promised are the declared names among the required ones. */
  lemma RequiredRows(ms: seq<Member>)
    requires Accepted(Obj(ms)) && WellFormed(Obj(ms)) && Has(ms, REQUIRED)
    ensures TypeOf(ms) == OBJECT && Has(ms, PROPERTIES) && At(ms, PROPERTIES).Obj? ==>
      forall name :: name in RequiredNames(Rows(At(ms, PROPERTIES), RequiredOf(ms), |At(ms, PROPERTIES).members|))
                     <==> name in At(ms, REQUIRED).items && Has(At(ms, PROPERTIES).members, NameOf(name))
  {
    if TypeOf(ms) == OBJECT && Has(ms, PROPERTIES) && At(ms, PROPERTIES).Obj? {
      var ps := At(ms, PROPERTIES).members;
      var names := At(ms, REQUIRED).items;
      hide Rows, RequiredNames, Find, WellFormed;
      forall name ensures name in RequiredNames(Rows(At(ms, PROPERTIES), RequiredOf(ms), |ps|))
                          <==> name in names && Has(ps, NameOf(name)) {
        PromisedRows(At(ms, PROPERTIES), RequiredOf(ms), |ps|, name);
        DedupeKeeps(names, name);
        if name in names && Has(ps, NameOf(name)) {
          assert name == Str(ps[Find(ps, NameOf(name))].key);
        }
        if exists i :: 0 <= i < |ps| && name == Str(ps[i].key) {
          var i :| 0 <= i < |ps| && name == Str(ps[i].key);
          HasAt(ps, i);
        }
      }
    }
  }
}
