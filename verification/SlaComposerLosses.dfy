/** Exactly when a schema written in plain keywords keeps its meaning through the tree. */
module SlaComposerLosses {
  import opened JsonValues
  import opened JsonSchema
  import opened JsonSchemaMeaning
  import opened SlaComposer
  import opened SlaComposerMeaning
  import opened SlaComposerRoundTrip

  /** The node names no values and offers no alternatives. */
  ghost predicate Plain(ms: seq<Member>) { !Has(ms, CONST) && !Has(ms, ENUM) && !Has(ms, ONE_OF) }

  ghost predicate Unbounded(ms: seq<Member>) {
    forall q <- {MINIMUM, MAXIMUM, MIN_LENGTH, MAX_LENGTH, MIN_ITEMS, MAX_ITEMS} :: !Has(ms, q)
  }

  ghost predicate Satisfiable(s: Json) { exists v :: WellFormed(v) && Satisfies(s, v) }

  ghost function Inhabitant(s: Json): (v: Json)
    requires Satisfiable(s)
    ensures WellFormed(v) && Satisfies(s, v)
  {
    var v :| WellFormed(v) && Satisfies(s, v);
    v
  }

  /** Some value, of `s` if it has any. */
  ghost function ValueFor(s: Json): (v: Json)
    ensures WellFormed(v)
  {
    if Satisfiable(s) then Inhabitant(s) else Null
  }

  ghost predicate ItemsHold(ms: seq<Member>, items: seq<Json>) {
    Has(ms, ITEMS) ==> forall i :: 0 <= i < |items| ==> Satisfies(At(ms, ITEMS), items[i])
  }

  /** An object has every name the schema requires and none it declares, and what else it has is allowed; the
      elements of an array are. */
  ghost predicate Bare(ms: seq<Member>, v: Json) {
    && (v.Obj? ==>
          && (Has(ms, REQUIRED) && At(ms, REQUIRED).Arr? ==>
                forall name <- At(ms, REQUIRED).items :: Has(v.members, NameOf(name)))
          && (forall q :: Has(v.members, q) ==> !Has(DeclaredProperties(ms).members, q))
          && AdditionalHolds(ms, v.members))
    && (v.Arr? ==> ItemsHold(ms, v.items))
  }

  lemma PlainAccepts(t: seq<Member>, v: Json)
    requires Plain(t) && Unbounded(t) && TypeOk(t, v) && Bare(t, v)
    ensures Satisfies(Obj(t), v)
  {
    hide Satisfies, TypeOk, Find, AdditionalHolds, ItemsHold, PropertiesHold;
    if v.Obj? {
      NothingDeclaredHolds(t, v.members);
      ObjectMeans(t, v.members);
    } else if v.Arr? {
      ArrayMeans(t, v.items);
    } else {
      FlatMeans(t, v);
    }
  }

  lemma NothingDeclaredHolds(t: seq<Member>, members: seq<Member>)
    requires forall q :: Has(members, q) ==> !Has(DeclaredProperties(t).members, q)
    ensures PropertiesHold(t, members)
  {
    var ps := DeclaredProperties(t).members;
    forall i | 0 <= i < |ps| ensures !Has(members, ps[i].key) { HasAt(ps, i); }
    hide Satisfies, DeclaredProperties, Find;
  }

  lemma FlatMeans(ms: seq<Member>, v: Json)
    requires Plain(ms) && !v.Obj? && !v.Arr?
    ensures Satisfies(Obj(ms), v) <==> SatisfiesOwn(ms, v)
  {
    hide SatisfiesOwn, Find;
  }

  lemma ObjectMeans(ms: seq<Member>, members: seq<Member>)
    requires Plain(ms)
    ensures Satisfies(Obj(ms), Obj(members))
            <==> SatisfiesOwn(ms, Obj(members)) && PropertiesHold(ms, members) && AdditionalHolds(ms, members)
  {
    InsideOfObject(ms, members);
    hide SatisfiesOwn, SatisfiesInside, PropertiesHold, AdditionalHolds, Find;
  }

  lemma ArrayMeans(ms: seq<Member>, items: seq<Json>)
    requires Plain(ms)
    ensures Satisfies(Obj(ms), Arr(items)) <==> SatisfiesOwn(ms, Arr(items)) && ItemsHold(ms, items)
  {
    hide SatisfiesOwn, Find;
  }

  // ---------------------------------------------------------------- what is written back for a plain node

  lemma PlainBack(ms: seq<Member>, t: seq<Member>)
    requires Admitted(Obj(ms)) && WrittenBack(ms, t) && Plain(ms) && TypeOf(ms) in {ANY, OBJECT}
    ensures Plain(t) && Unbounded(t)
    ensures Lookup(t, ITEMS) == Lookup(ms, ITEMS) && Lookup(t, ADDITIONAL) == Lookup(ms, ADDITIONAL)
    ensures TypeOf(ms) == ANY ==> !Has(t, TYPE)
    ensures TypeOf(ms) == OBJECT ==> Has(t, TYPE) && At(t, TYPE) == Str(OBJECT)
  {
    hide Find, WrittenBack, Accepted, WellFormed, RequiredBack, PropertiesBack, TypeOf;
    VerbatimKeyword(ms, t, CONST);
    VerbatimKeyword(ms, t, ENUM);
    VerbatimKeyword(ms, t, ONE_OF);
    VerbatimKeyword(ms, t, ADDITIONAL);
    WrittenKeyword(ms, t, ITEMS);
    WrittenKeyword(ms, t, TYPE);
    forall q <- {MINIMUM, MAXIMUM, MIN_LENGTH, MAX_LENGTH, MIN_ITEMS, MAX_ITEMS} ensures !Has(t, q) {
      WrittenKeyword(ms, t, q);
    }
  }

  /** Members for exactly the required names nothing declares. */
  ghost function OrphanMembers(orphans: seq<Json>, value: Json): (members: seq<Member>)
    ensures |members| == |orphans|
    ensures forall i :: 0 <= i < |orphans| ==> members[i] == Member(NameOf(orphans[i]), value)
  {
    seq(|orphans|, i requires 0 <= i < |orphans| => Member(NameOf(orphans[i]), value))
  }

  /** A value for the members no property declares. */
  ghost function ExtraValue(ms: seq<Member>): (v: Json)
    ensures WellFormed(v)
  {
    if Has(ms, ADDITIONAL) then ValueFor(At(ms, ADDITIONAL)) else Null
  }

  /** No required name is forbidden: some value may stand under the ones nothing declares. */
  ghost predicate OrphansAllowed(ms: seq<Member>) {
    OrphansOf(ms) != [] && Has(ms, ADDITIONAL) && At(ms, ADDITIONAL) != Bool(true) ==>
      At(ms, ADDITIONAL) != Bool(false) && Satisfiable(At(ms, ADDITIONAL))
  }

  ghost predicate DistinctNames(names: seq<Json>) {
    && (forall i :: 0 <= i < |names| ==> names[i].Str?)
    && forall i, j :: 0 <= i < j < |names| ==> names[i] != names[j]
  }

  lemma {:induction false} DedupeDistinct(names: seq<Json>)
    requires forall name <- names :: name.Str?
    ensures DistinctNames(Dedupe(names))
  {
    if names != [] {
      DedupeDistinct(names[..|names| - 1]);
      assert names[|names| - 1] in names;
    }
  }

  lemma {:induction false} OrphansDistinct(names: seq<Json>, declared: seq<Member>)
    requires DistinctNames(names)
    ensures DistinctNames(Orphans(names, declared))
  {
    if names != [] {
      var init := names[..|names| - 1];
      OrphansDistinct(init, declared);
      OrphansAre(init, declared, names[|names| - 1]);
      hide Find;
    }
  }

  /** An object with exactly the undeclared required names. */
  ghost function Orphaned(ms: seq<Member>): Json { Obj(OrphanMembers(OrphansOf(ms), ExtraValue(ms))) }

  lemma OrphanedKeys(ms: seq<Member>, q: string)
    requires Admitted(Obj(ms))
    ensures WellFormed(Orphaned(ms))
    ensures Has(Orphaned(ms).members, q) <==> Str(q) in OrphansOf(ms)
    ensures forall name <- OrphansOf(ms) :: name.Str?
  {
    var orphans := OrphansOf(ms);
    if Has(ms, REQUIRED) && At(ms, REQUIRED).Arr? { DedupeDistinct(At(ms, REQUIRED).items); }
    hide Orphans, Dedupe, Accepted, Find;
    OrphansDistinct(RequiredOf(ms), DeclaredProperties(ms).members);
    hide OrphansOf, RequiredOf;
    if Str(q) in orphans {
      var i :| 0 <= i < |orphans| && orphans[i] == Str(q);
      HasAt(OrphanMembers(orphans, ExtraValue(ms)), i);
    }
  }

  /** With those members, and any declared ones, nothing undeclared is refused. */
  lemma OrphansHold(ms: seq<Member>, declared: seq<Member>)
    requires OrphansAllowed(ms)
    requires forall i :: 0 <= i < |declared| ==> Has(DeclaredProperties(ms).members, declared[i].key)
    ensures AdditionalHolds(ms, declared + OrphanMembers(OrphansOf(ms), ExtraValue(ms)))
  {
    hide Find, DeclaredProperties, OrphansOf, Satisfies;
  }

  // ---------------------------------------------------------------- a value lost by each rule

  /** A value of the one type a list of types leaves out. */
  ghost function OfType(name: string, orphaned: Json): (v: Json)
    requires name in EVERY_TYPE && orphaned.Obj?
    ensures forall other :: MatchesType(v, other) ==> other == Str(name)
    ensures v.Obj? ==> v == orphaned
    ensures v.Arr? ==> v == Arr([])
  {
    if name == OBJECT then orphaned
    else if name == ARRAY then Arr([])
    else if name == STRING then Str("")
    else if name == NUMBER then Num(0.5)
    else if name == "boolean" then Bool(true)
    else Null
  }

  ghost predicate NowAccepted(ms: seq<Member>, t: seq<Member>, v: Json) {
    WellFormed(v) && Satisfies(Obj(t), v) && !Satisfies(Obj(ms), v)
  }

  lemma OrphanedPasses(ms: seq<Member>, t: seq<Member>)
    requires Admitted(Obj(ms)) && WrittenBack(ms, t) && Plain(ms) && TypeOf(ms) in {ANY, OBJECT}
    requires (TypeOf(ms) == ANY || OrphansOf(ms) != []) && OrphansAllowed(ms)
    ensures WellFormed(Orphaned(ms)) && Bare(t, Orphaned(ms)) && TypeOk(t, Orphaned(ms))
    ensures Satisfies(Obj(t), Orphaned(ms))
  {
    hide Find, WrittenBack, Accepted, WellFormed, PropertiesBack, TypeOf, OrphansOf, DeclaredProperties, Satisfies;
    hide AdditionalHolds, OrphansAllowed, ExtraValue;
    assert [] + Orphaned(ms).members == Orphaned(ms).members;
    OrphansHold(ms, []);
    PlainBack(ms, t);
    WrittenKeyword(ms, t, REQUIRED);
    DeclaredBack(ms, t);
    var v := Orphaned(ms);
    OrphanedKeys(ms, "");
    forall q ensures Has(v.members, q) <==> Str(q) in OrphansOf(ms) { OrphanedKeys(ms, q); }
    forall name <- OrphansOf(ms) ensures Has(v.members, NameOf(name)) { assert name == Str(NameOf(name)); }
    forall q ensures Has(v.members, q) ==> !Has(DeclaredProperties(ms).members, q) { OrphanIsUndeclared(ms, q); }
    ObjectTypeOk(t, v);
    SameAdditional(ms, t, v.members);
    PlainAccepts(t, v);
  }

  lemma ObjectTypeOk(t: seq<Member>, v: Json)
    requires v.Obj? && (Has(t, TYPE) ==> At(t, TYPE) == Str(OBJECT))
    ensures TypeOk(t, v)
  {
    if Has(t, TYPE) { assert MatchesType(v, TypeList(At(t, TYPE))[0]); }
  }

  lemma OrphanIsUndeclared(ms: seq<Member>, q: string)
    ensures Str(q) in OrphansOf(ms) ==> !Has(DeclaredProperties(ms).members, q)
  {
    OrphansAre(RequiredOf(ms), DeclaredProperties(ms).members, Str(q));
  }

  lemma LostToTypes(ms: seq<Member>, t: seq<Member>, name: string)
    requires Admitted(Obj(ms)) && WrittenBack(ms, t) && Plain(ms) && OrphansAllowed(ms)
    requires Has(ms, TYPE) && At(ms, TYPE).Arr? && name in EVERY_TYPE && Str(name) !in At(ms, TYPE).items
    ensures NowAccepted(ms, t, OfType(name, Orphaned(ms)))
  {
    var v := OfType(name, Orphaned(ms));
    hide Find, WrittenBack, Accepted, PropertiesBack, OrphansOf, DeclaredProperties, Satisfies, OfType, AdditionalHolds;
    PlainBack(ms, t);
    OrphanedPasses(ms, t);
    PlainAccepts(t, v);
    SatisfiesGivesType(ms, v);
  }

  lemma SatisfiesGivesType(ms: seq<Member>, v: Json)
    ensures Satisfies(Obj(ms), v) ==> SatisfiesOwn(ms, v) && TypeOk(ms, v)
  {
    hide TypeOk, Find;
  }

  /** A value outside one bound. */
  ghost function Outside(q: string, bound: real, item: Json): (v: Json)
    requires q in {MINIMUM, MAXIMUM, MAX_LENGTH, MAX_ITEMS, MIN_LENGTH, MIN_ITEMS} && WellFormed(item)
    ensures WellFormed(v) && !v.Obj?
    ensures v.Arr? ==> (q == MAX_ITEMS || v.items == []) && forall i :: 0 <= i < |v.items| ==> v.items[i] == item
  {
    var longer: nat := if bound < 0.0 then 0 else bound.Floor + 1;
    if q == MINIMUM then Num(bound - 1.0)
    else if q == MAXIMUM then Num(bound + 1.0)
    else if q == MAX_LENGTH then Str(seq(longer, _ => 'a'))
    else if q == MAX_ITEMS then Arr(seq(longer, _ => item))
    else if q == MIN_LENGTH then Str("")
    else Arr([])
  }

  /** A value for the elements of an array. */
  ghost function ItemValue(ms: seq<Member>): (v: Json)
    ensures WellFormed(v)
  {
    if Has(ms, ITEMS) then ValueFor(At(ms, ITEMS)) else Null
  }

  /** Arrays that are too long for the node exist. */
  ghost predicate LongArraysExist(ms: seq<Member>) {
    Has(ms, ITEMS) && Has(ms, MAX_ITEMS) ==> Satisfiable(At(ms, ITEMS))
  }

  lemma LostToBounds(ms: seq<Member>, t: seq<Member>, q: string)
    requires Admitted(Obj(ms)) && WrittenBack(ms, t) && Plain(ms) && TypeOf(ms) == ANY
    requires q in {MINIMUM, MAXIMUM, MAX_LENGTH, MAX_ITEMS, MIN_LENGTH, MIN_ITEMS} && Has(ms, q)
    requires q in {MIN_LENGTH, MIN_ITEMS} ==> At(ms, q) != Num(0.0)
    requires LongArraysExist(ms)
    ensures HasBound(ms, q) && NowAccepted(ms, t, Outside(q, BoundOf(ms, q), ItemValue(ms)))
  {
    assert HasBound(ms, q) && (q in {MIN_LENGTH, MIN_ITEMS} ==> BoundOf(ms, q) > 0.0);
    var v := Outside(q, BoundOf(ms, q), ItemValue(ms));
    OutsideFails(ms, q);
    hide Find, WrittenBack, Accepted, PropertiesBack, OrphansOf, DeclaredProperties, Satisfies, Outside, SatisfiesOwn;
    PlainBack(ms, t);
    PlainAccepts(t, v);
    SatisfiesGivesType(ms, v);
  }

  lemma OutsideFails(ms: seq<Member>, q: string)
    requires q in {MINIMUM, MAXIMUM, MAX_LENGTH, MAX_ITEMS, MIN_LENGTH, MIN_ITEMS} && HasBound(ms, q)
    requires q in {MIN_LENGTH, MIN_ITEMS} ==> BoundOf(ms, q) > 0.0
    ensures !SatisfiesOwn(ms, Outside(q, BoundOf(ms, q), ItemValue(ms)))
  {
    hide Find, TypeOk, Same;
  }

  lemma LostToRequired(ms: seq<Member>, t: seq<Member>, name: Json)
    requires Admitted(Obj(ms)) && WrittenBack(ms, t) && Plain(ms) && TypeOf(ms) in {ANY, OBJECT}
    requires (TypeOf(ms) == ANY || OrphansOf(ms) != []) && OrphansAllowed(ms)
    requires name in RequiredOf(ms) && name !in OrphansOf(ms)
    ensures NowAccepted(ms, t, Orphaned(ms))
  {
    OrphansOfAre(ms, name);
    assert name == Str(NameOf(name));
    OrphanedPasses(ms, t);
    OrphanedKeys(ms, NameOf(name));
    hide Find, WrittenBack, Accepted, PropertiesBack, OrphansOf, DeclaredProperties, Satisfies, RequiredOf;
    SatisfiesGivesType(ms, Orphaned(ms));
  }

  lemma SomethingLost(ms: seq<Member>, t: seq<Member>) returns (v: Json)
    requires Admitted(Obj(ms)) && WrittenBack(ms, t) && Plain(ms) && !FaithfulHere(ms)
    requires OrphansAllowed(ms) && (TypeOf(ms) == ANY ==> LongArraysExist(ms))
    ensures NowAccepted(ms, t, v)
  {
    hide Find, WrittenBack, Accepted, WellFormed, OrphansOf, RequiredOf, DeclaredProperties, Satisfies, Plain,
        NowAccepted;
    if Has(ms, TYPE) && At(ms, TYPE).Arr? && exists name :: name in EVERY_TYPE && Str(name) !in At(ms, TYPE).items {
      var name :| name in EVERY_TYPE && Str(name) !in At(ms, TYPE).items;
      LostToTypes(ms, t, name);
      v := OfType(name, Orphaned(ms));
    } else if TypeOf(ms) == ANY && exists q :: q in {MINIMUM, MAXIMUM, MAX_LENGTH, MAX_ITEMS} && Has(ms, q) {
      var q :| q in {MINIMUM, MAXIMUM, MAX_LENGTH, MAX_ITEMS} && Has(ms, q);
      LostToBounds(ms, t, q);
      v := Outside(q, BoundOf(ms, q), ItemValue(ms));
    } else if TypeOf(ms) == ANY && exists q :: q in {MIN_LENGTH, MIN_ITEMS} && Has(ms, q) && At(ms, q) != Num(0.0) {
      var q :| q in {MIN_LENGTH, MIN_ITEMS} && Has(ms, q) && At(ms, q) != Num(0.0);
      LostToBounds(ms, t, q);
      v := Outside(q, BoundOf(ms, q), ItemValue(ms));
    } else {
      var name :| name in RequiredOf(ms) && name !in OrphansOf(ms);
      LostToRequired(ms, t, name);
      v := Orphaned(ms);
    }
  }

  // ---------------------------------------------------------------- a loss inside reaches the outside

  ghost predicate AllSatisfiable(ps: seq<Member>) { forall i :: 0 <= i < |ps| ==> Satisfiable(ps[i].value) }

  /** Every node the tree shows is plain. */
  ghost predicate PlainThroughout(s: Json)
    decreases s
  {
    s.Obj? &&
    var ms := s.members;
    && Plain(ms)
    && (Has(ms, ITEMS) && TypeOf(ms) == ARRAY ==> PlainThroughout(At(ms, ITEMS)))
    && (TypeOf(ms) == OBJECT && Has(ms, PROPERTIES) && At(ms, PROPERTIES).Obj? ==>
          forall i :: 0 <= i < |At(ms, PROPERTIES).members| ==> PlainThroughout(At(ms, PROPERTIES).members[i].value))
  }

  /** The bounds of an array node leave room for an element. */
  ghost predicate RoomForOne(ms: seq<Member>) {
    HasBound(ms, MAX_ITEMS) ==>
      BoundOf(ms, MAX_ITEMS) >= 1.0 && (HasBound(ms, MIN_ITEMS) ==> BoundOf(ms, MIN_ITEMS) <= BoundOf(ms, MAX_ITEMS))
  }

  /** No shown property is impossible to satisfy and no shown item impossible to have; what is required but not
      declared is not forbidden, and arrays longer than a node of no single type allows exist. */
  ghost predicate Reachable(s: Json)
    decreases s
  {
    s.Obj? &&
    var ms := s.members;
    && (TypeOf(ms) in {ANY, OBJECT} ==> OrphansAllowed(ms))
    && (TypeOf(ms) == ANY ==> LongArraysExist(ms))
    && (Has(ms, ITEMS) && TypeOf(ms) == ARRAY ==> RoomForOne(ms) && Reachable(At(ms, ITEMS)))
    && (TypeOf(ms) == OBJECT && Has(ms, PROPERTIES) && At(ms, PROPERTIES).Obj? ==>
          forall i :: 0 <= i < |At(ms, PROPERTIES).members| ==>
            Satisfiable(At(ms, PROPERTIES).members[i].value) && Reachable(At(ms, PROPERTIES).members[i].value))
  }

  /** A value of every property, `w` for the `k`-th. */
  ghost function FilledProperties(ps: seq<Member>, k: nat, w: Json): (members: seq<Member>)
    requires AllSatisfiable(ps)
    ensures |members| == |ps|
    ensures forall i :: 0 <= i < |ps| ==> members[i] == Member(ps[i].key, if i == k then w else Inhabitant(ps[i].value))
  {
    seq(|ps|, i requires 0 <= i < |ps| => Member(ps[i].key, if i == k then w else Inhabitant(ps[i].value)))
  }

  /** Those, and the undeclared required names. */
  ghost function Filled(ms: seq<Member>, k: nat, w: Json): seq<Member>
    requires AllSatisfiable(DeclaredProperties(ms).members)
  {
    FilledProperties(DeclaredProperties(ms).members, k, w) + OrphanMembers(OrphansOf(ms), ExtraValue(ms))
  }

  lemma JoinedKeys(a: seq<Member>, b: seq<Member>)
    requires DistinctKeys(a) && DistinctKeys(b) && forall j :: 0 <= j < |b| ==> !Has(a, b[j].key)
    ensures DistinctKeys(a + b)
  {
    forall i, j | 0 <= i < |a| && 0 <= j < |b| ensures a[i].key != b[j].key { HasAt(a, i); }
    hide Find;
  }

  lemma JoinedWellFormed(a: seq<Member>, b: seq<Member>)
    requires WellFormed(Obj(a)) && WellFormed(Obj(b)) && forall j :: 0 <= j < |b| ==> !Has(a, b[j].key)
    ensures WellFormed(Obj(a + b))
  {
    JoinedKeys(a, b);
    hide Find, DistinctKeys;
  }

  lemma FilledPropertiesWellFormed(ps: seq<Member>, k: nat, w: Json)
    requires DistinctKeys(ps) && WellFormed(w) && AllSatisfiable(ps)
    ensures WellFormed(Obj(FilledProperties(ps, k, w)))
  {
    hide Satisfiable;
  }

  lemma FilledKeys(ms: seq<Member>, k: nat, w: Json)
    requires Admitted(Obj(ms)) && WellFormed(w)
    requires AllSatisfiable(DeclaredProperties(ms).members)
    ensures WellFormed(Obj(Filled(ms, k, w)))
  {
    var ps, orphans := DeclaredProperties(ms).members, OrphanMembers(OrphansOf(ms), ExtraValue(ms));
    DeclaredDistinct(ms);
    OrphanedKeys(ms, "");
    hide Accepted, WellFormed, DistinctKeys, Satisfiable, DeclaredProperties, OrphansOf;
    FilledPropertiesWellFormed(ps, k, w);
    var a := FilledProperties(ps, k, w);
    forall j | 0 <= j < |orphans| ensures !Has(a, orphans[j].key) {
      OrphanIsUndeclared(ms, orphans[j].key);
      assert OrphansOf(ms)[j] == Str(orphans[j].key);
      SameFind(a, ps, orphans[j].key);
    }
    JoinedWellFormed(a, orphans);
  }

  lemma DeclaredDistinct(ms: seq<Member>)
    requires WellFormed(Obj(ms))
    ensures DistinctKeys(DeclaredProperties(ms).members)
  {
    if Has(ms, PROPERTIES) { MemberWellFormed(ms, PROPERTIES); }
  }

  /** The filled object has every required name, and the given value under every declared one. */
  lemma FilledHas(ms: seq<Member>, k: nat, w: Json)
    requires Admitted(Obj(ms))
    requires AllSatisfiable(DeclaredProperties(ms).members)
    ensures forall q :: Has(DeclaredProperties(ms).members, q) || Str(q) in OrphansOf(ms) ==> Has(Filled(ms, k, w), q)
  {
    var ps, orphans := DeclaredProperties(ms).members, OrphansOf(ms);
    hide Accepted, WellFormed, Satisfiable, DeclaredProperties, OrphansOf;
    var a, b := FilledProperties(ps, k, w), OrphanMembers(orphans, ExtraValue(ms));
    forall q ensures Has(ps, q) || Str(q) in orphans ==> Has(a + b, q) {
      SameFind(a, ps, q);
      FindJoined(a, b, q);
      if Str(q) in orphans {
        var n :| 0 <= n < |orphans| && orphans[n] == Str(q);
        HasAt(b, n);
      }
    }
  }

  lemma FilledAt(ms: seq<Member>, k: nat, w: Json, i: nat)
    requires Admitted(Obj(ms)) && AllSatisfiable(DeclaredProperties(ms).members) && i < |DeclaredProperties(ms).members|
    ensures var (p, members) := (DeclaredProperties(ms).members[i], Filled(ms, k, w));
            Satisfiable(p.value) && Has(members, p.key) && At(members, p.key)
                == if i == k then w else Inhabitant(p.value)
  {
    var ps := DeclaredProperties(ms).members;
    DeclaredDistinct(ms);
    hide Accepted, WellFormed, Satisfiable, DeclaredProperties, OrphansOf;
    var a, b := FilledProperties(ps, k, w), OrphanMembers(OrphansOf(ms), ExtraValue(ms));
    HasAt(ps, i);
    SameFind(a, ps, ps[i].key);
    FindJoined(a, b, ps[i].key);
  }

  lemma {:induction false} FindJoined(a: seq<Member>, b: seq<Member>, q: string)
    ensures Find(a + b, q) == if Has(a, q) then Find(a, q) else |a| + Find(b, q)
  {
    if a == [] {
      assert [] + b == b;
    } else {
      assert (a + b)[1..] == a[1..] + b;
      FindJoined(a[1..], b, q);
    }
  }

  lemma ObjectOwn(ms: seq<Member>, members: seq<Member>)
    requires TypeOf(ms) == OBJECT && !Has(ms, CONST) && !Has(ms, ENUM)
    requires forall name <- RequiredOf(ms) :: Has(members, NameOf(name))
    ensures SatisfiesOwn(ms, Obj(members))
  {
    ObjectTypeOk(ms, Obj(members));
    if Has(ms, REQUIRED) && At(ms, REQUIRED).Arr? {
      forall name <- At(ms, REQUIRED).items ensures Has(members, NameOf(name)) {
        DedupeKeeps(At(ms, REQUIRED).items, name);
      }
    }
    hide Find, TypeOk, Same, RequiredOf;
  }

  lemma FilledOwn(ms: seq<Member>, k: nat, w: Json)
    requires Admitted(Obj(ms)) && TypeOf(ms) == OBJECT && !Has(ms, CONST) && !Has(ms, ENUM)
    requires AllSatisfiable(DeclaredProperties(ms).members)
    ensures SatisfiesOwn(ms, Obj(Filled(ms, k, w)))
  {
    FilledHas(ms, k, w);
    RequiredAreNames(ms);
    hide Satisfiable, Filled, Accepted, WellFormed, SatisfiesOwn, TypeOf, Find;
    forall name <- RequiredOf(ms) ensures Has(Filled(ms, k, w), NameOf(name)) {
      assert name == Str(NameOf(name));
      OrphansAre(RequiredOf(ms), DeclaredProperties(ms).members, name);
    }
    ObjectOwn(ms, Filled(ms, k, w));
  }

  lemma RequiredAreNames(ms: seq<Member>)
    requires Accepted(Obj(ms))
    ensures forall name <- RequiredOf(ms) :: name.Str?
  {
    if Has(ms, REQUIRED) && At(ms, REQUIRED).Arr? {
      forall name <- RequiredOf(ms) ensures name.Str? { DedupeKeeps(At(ms, REQUIRED).items, name); }
    }
  }

  lemma FilledFits(ms: seq<Member>, t: seq<Member>, k: nat, w: Json)
    requires Admitted(Obj(ms)) && WrittenBack(ms, t) && TypeOf(ms) == OBJECT
    requires AllSatisfiable(DeclaredProperties(ms).members)
    requires k < |DeclaredProperties(ms).members| && Satisfies(RoundTrip(DeclaredProperties(ms).members[k].value), w)
    ensures PropertiesHold(t, Filled(ms, k, w))
  {
    var ps, members := DeclaredProperties(ms).members, Filled(ms, k, w);
    DeclaredBack(ms, t);
    DeclaredAdmitted(ms);
    hide Satisfies, Satisfiable, AllSatisfiable, Filled, Admitted, TypeOf, Find, RoundTrip, WrittenBack,
        DeclaredProperties;
    forall i | 0 <= i < |ps|
      ensures Has(members, ps[i].key) && Satisfies(RoundTrip(ps[i].value), At(members, ps[i].key)) {
      FilledAt(ms, k, w, i);
      RoundTripMeans(ps[i].value, At(members, ps[i].key));
    }
  }

  lemma PropertyHolds(ms: seq<Member>, members: seq<Member>, i: nat)
    requires PropertiesHold(ms, members) && i < |DeclaredProperties(ms).members|
    requires Has(members, DeclaredProperties(ms).members[i].key)
    ensures Satisfies(DeclaredProperties(ms).members[i].value, At(members, DeclaredProperties(ms).members[i].key))
  {
    hide Satisfies, DeclaredProperties, Find;
  }

  lemma FilledFails(ms: seq<Member>, k: nat, w: Json)
    requires Admitted(Obj(ms)) && AllSatisfiable(DeclaredProperties(ms).members)
    requires k < |DeclaredProperties(ms).members| && !Satisfies(DeclaredProperties(ms).members[k].value, w)
    ensures !PropertiesHold(ms, Filled(ms, k, w))
  {
    hide *;
    FilledAt(ms, k, w, k);
    if PropertiesHold(ms, Filled(ms, k, w)) { PropertyHolds(ms, Filled(ms, k, w), k); }
  }

  /** A value newly accepted under one property, completed to an object newly accepted by the node. */
  lemma LostInProperty(ms: seq<Member>, t: seq<Member>, k: nat, w: Json)
    requires Admitted(Obj(ms)) && WrittenBack(ms, t) && TypeOf(ms) == OBJECT && PlainThroughout(Obj(ms))
    requires AllSatisfiable(DeclaredProperties(ms).members) && OrphansAllowed(ms)
    requires k < |DeclaredProperties(ms).members| && WellFormed(w)
    requires var p := DeclaredProperties(ms).members[k].value; Satisfies(RoundTrip(p), w) && !Satisfies(p, w)
    ensures NowAccepted(ms, t, Obj(Filled(ms, k, w)))
  {
    hide Satisfies, Satisfiable, AllSatisfiable, Filled, Admitted, WellFormed, SatisfiesOwn, TypeOf, Find, RoundTrip,
        WrittenBack;
    hide DeclaredProperties, PropertiesHold, AdditionalHolds, NowAccepted, FaithfulHere, Back, OrphansOf;
    hide OrphansAllowed;
    PlainWritten(ms, t);
    FilledAllowed(ms, k, w);
    DeclaredBack(ms, t);
    SameAdditional(ms, t, Filled(ms, k, w));
    FilledKeys(ms, k, w);
    FilledOwn(ms, k, w);
    OwnBothWays(ms, t, Obj(Filled(ms, k, w)));
    FilledFits(ms, t, k, w);
    FilledFails(ms, k, w);
    ObjectMeans(t, Filled(ms, k, w));
    ObjectMeans(ms, Filled(ms, k, w));
    Shows(ms, t, Obj(Filled(ms, k, w)));
  }

  lemma DeclaredAdmitted(ms: seq<Member>)
    requires Admitted(Obj(ms))
    ensures forall i :: 0 <= i < |DeclaredProperties(ms).members| ==> Admitted(DeclaredProperties(ms).members[i].value)
  {
    if Has(ms, PROPERTIES) { MemberWellFormed(ms, PROPERTIES); }
  }

  lemma FilledAllowed(ms: seq<Member>, k: nat, w: Json)
    requires AllSatisfiable(DeclaredProperties(ms).members) && OrphansAllowed(ms)
    ensures AdditionalHolds(ms, Filled(ms, k, w))
  {
    hide AllSatisfiable, OrphansAllowed, AdditionalHolds, OrphansOf, DeclaredProperties, ExtraValue;
    var ps := DeclaredProperties(ms).members;
    forall i | 0 <= i < |ps| ensures Has(ps, ps[i].key) { HasAt(ps, i); }
    OrphansHold(ms, FilledProperties(ps, k, w));
  }

  /** What a plain node writes back is plain, with the same rule for undeclared members. */
  lemma PlainWritten(ms: seq<Member>, t: seq<Member>)
    requires Plain(ms) && WrittenBack(ms, t)
    ensures Plain(t) && (Has(t, ADDITIONAL) <==> Has(ms, ADDITIONAL))
    ensures Has(ms, ADDITIONAL) ==> At(t, ADDITIONAL) == At(ms, ADDITIONAL)
  {
    hide Find, WrittenBack;
    VerbatimKeyword(ms, t, CONST);
    VerbatimKeyword(ms, t, ENUM);
    VerbatimKeyword(ms, t, ONE_OF);
    VerbatimKeyword(ms, t, ADDITIONAL);
  }

  // ---------------------------------------------------------------- and through arrays

  /** A length the bounds of the node allow, with at least one element. */
  ghost function RoomLength(ms: seq<Member>): (n: nat)
    requires RoomForOne(ms)
    ensures n >= 1
    ensures HasBound(ms, MIN_ITEMS) && NonNegativeInteger(At(ms, MIN_ITEMS)) ==> n as real >= BoundOf(ms, MIN_ITEMS)
    ensures HasBound(ms, MAX_ITEMS) && (HasBound(ms, MIN_ITEMS) ==> NonNegativeInteger(At(ms, MIN_ITEMS))) ==>
      n as real <= BoundOf(ms, MAX_ITEMS)
  {
    if HasBound(ms, MIN_ITEMS) && BoundOf(ms, MIN_ITEMS) >= 1.0 then BoundOf(ms, MIN_ITEMS).Floor else 1
  }

  lemma ArrayOwn(ms: seq<Member>, items: seq<Json>)
    requires Admitted(Obj(ms)) && TypeOf(ms) == ARRAY && !Has(ms, CONST) && !Has(ms, ENUM) && RoomForOne(ms)
    requires |items| == RoomLength(ms)
    ensures SatisfiesOwn(ms, Arr(items))
  {
    assert MatchesType(Arr(items), TypeList(At(ms, TYPE))[0]);
    assert TypeOk(ms, Arr(items));
    assert HasBound(ms, MIN_ITEMS) ==> NonNegativeInteger(At(ms, MIN_ITEMS));
    hide Find, TypeOk, Same, RoomLength;
  }

  /** A value newly accepted as an item, repeated to an array newly accepted by the node. */
  lemma LostInItems(ms: seq<Member>, t: seq<Member>, w: Json)
    requires Admitted(Obj(ms)) && WrittenBack(ms, t) && TypeOf(ms) == ARRAY && PlainThroughout(Obj(ms))
             && RoomForOne(ms)
    requires Has(ms, ITEMS) && WellFormed(w) && Satisfies(RoundTrip(At(ms, ITEMS)), w) && !Satisfies(At(ms, ITEMS), w)
    ensures NowAccepted(ms, t, Arr(seq(RoomLength(ms), _ => w)))
  {
    hide Satisfies, Admitted, WellFormed, SatisfiesOwn, TypeOf, Find, RoundTrip, WrittenBack;
    hide NowAccepted, RoomForOne, RoomLength, FaithfulHere, Back, OrphansOf, HasBound, NonNegativeInteger;
    var items: seq<Json> := seq(RoomLength(ms), _ => w);
    RepeatedWellFormed(w, RoomLength(ms));
    assert items[0] == w;
    ItemsWritten(ms, t);
    PlainWritten(ms, t);
    ArrayOwn(ms, items);
    OwnBothWays(ms, t, Arr(items));
    ArrayMeans(t, items);
    ArrayMeans(ms, items);
    Shows(ms, t, Arr(items));
  }

  lemma RepeatedWellFormed(w: Json, n: nat)
    requires WellFormed(w)
    ensures WellFormed(Arr(seq(n, _ => w)))
  {
  }

  lemma ItemsWritten(ms: seq<Member>, t: seq<Member>)
    requires WrittenBack(ms, t) && TypeOf(ms) == ARRAY && Has(ms, ITEMS)
    ensures Has(t, ITEMS) && At(t, ITEMS) == RoundTrip(At(ms, ITEMS))
  {
    hide RoundTrip, Find;
    WrittenKeyword(ms, t, ITEMS);
  }

  lemma Shows(ms: seq<Member>, t: seq<Member>, v: Json)
    requires WellFormed(v) && Satisfies(Obj(t), v) && !Satisfies(Obj(ms), v)
    ensures NowAccepted(ms, t, v)
  {
    hide Satisfies, WellFormed;
  }

  // ---------------------------------------------------------------- exactly when the meaning is kept

  /** The first node, from the outside in, that is not faithful; none when the schema is. */
  lemma {:induction false} AnyLossShows(s: Json) returns (v: Json)
    requires Admitted(s) && PlainThroughout(s) && Reachable(s) && !Faithful(s)
    ensures WellFormed(v) && Satisfies(RoundTrip(s), v) && !Satisfies(s, v)
    decreases s
  {
    var ms := s.members;
    var t := Written(ms);
    hide FaithfulHere, Satisfies, RoundTrip, WrittenBack, Find, WellFormed;
    if !FaithfulHere(ms) {
      v := SomethingLost(ms, t);
    } else if TypeOf(ms) == OBJECT {
      DeclaredAdmitted(ms);
      var ps := DeclaredProperties(ms).members;
      var k :| 0 <= k < |ps| && !Faithful(ps[k].value);
      var w := AnyLossShows(ps[k].value);
      LostInProperty(ms, t, k, w);
      v := Obj(Filled(ms, k, w));
    } else {
      MemberWellFormed(ms, ITEMS);
      var w := AnyLossShows(At(ms, ITEMS));
      LostInItems(ms, t, w);
      v := Arr(seq(RoomLength(ms), _ => w));
    }
  }

  /** A schema whose shown nodes are all plain, and where everything shown can occur, accepts the same
      values after the trip exactly when every shown node is faithful, however deep. */
  lemma MeaningKeptIff(s: Json)
    requires Admitted(s) && PlainThroughout(s) && Reachable(s)
    ensures Faithful(s) <==> forall v | WellFormed(v) :: Satisfies(RoundTrip(s), v) <==> Satisfies(s, v)
  {
    hide *;
    if Faithful(s) {
      forall v | WellFormed(v) ensures Satisfies(RoundTrip(s), v) <==> Satisfies(s, v) { RoundTripMeans(s, v); }
    } else {
      var v := AnyLossShows(s);
    }
  }

  // ---------------------------------------------------------------- two promises that are dropped

  const NULLABLE := Obj([Member(TYPE, Arr([Str(STRING), Str("null")]))])

  lemma NullableAdmitted()
    ensures Admitted(NULLABLE) && TypeOf(NULLABLE.members) == ANY && OrphansOf(NULLABLE.members) == []
    ensures Has(NULLABLE.members, TYPE) && TypeList(At(NULLABLE.members, TYPE)) == [Str(STRING), Str("null")]
  {
    assert WellFormed(Str(STRING)) && WellFormed(Str("null"));
    assert WellFormed(Arr([Str(STRING), Str("null")]));
  }

  /** A nullable string: the list of types vanishes, and numbers are accepted. */
  lemma NullableIsDropped()
    ensures Admitted(NULLABLE) && RoundTrip(NULLABLE) == Obj([])
    ensures Satisfies(RoundTrip(NULLABLE), Num(1.0)) && !Satisfies(NULLABLE, Num(1.0))
  {
    NullableAdmitted();
    hide Accepted, WellFormed, TypeOf, OrphansOf;
    var ms := NULLABLE.members;
    assert ms[..0] == [];
    assert Extras(ANY, [], ms) == [];
    assert SchemaToNode(NULLABLE, true) == Blank(ANY, true);
    assert NodeToSchema(Blank(ANY, true)) == Obj([]);
  }

  const MIXED := Obj([Member(TYPE, Str(OBJECT)), Member(REQUIRED, Arr([Str("a"), Str("b")])),
                      Member(PROPERTIES, Obj([Member("a", Obj([]))]))])

  lemma MixedKeywords()
    ensures var ms := MIXED.members;
            && Has(ms, TYPE) && At(ms, TYPE) == Str(OBJECT)
            && Has(ms, REQUIRED) && At(ms, REQUIRED) == Arr([Str("a"), Str("b")])
            && Has(ms, PROPERTIES) && At(ms, PROPERTIES) == Obj([Member("a", Obj([]))])
            && forall q :: q !in {TYPE, REQUIRED, PROPERTIES} ==> !Has(ms, q)
  {
    var ms := MIXED.members;
    assert ms[0].key == TYPE && ms[1].key == REQUIRED && ms[2].key == PROPERTIES;
    HasAt(ms, 0);
    HasAt(ms, 1);
    HasAt(ms, 2);
  }

  lemma MixedAdmitted()
    ensures Admitted(MIXED) && TypeOf(MIXED.members) == OBJECT && Plain(MIXED.members)
    ensures DeclaredProperties(MIXED.members) == Obj([Member("a", Obj([]))])
  {
    hide Find, WellFormed;
    MixedKeywords();
    MixedWellFormed();
    assert Accepted(Obj([])) by { EmptyAccepted(); }
  }

  lemma EmptyAccepted()
    ensures Accepted(Obj([]))
  {
  }

  lemma MixedWellFormed()
    ensures WellFormed(MIXED)
  {
    hide Find;
    assert WellFormed(Str(OBJECT)) && WellFormed(Str("a")) && WellFormed(Str("b")) && WellFormed(Obj([]));
    assert WellFormed(Arr([Str("a"), Str("b")])) && WellFormed(Obj([Member("a", Obj([]))]));
  }

  lemma MixedNames(a: Json, b: Json, declared: seq<Member>)
    requires a != b && Has(declared, NameOf(a)) && !Has(declared, NameOf(b))
    ensures Dedupe([a, b]) == [a, b] && Orphans([a, b], declared) == [b]
  {
    hide Find;
    assert [a, b][..1] == [a] && [a][..0] == [];
    assert Dedupe([a]) == [a] && Orphans([a], declared) == [];
  }

  lemma MixedOrphans()
    ensures RequiredOf(MIXED.members) == [Str("a"), Str("b")] && OrphansOf(MIXED.members) == [Str("b")]
  {
    MixedKeywords();
    MixedNames(Str("a"), Str("b"), [Member("a", Obj([]))]);
    hide Find, Dedupe, Orphans;
  }

  /** An object that requires a declared and an undeclared name: only the undeclared one is still required. */
  lemma DeclaredPromiseIsDropped()
    ensures Admitted(MIXED)
    ensures var v := Obj([Member("b", Null)]); Satisfies(RoundTrip(MIXED), v) && !Satisfies(MIXED, v)
  {
    MixedAdmitted();
    MixedOrphans();
    hide Accepted, WellFormed, TypeOf, OrphansOf, RequiredOf, Satisfies, RoundTrip, WrittenBack, DeclaredProperties;
    var t := Written(MIXED.members);
    LostToRequired(MIXED.members, t, Str("a"));
    assert OrphanMembers([Str("b")], Null) == [Member("b", Null)];
  }
}
