/** The composer preserves meaning: reading a schema into the tree and writing it back never turns a promise
    into a stricter one, and at faithful schemas it changes nothing. */
module SlaComposerRoundTrip {
  import opened JsonValues
  import opened JsonSchema
  import opened JsonSchemaMeaning
  import opened SlaComposer
  import opened SlaComposerMeaning

  ghost predicate BoundsHold(ms: seq<Member>, v: Json) {
    && (v.Num? ==>
        && (HasBound(ms, MINIMUM) ==> v.n >= BoundOf(ms, MINIMUM))
        && (HasBound(ms, MAXIMUM) ==> v.n <= BoundOf(ms, MAXIMUM)))
    && (v.Str? ==>
        && (HasBound(ms, MIN_LENGTH) ==> |v.s| as real >= BoundOf(ms, MIN_LENGTH))
        && (HasBound(ms, MAX_LENGTH) ==> |v.s| as real <= BoundOf(ms, MAX_LENGTH)))
    && (v.Arr? ==>
        && (HasBound(ms, MIN_ITEMS) ==> |v.items| as real >= BoundOf(ms, MIN_ITEMS))
        && (HasBound(ms, MAX_ITEMS) ==> |v.items| as real <= BoundOf(ms, MAX_ITEMS)))
  }

  lemma BoundsBack(ms: seq<Member>, t: seq<Member>, v: Json)
    requires Accepted(Obj(ms)) && WrittenBack(ms, t)
    ensures BoundsHold(ms, v) ==> BoundsHold(t, v)
    ensures FaithfulHere(ms) && TypeOk(t, v) && BoundsHold(t, v) ==> BoundsHold(ms, v)
  {
    TypeBack(ms, t, v);
    BoundBack(ms, t, v, MINIMUM);
    BoundBack(ms, t, v, MAXIMUM);
    BoundBack(ms, t, v, MIN_LENGTH);
    BoundBack(ms, t, v, MAX_LENGTH);
    BoundBack(ms, t, v, MIN_ITEMS);
    BoundBack(ms, t, v, MAX_ITEMS);
    hide WrittenBack, TypeOk, Accepted, TypeOf, OrphansOf, RequiredOf, Find;
  }

  lemma VerbatimKeyword(ms: seq<Member>, t: seq<Member>, q: string)
    requires WrittenBack(ms, t) && q !in MODELLED
    ensures Has(t, q) <==> Has(ms, q)
    ensures Has(ms, q) ==> At(t, q) == At(ms, q)
  {
    assert Lookup(t, q) == Back(ms, q);
  }

  lemma RequiredBothWays(ms: seq<Member>, t: seq<Member>, v: Json)
    requires Admitted(Obj(ms)) && WrittenBack(ms, t) && v.Obj?
    ensures (Has(ms, REQUIRED) && At(ms, REQUIRED).Arr?
            ==> forall name <- At(ms, REQUIRED).items :: Has(v.members, NameOf(name)))
            ==> Has(t, REQUIRED) && At(t, REQUIRED).Arr?
                ==> forall name <- At(t, REQUIRED).items :: Has(v.members, NameOf(name))
    ensures FaithfulHere(ms) && TypeOk(t, v)
            && (Has(t, REQUIRED) && At(t, REQUIRED).Arr?
               ==> forall name <- At(t, REQUIRED).items :: Has(v.members, NameOf(name)))
            ==> Has(ms, REQUIRED) && At(ms, REQUIRED).Arr?
                ==> forall name <- At(ms, REQUIRED).items :: Has(v.members, NameOf(name))
  {
    RequiredOnlyDrops(ms, t);
    TypeBack(ms, t, v);
    if FaithfulHere(ms) && TypeOk(t, v) && Has(ms, REQUIRED) && At(ms, REQUIRED).Arr? {
      assert TypeOf(ms) in {ANY, OBJECT};
      hide WrittenBack, FaithfulHere, TypeOk, Find, Accepted, WellFormed, TypeOf;
      forall name <- At(ms, REQUIRED).items
          ensures Has(t, REQUIRED) && At(t, REQUIRED).Arr? && name in At(t, REQUIRED).items {
        RequiredSurvives(ms, t, name);
      }
    }
  }

  lemma OwnBothWays(ms: seq<Member>, t: seq<Member>, v: Json)
    requires Admitted(Obj(ms)) && WrittenBack(ms, t)
    ensures SatisfiesOwn(ms, v) ==> SatisfiesOwn(t, v)
    ensures FaithfulHere(ms) && SatisfiesOwn(t, v) ==> SatisfiesOwn(ms, v)
  {
    hide WrittenBack, FaithfulHere, TypeOk, Find, Accepted, WellFormed, Same;
    TypeBack(ms, t, v);
    BoundsBack(ms, t, v);
    VerbatimKeyword(ms, t, CONST);
    VerbatimKeyword(ms, t, ENUM);
    if v.Obj? { RequiredBothWays(ms, t, v); }
  }

  // ---------------------------------------------------------------- the parts of the schema

  /** The clause of `SatisfiesInside` about declared properties. */
  ghost predicate PropertiesHold(ms: seq<Member>, members: seq<Member>) {
    var ps := DeclaredProperties(ms).members;
    forall i :: 0 <= i < |ps| && Has(members, ps[i].key) ==> Satisfies(ps[i].value, At(members, ps[i].key))
  }

  /** The clause of `SatisfiesInside` about members no property declares. */
  ghost predicate AdditionalHolds(ms: seq<Member>, members: seq<Member>) {
    Has(ms, ADDITIONAL) && At(ms, ADDITIONAL) != Bool(true) ==>
      forall i :: 0 <= i < |members| && !Has(DeclaredProperties(ms).members, members[i].key) ==>
        At(ms, ADDITIONAL) != Bool(false) && Satisfies(At(ms, ADDITIONAL), members[i].value)
  }

  lemma InsideOfObject(ms: seq<Member>, members: seq<Member>)
    ensures SatisfiesInside(Obj(ms), Obj(members)) <==> PropertiesHold(ms, members) && AdditionalHolds(ms, members)
  {
    hide Satisfies, Find;
  }

  lemma SameAdditional(ms: seq<Member>, t: seq<Member>, members: seq<Member>)
    requires Has(t, ADDITIONAL) <==> Has(ms, ADDITIONAL)
    requires Has(ms, ADDITIONAL) ==> At(t, ADDITIONAL) == At(ms, ADDITIONAL)
    requires forall q :: Has(DeclaredProperties(t).members, q) <==> Has(DeclaredProperties(ms).members, q)
    ensures AdditionalHolds(ms, members) <==> AdditionalHolds(t, members)
  {
    hide Satisfies, DeclaredProperties, Find;
  }

  lemma {:induction false} DeclaredBack(ms: seq<Member>, t: seq<Member>)
    requires Admitted(Obj(ms)) && WrittenBack(ms, t)
    ensures TypeOf(ms) != OBJECT ==> Lookup(t, PROPERTIES) == Lookup(ms, PROPERTIES)
    ensures TypeOf(ms) == OBJECT ==> DeclaredProperties(t) == Obj(TrippedMembers(DeclaredProperties(ms).members))
    ensures forall q :: Has(DeclaredProperties(t).members, q) <==> Has(DeclaredProperties(ms).members, q)
  {
    hide Rows, Entries, RoundTrip, RequiredOf;
    assert Lookup(t, PROPERTIES) == Back(ms, PROPERTIES);
    var ps := DeclaredProperties(ms).members;
    if TypeOf(ms) == OBJECT && Has(ms, PROPERTIES) && At(ms, PROPERTIES).Obj? {
      MemberWellFormed(ms, PROPERTIES);
      EntriesOfRows(At(ms, PROPERTIES), RequiredOf(ms), |ps|);
      assert TrippedMembers(ps)[..|ps|] == TrippedMembers(ps);
    }
    forall q ensures Has(DeclaredProperties(t).members, q) <==> Has(ps, q) {
      if TypeOf(ms) == OBJECT { SameFind(TrippedMembers(ps), ps, q); }
    }
  }

  /** Unconditionally, whatever the schema accepts is still accepted after the trip; and at a faithful schema
      nothing more is. */
  lemma {:induction false} RoundTripMeans(s: Json, v: Json)
    requires Admitted(s)
    ensures Satisfies(s, v) ==> Satisfies(RoundTrip(s), v)
    ensures Faithful(s) && Satisfies(RoundTrip(s), v) ==> Satisfies(s, v)
    decreases s, 2
  {
    var ms := s.members;
    var t := Written(ms);
    hide RoundTrip, Admitted, SatisfiesOwn, SatisfiesInside, FaithfulHere, Back, WrittenBack, Find;
    OwnBothWays(ms, t, v);
    VerbatimKeyword(ms, t, ONE_OF);
    InsideBothWays(s, t, v);
  }

  lemma {:induction false} InsideBothWays(s: Json, t: seq<Member>, v: Json)
    requires Admitted(s) && WrittenBack(s.members, t)
    ensures SatisfiesInside(s, v) ==> SatisfiesInside(Obj(t), v)
    ensures Faithful(s) && SatisfiesInside(Obj(t), v) ==> SatisfiesInside(s, v)
    decreases s, 1
  {
    var ms := s.members;
    if v.Arr? {
      ItemsBothWays(s, t, v);
    } else if v.Obj? {
      PropertiesBothWays(s, t, v);
      DeclaredBack(ms, t);
      VerbatimKeyword(ms, t, ADDITIONAL);
      hide Satisfies, RoundTrip, WrittenBack, Find, FaithfulHere, DeclaredProperties, SatisfiesInside, AdditionalHolds,
          PropertiesHold;
      SameAdditional(ms, t, v.members);
      InsideOfObject(ms, v.members);
      InsideOfObject(t, v.members);
    }
  }

  lemma {:induction false} ItemsBothWays(s: Json, t: seq<Member>, v: Json)
    requires Admitted(s) && WrittenBack(s.members, t) && v.Arr?
    ensures SatisfiesInside(s, v) ==> SatisfiesInside(Obj(t), v)
    ensures Faithful(s) && SatisfiesInside(Obj(t), v) ==> SatisfiesInside(s, v)
    decreases s, 0
  {
    var ms := s.members;
    assert Lookup(t, ITEMS) == Back(ms, ITEMS);
    hide Satisfies, RoundTrip, WrittenBack, Find, FaithfulHere;
    if Has(ms, ITEMS) && TypeOf(ms) == ARRAY {
      MemberWellFormed(ms, ITEMS);
      forall i | 0 <= i < |v.items|
        ensures Satisfies(At(ms, ITEMS), v.items[i]) ==> Satisfies(RoundTrip(At(ms, ITEMS)), v.items[i])
        ensures Faithful(s) && Satisfies(RoundTrip(At(ms, ITEMS)), v.items[i]) ==> Satisfies(At(ms, ITEMS), v.items[i])
      {
        RoundTripMeans(At(ms, ITEMS), v.items[i]);
      }
    }
  }

  lemma {:induction false} PropertiesBothWays(s: Json, t: seq<Member>, v: Json)
    requires Admitted(s) && WrittenBack(s.members, t) && v.Obj?
    ensures PropertiesHold(s.members, v.members) ==> PropertiesHold(t, v.members)
    ensures Faithful(s) && PropertiesHold(t, v.members) ==> PropertiesHold(s.members, v.members)
    decreases s, 0
  {
    var ms := s.members;
    DeclaredBack(ms, t);
    hide Satisfies, RoundTrip, WrittenBack, Find, FaithfulHere;
    if TypeOf(ms) == OBJECT && Has(ms, PROPERTIES) && At(ms, PROPERTIES).Obj? {
      var ps := At(ms, PROPERTIES).members;
      MemberWellFormed(ms, PROPERTIES);
      forall i | 0 <= i < |ps| && Has(v.members, ps[i].key)
        ensures Satisfies(ps[i].value, At(v.members, ps[i].key))
                ==> Satisfies(RoundTrip(ps[i].value), At(v.members, ps[i].key))
        ensures Faithful(s) && Satisfies(RoundTrip(ps[i].value), At(v.members, ps[i].key))
                ==> Satisfies(ps[i].value, At(v.members, ps[i].key))
      {
        RoundTripMeans(ps[i].value, At(v.members, ps[i].key));
      }
    }
  }
}
