/** The keywords one by one: which schemas are admitted, said of each part of them, and what each keyword asks of
    a value. */
module JsonSchemaKeywords {
  import opened Basics
  import opened JsonValues
  import opened JsonSchema

  // ---------------------------------------------------------------- which schemas are admitted

  /** From a schema to one right inside it. */
  datatype Step = Property(i: nat) | Additional | Element | Branch(i: nat)

  ghost function Inner(s: Json, step: Step): Option<Json> {
    if !s.Obj? then None
    else
      var ms := s.members;
      match step
      case Property(i) =>
        if Has(ms, "properties") && At(ms, "properties").Obj? && i < |At(ms, "properties").members|
        then Some(At(ms, "properties").members[i].value) else None
      case Additional =>
        if Has(ms, "additionalProperties") && !At(ms, "additionalProperties").Bool?
        then Some(At(ms, "additionalProperties")) else None
      case Element => if Has(ms, "items") then Some(At(ms, "items")) else None
      case Branch(i) =>
        if Has(ms, "oneOf") && At(ms, "oneOf").Arr? && i < |At(ms, "oneOf").items|
        then Some(At(ms, "oneOf").items[i]) else None
  }

  ghost function PartAt(s: Json, path: seq<Step>): Option<Json>
    decreases |path|
  {
    if path == [] then Some(s)
    else if Inner(s, path[0]).None? then None
    else PartAt(Inner(s, path[0]).value, path[1..])
  }

  ghost predicate NamesType(name: Json) {
    name in {Str("object"), Str("array"), Str("string"), Str("number"), Str("integer"), Str("boolean"), Str("null")}
  }

  ghost predicate WholeLength(bound: Json) { bound.Num? && exists k: nat :: bound.n == AsReal(k) }

  ghost function AsReal(k: nat): real { k as real }

  ghost predicate WholeLengths(ms: seq<Member>) {
    && (Has(ms, "minItems") ==> WholeLength(At(ms, "minItems")))
    && (Has(ms, "maxItems") ==> WholeLength(At(ms, "maxItems")))
    && (Has(ms, "minLength") ==> WholeLength(At(ms, "minLength")))
    && (Has(ms, "maxLength") ==> WholeLength(At(ms, "maxLength")))
  }

  ghost predicate KeysKnown(ms: seq<Member>) {
    forall m <- ms :: m.key in {
      "type", "const", "enum", "properties", "required", "additionalProperties", "items", "minItems", "maxItems",
      "minLength", "maxLength", "minimum", "maximum", "oneOf",
      "$schema", "$id", "$comment", "title", "description", "examples", "default"}
  }

  /** The keywords of one schema, without looking into the schemas inside it. */
  ghost predicate Understood(s: Json) {
    s.Obj? &&
    var ms := s.members;
    && KeysKnown(ms)
    && (Has(ms, "type") ==>
          var t := At(ms, "type");
          if t.Arr? then t.items != [] && forall name <- t.items :: NamesType(name) else NamesType(t))
    && (Has(ms, "enum") ==> At(ms, "enum").Arr? && At(ms, "enum").items != [])
    && (Has(ms, "required") ==> At(ms, "required").Arr? && forall name <- At(ms, "required").items :: name.Str?)
    && WholeLengths(ms)
    && (Has(ms, "minimum") ==> At(ms, "minimum").Num?)
    && (Has(ms, "maximum") ==> At(ms, "maximum").Num?)
    && (Has(ms, "properties") ==> At(ms, "properties").Obj?)
    && (Has(ms, "oneOf") ==> At(ms, "oneOf").Arr? && |At(ms, "oneOf").items| >= 2)
  }

  ghost predicate AllUnderstood(s: Json) {
    forall path: seq<Step> :: PartAt(s, path).Some? ==> Understood(PartAt(s, path).value)
  }

  /** A schema is admitted exactly when every part of it, at any depth, is understood. */
  lemma {:induction false} AdmittedIffUnderstood(s: Json)
    ensures Accepted(s) <==> AllUnderstood(s)
  {
    if Accepted(s) {
      forall path: seq<Step> | PartAt(s, path).Some? ensures Understood(PartAt(s, path).value) {
        PartsUnderstood(s, path);
      }
    }
    if AllUnderstood(s) { UnderstoodAdmitted(s); }
  }

  lemma WholeLengthMeans(bound: Json)
    ensures NonNegativeInteger(bound) <==> WholeLength(bound)
  {
    if NonNegativeInteger(bound) { assert bound.n == AsReal(bound.n.Floor); }
  }

  lemma LengthsUnderstood(ms: seq<Member>)
    ensures (forall k <- {MIN_ITEMS, MAX_ITEMS, MIN_LENGTH, MAX_LENGTH} :: Has(ms, k) ==> NonNegativeInteger(At(ms, k)))
            <==> WholeLengths(ms)
  {
    hide Find, WholeLength, NonNegativeInteger;
    forall bound ensures NonNegativeInteger(bound) <==> WholeLength(bound) { WholeLengthMeans(bound); }
  }

  lemma KeysUnderstood(ms: seq<Member>)
    ensures (forall m <- ms :: m.key in ANNOTATIONS || m.key in SUPPORTED) <==> KeysKnown(ms)
  {
  }

  lemma TypesNamed(t: Json)
    ensures (TypeList(t) != [] && forall name <- TypeList(t) :: KnownType(name))
            <==> if t.Arr? then t.items != [] && forall name <- t.items :: NamesType(name) else NamesType(t)
  {
    forall name: Json ensures KnownType(name) <==> NamesType(name) {}
    if !t.Arr? { assert TypeList(t)[0] == t; }
  }

  lemma FlatUnderstood(ms: seq<Member>)
    ensures && AcceptedFlat(ms)
            && (Has(ms, PROPERTIES) ==> At(ms, PROPERTIES).Obj?)
            && (Has(ms, ONE_OF) ==> At(ms, ONE_OF).Arr? && |At(ms, ONE_OF).items| >= 2)
            <==> Understood(Obj(ms))
  {
    hide Find, NonNegativeInteger, WholeLengths, KeysKnown, TypeList, KnownType, NamesType;
    if Has(ms, TYPE) { TypesNamed(At(ms, TYPE)); }
    LengthsUnderstood(ms);
    KeysUnderstood(ms);
  }

  lemma {:induction false} PartsUnderstood(s: Json, path: seq<Step>)
    requires Accepted(s) && PartAt(s, path).Some?
    ensures Understood(PartAt(s, path).value)
    decreases |path|
  {
    hide AcceptedFlat, Understood, Find;
    if path == [] { FlatUnderstood(s.members); } else { PartsUnderstood(Inner(s, path[0]).value, path[1..]); }
  }

  lemma {:induction false} UnderstoodAdmitted(s: Json)
    requires AllUnderstood(s)
    ensures Accepted(s)
    decreases s
  {
    hide AcceptedFlat, Find, NonNegativeInteger, WholeLength, NamesType;
    assert PartAt(s, []) == Some(s);
    var ms := s.members;
    FlatUnderstood(ms);
    if Has(ms, PROPERTIES) {
      forall i | 0 <= i < |At(ms, PROPERTIES).members| ensures Accepted(At(ms, PROPERTIES).members[i].value) {
        InnerUnderstood(s, Property(i));
        UnderstoodAdmitted(At(ms, PROPERTIES).members[i].value);
      }
    }
    if Has(ms, ADDITIONAL) && !At(ms, ADDITIONAL).Bool? {
      InnerUnderstood(s, Additional);
      UnderstoodAdmitted(At(ms, ADDITIONAL));
    }
    if Has(ms, ITEMS) {
      InnerUnderstood(s, Element);
      UnderstoodAdmitted(At(ms, ITEMS));
    }
    if Has(ms, ONE_OF) {
      forall i | 0 <= i < |At(ms, ONE_OF).items| ensures Accepted(At(ms, ONE_OF).items[i]) {
        InnerUnderstood(s, Branch(i));
        UnderstoodAdmitted(At(ms, ONE_OF).items[i]);
      }
    }
  }

  lemma InnerUnderstood(s: Json, step: Step)
    requires AllUnderstood(s) && Inner(s, step).Some?
    ensures AllUnderstood(Inner(s, step).value)
  {
    hide Inner, Understood;
    var part := Inner(s, step).value;
    forall path: seq<Step> | PartAt(part, path).Some? ensures Understood(PartAt(part, path).value) {
      assert ([step] + path)[0] == step && ([step] + path)[1..] == path;
      assert PartAt(s, [step] + path) == PartAt(part, path);
    }
  }

  // ---------------------------------------------------------------- what each keyword asks

  /** The kind of value a type names. */
  ghost predicate Named(v: Json, name: Json) {
    || (name == Str("null") && v.Null?) || (name == Str("boolean") && v.Bool?) || (name == Str("string") && v.Str?)
    || (name == Str("array") && v.Arr?) || (name == Str("object") && v.Obj?) || (name == Str("number") && v.Num?)
    || (name == Str("integer") && v.Num? && exists k: int :: v.n == Whole(k))
  }

  ghost function Whole(k: int): real { k as real }

  lemma TypesMean(v: Json, name: Json)
    ensures MatchesType(v, name) <==> Named(v, name)
  {
    if v.Num? && IsInteger(v.n) { assert v.n == Whole(v.n.Floor); }
  }

  /** `type`: one name, or a list of which one must fit. */
  ghost predicate TypeHolds(ms: seq<Member>, v: Json) {
    Has(ms, "type") ==>
      if At(ms, "type").Arr? then exists name <- At(ms, "type").items :: Named(v, name) else Named(v, At(ms, "type"))
  }

  lemma TypeOkMeans(ms: seq<Member>, v: Json)
    ensures TypeOk(ms, v) <==> TypeHolds(ms, v)
  {
    hide MatchesType, Named, Find;
    forall name ensures MatchesType(v, name) <==> Named(v, name) { TypesMean(v, name); }
    if Has(ms, TYPE) && !At(ms, TYPE).Arr? { assert TypeList(At(ms, TYPE))[0] == At(ms, TYPE); }
  }

  ghost predicate ValueHolds(ms: seq<Member>, v: Json) {
    && TypeHolds(ms, v)
    && (Has(ms, "const") ==> Same(v, At(ms, "const")))
    && (Has(ms, "enum") && At(ms, "enum").Arr? ==> exists option <- At(ms, "enum").items :: Same(v, option))
  }

  ghost predicate AtLeastBound(ms: seq<Member>, key: string, n: real) {
    forall bound :: Has(ms, key) && At(ms, key) == Num(bound) ==> n >= bound
  }

  ghost predicate AtMostBound(ms: seq<Member>, key: string, n: real) {
    forall bound :: Has(ms, key) && At(ms, key) == Num(bound) ==> n <= bound
  }

  ghost predicate SizeHolds(ms: seq<Member>, v: Json) {
    && (v.Num? ==> AtLeastBound(ms, "minimum", v.n) && AtMostBound(ms, "maximum", v.n))
    && (v.Str? ==> AtLeastBound(ms, "minLength", |v.s| as real) && AtMostBound(ms, "maxLength", |v.s| as real))
    && (v.Arr? ==> AtLeastBound(ms, "minItems", |v.items| as real) && AtMostBound(ms, "maxItems", |v.items| as real))
    && (v.Obj? && Has(ms, "required") && At(ms, "required").Arr? ==>
          forall name: string :: Str(name) in At(ms, "required").items ==> Has(v.members, name))
  }

  ghost predicate Declared(ms: seq<Member>, name: string) {
    Has(ms, "properties") && At(ms, "properties").Obj? && Has(At(ms, "properties").members, name)
  }

  /** Elements satisfy `items`; a declared member satisfies its property; any other one satisfies
      `additionalProperties`, and there is none where that is false. */
  ghost predicate PartsHold(ms: seq<Member>, v: Json) {
    && (v.Arr? && Has(ms, "items") ==> forall item <- v.items :: Satisfies(At(ms, "items"), item))
    && (v.Obj? ==> forall name: string :: Has(v.members, name) ==>
          if Declared(ms, name) then Satisfies(At(At(ms, "properties").members, name), At(v.members, name))
          else !Has(ms, "additionalProperties") || At(ms, "additionalProperties") == Bool(true)
               || Satisfies(At(ms, "additionalProperties"), At(v.members, name)))
  }

  /** Exactly one branch is satisfied. */
  ghost predicate OneHolds(branches: seq<Json>, v: Json) {
    exists i :: 0 <= i < |branches| && Satisfies(branches[i], v)
                && forall k :: 0 <= k < |branches| && k != i ==> !Satisfies(branches[k], v)
  }

  /** A value satisfies an admitted schema exactly when it keeps each of its keywords. */
  lemma SatisfiesMeans(s: Json, v: Json)
    requires Accepted(s) && WellFormed(s) && WellFormed(v)
    ensures var ms := s.members;
            Satisfies(s, v) <==>
              && ValueHolds(ms, v) && SizeHolds(ms, v) && PartsHold(ms, v)
              && (Has(ms, "oneOf") ==> OneHolds(At(ms, "oneOf").items, v))
  {
    hide SatisfiesOwn, ValueHolds, SizeHolds, PartsHold, OneHolds, SatisfiesInside, ExactlyOne, AcceptedFlat, Find;
    OwnKeywords(s.members, v);
    InsideKeywords(s, v);
    if Has(s.members, ONE_OF) { BranchKeyword(At(s.members, ONE_OF), v); }
  }

  lemma OwnKeywords(ms: seq<Member>, v: Json)
    requires AcceptedFlat(ms)
    ensures SatisfiesOwn(ms, v) <==> ValueHolds(ms, v) && SizeHolds(ms, v)
  {
    hide Find, TypeOk, TypeHolds, Same;
    TypeOkMeans(ms, v);
    BoundsMean(ms);
    if v.Obj? && Has(ms, REQUIRED) { RequiredMeans(At(ms, REQUIRED).items, v.members); }
  }

  lemma BoundsMean(ms: seq<Member>)
    ensures forall key: string, n: real ::
      AtLeastBound(ms, key, n) <==> (HasBound(ms, key) ==> n >= BoundOf(ms, key))
    ensures forall key: string, n: real ::
      AtMostBound(ms, key, n) <==> (HasBound(ms, key) ==> n <= BoundOf(ms, key))
  {
    hide Find;
  }

  lemma RequiredMeans(names: seq<Json>, members: seq<Member>)
    requires forall name <- names :: name.Str?
    ensures (forall name <- names :: Has(members, NameOf(name)))
            <==> forall name: string :: Str(name) in names ==> Has(members, name)
  {
    hide Find;
    if forall name: string :: Str(name) in names ==> Has(members, name) {
      forall name <- names ensures Has(members, NameOf(name)) { assert Str(name.s) in names; }
    }
  }

  lemma BranchKeyword(branches: Json, v: Json)
    requires branches.Arr?
    ensures ExactlyOne(Verdicts(branches, v)) <==> OneHolds(branches.items, v)
  {
    hide Satisfies, Verdicts;
    var holds := Verdicts(branches, v);
    BranchVerdicts(branches, v);
    if ExactlyOne(holds) {
      var i :| 0 <= i < |holds| && holds[i] && forall k :: 0 <= k < |holds| && k != i ==> !holds[k];
      assert Satisfies(branches.items[i], v);
    }
    if OneHolds(branches.items, v) {
      var i :| 0 <= i < |holds| && Satisfies(branches.items[i], v)
               && forall k :: 0 <= k < |holds| && k != i ==> !Satisfies(branches.items[k], v);
      assert holds[i];
    }
  }

  lemma BranchVerdicts(branches: Json, v: Json)
    requires branches.Arr?
    ensures |Verdicts(branches, v)| == |branches.items|
    ensures forall i :: 0 <= i < |branches.items| ==> Verdicts(branches, v)[i] == Satisfies(branches.items[i], v)
  {
    hide Satisfies;
  }

  lemma InsideKeywords(s: Json, v: Json)
    requires Accepted(s) && WellFormed(s) && WellFormed(v)
    ensures SatisfiesInside(s, v) <==> PartsHold(s.members, v)
  {
    hide Satisfies, Find, AcceptedFlat, SatisfiesInside, PartsHold;
    InsideByName(s, v);
  }

  lemma NothingSatisfiesFalse()
    ensures forall w: Json :: !Satisfies(Bool(false), w)
  {
  }

  lemma InsideByName(s: Json, v: Json)
    requires s.Obj? && DistinctKeys(DeclaredProperties(s.members).members)
    requires v.Obj? ==> DistinctKeys(v.members)
    ensures SatisfiesInside(s, v) <==> PartsHold(s.members, v)
  {
    hide Satisfies, Find, DistinctKeys;
    var ms := s.members;
    NothingSatisfiesFalse();
    if v.Obj? {
      DeclaredByName(DeclaredProperties(ms).members, v.members);
      if Has(ms, ADDITIONAL) { OthersByName(At(ms, ADDITIONAL), DeclaredProperties(ms).members, v.members); }
    }
  }

  /** The members of an object gone through by place or by name. */
  lemma DeclaredByName(declared: seq<Member>, members: seq<Member>)
    requires DistinctKeys(declared)
    ensures (forall i :: 0 <= i < |declared| && Has(members, declared[i].key) ==>
               Satisfies(declared[i].value, At(members, declared[i].key)))
            <==> forall name: string :: Has(declared, name) && Has(members, name) ==>
               Satisfies(At(declared, name), At(members, name))
  {
    hide Satisfies, Find;
    PlacesAreNames(declared);
    hide DistinctKeys;
    if forall name: string :: Has(declared, name) && Has(members, name) ==>
               Satisfies(At(declared, name), At(members, name)) {
      forall i | 0 <= i < |declared| && Has(members, declared[i].key)
        ensures Satisfies(declared[i].value, At(members, declared[i].key))
      {
        assert Has(declared, declared[i].key);
      }
    }
  }

  lemma OthersByName(rule: Json, declared: seq<Member>, members: seq<Member>)
    requires DistinctKeys(members)
    ensures (forall i :: 0 <= i < |members| && !Has(declared, members[i].key) ==>
               rule != Bool(false) && Satisfies(rule, members[i].value))
            <==> forall name: string :: Has(members, name) && !Has(declared, name) ==>
               rule != Bool(false) && Satisfies(rule, At(members, name))
  {
    hide Satisfies, Find;
    PlacesAreNames(members);
    hide DistinctKeys;
    if forall name: string :: Has(members, name) && !Has(declared, name) ==>
               rule != Bool(false) && Satisfies(rule, At(members, name)) {
      forall i | 0 <= i < |members| && !Has(declared, members[i].key)
        ensures rule != Bool(false) && Satisfies(rule, members[i].value)
      {
        assert Has(members, members[i].key);
      }
    }
  }

  lemma PlacesAreNames(ms: seq<Member>)
    requires DistinctKeys(ms)
    ensures forall i :: 0 <= i < |ms| ==> Has(ms, ms[i].key) && At(ms, ms[i].key) == ms[i].value
    ensures forall name: string :: Has(ms, name) ==>
      exists i :: 0 <= i < |ms| && ms[i].key == name && ms[i].value == At(ms, name)
  {
    forall i | 0 <= i < |ms| ensures Has(ms, ms[i].key) && At(ms, ms[i].key) == ms[i].value { HasAt(ms, i); }
  }
}
