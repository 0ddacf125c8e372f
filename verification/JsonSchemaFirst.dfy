/** Which failure `validate` reports when there are several: the first in a fixed order of keywords, elements and
    names, and what its `expected` and `actual` say of the value. */
module JsonSchemaFirst {
  import opened Basics
  import opened JsonValues
  import opened JsonPointers
  import opened JsonSchema
  import opened JsonSchemaMeaning
  import opened JsonSchemaReports
  import opened Texts

  // ---------------------------------------------------------------- what a failure says

  /** The description of a value in a report: its kind, and its size or what it is; of long strings the first
      forty characters. */
  ghost predicate Depicts(v: Json, a: Actual) {
    match v
    case Null => a == Described(NullValue)
    case Arr(items) => a == Described(ArrayOf(|items|))
    case Obj(ms) => a == Described(ObjectOf(|ms|))
    case Num(n) => a == Described(NumberOf(n))
    case Bool(b) => a == Described(BooleanOf(b))
    case Str(s) => a == Described(if |s| <= 40 then StringOf(s, false) else StringOf(s[..40], true))
  }

  lemma DescribeDepicts(v: Json)
    ensures Depicts(v, Described(Describe(v)))
  {
  }

  ghost predicate Bound(ms: seq<Member>, key: string, bound: real) { Has(ms, key) && At(ms, key) == Num(bound) }

  ghost predicate ValueHolds(ms: seq<Member>, v: Json) {
    && TypeOk(ms, v)
    && (Has(ms, "const") ==> Same(v, At(ms, "const")))
    && (Has(ms, "enum") ==> At(ms, "enum").Arr? ==> exists option <- At(ms, "enum").items :: Same(v, option))
  }

  /** The keyword that `expected` names stands in the schema, the value breaks it, every keyword tried before it
      holds, and `actual` is what the value has instead. */
  ghost predicate Explains(part: Json, v: Json, f: Failure)
    requires part.Obj?
  {
    var ms := part.members;
    match f.expected
    case OneOfTypes(names) =>
      Has(ms, "type") && names == TypeList(At(ms, "type")) && !TypeOk(ms, v) && Depicts(v, f.actual)
    case EqualTo(c) =>
      TypeOk(ms, v) && Has(ms, "const") && c == At(ms, "const") && !Same(v, c) && Depicts(v, f.actual)
    case AmongValues(options) =>
      && TypeOk(ms, v) && (Has(ms, "const") ==> Same(v, At(ms, "const")))
      && Has(ms, "enum") && At(ms, "enum") == Arr(options) && (forall o <- options :: !Same(v, o))
      && Depicts(v, f.actual)
    case AtLeast(bound) =>
      ValueHolds(ms, v) && v.Num? && Bound(ms, "minimum", bound) && v.n < bound && f.actual == NumberSeen(v.n)
    case AtMost(bound) =>
      && ValueHolds(ms, v) && v.Num? && Bound(ms, "maximum", bound) && v.n > bound && f.actual == NumberSeen(v.n)
      && forall low :: Bound(ms, "minimum", low) ==> v.n >= low
    case LengthAtLeast(bound) =>
      && ValueHolds(ms, v) && v.Str? && Bound(ms, "minLength", bound) && |v.s| as real < bound
      && f.actual == LengthSeen(|v.s|)
    case LengthAtMost(bound) =>
      && ValueHolds(ms, v) && v.Str? && Bound(ms, "maxLength", bound) && |v.s| as real > bound
      && f.actual == LengthSeen(|v.s|)
      && forall low :: Bound(ms, "minLength", low) ==> |v.s| as real >= low
    case ItemsAtLeast(bound) =>
      && ValueHolds(ms, v) && v.Arr? && Bound(ms, "minItems", bound) && |v.items| as real < bound
      && f.actual == ItemsSeen(|v.items|)
    case ItemsAtMost(bound) =>
      && ValueHolds(ms, v) && v.Arr? && Bound(ms, "maxItems", bound) && |v.items| as real > bound
      && f.actual == ItemsSeen(|v.items|)
      && forall low :: Bound(ms, "minItems", low) ==> |v.items| as real >= low
    case ExactlyOneOf(alternatives) =>
      && SatisfiesOwn(ms, v) && SatisfiesInside(part, v)
      && Has(ms, "oneOf") && At(ms, "oneOf").Arr? && alternatives == |At(ms, "oneOf").items|
      && f.actual == Matched(SatisfiedFrom(At(ms, "oneOf"), v, 0)) && SatisfiedFrom(At(ms, "oneOf"), v, 0) != 1
    case _ => false
  }

  /** `name` is the first required name the object lacks, and the keywords tried before hold. */
  ghost predicate LacksFirst(ms: seq<Member>, v: Json, name: string) {
    && ValueHolds(ms, v) && v.Obj? && Has(ms, "required") && At(ms, "required").Arr?
    && var names := At(ms, "required").items;
       exists i :: 0 <= i < |names| && NameOf(names[i]) == name && !Has(v.members, name)
                   && forall k :: 0 <= k < i ==> Has(v.members, NameOf(names[k]))
  }

  lemma {:induction false} FirstMissingIsFirst(names: seq<Json>, ms: seq<Member>)
    requires FirstMissing(names, ms).Some?
    ensures exists i :: 0 <= i < |names| && NameOf(names[i]) == FirstMissing(names, ms).value
                        && !Has(ms, NameOf(names[i])) && forall k :: 0 <= k < i ==> Has(ms, NameOf(names[k]))
  {
    hide Find;
    if Has(ms, NameOf(names[0])) {
      FirstMissingIsFirst(names[1..], ms);
      var rest := names[1..];
      var i :| 0 <= i < |rest| && NameOf(rest[i]) == FirstMissing(names, ms).value
               && !Has(ms, NameOf(rest[i])) && forall k :: 0 <= k < i ==> Has(ms, NameOf(rest[k]));
      assert names[i + 1] == rest[i] && forall k :: 1 <= k < i + 1 ==> names[k] == rest[k - 1];
    } else {
      assert NameOf(names[0]) == FirstMissing(names, ms).value;
    }
  }

  /** A failure of the keywords that need no recursion. */
  lemma OwnExplained(part: Json, v: Json, p: string)
    requires part.Obj? && Admitted(part) && WellFormed(v) && CheckOwn(part.members, v, p).Fails?
    ensures var f := CheckOwn(part.members, v, p).failure;
            if f.expected.Present? then
              f.actual == Absent && exists name :: f.pointer == Child(p, name) && LacksFirst(part.members, v, name)
            else f.pointer == p && Explains(part, v, f)
  {
    hide DeepEqual, Same, Find, WellFormed, Accepted, TypeOk, SatisfiesInside, SatisfiesOwn;
    var ms := part.members;
    if CheckValue(ms, v, p).Fails? {
      ValueExplained(part, v, p);
    } else {
      ValueMeans(ms, v, p);
      BoundsExplained(part, v, p);
    }
  }

  lemma ValueExplained(part: Json, v: Json, p: string)
    requires part.Obj? && Admitted(part) && WellFormed(v) && CheckValue(part.members, v, p).Fails?
    ensures var f := CheckValue(part.members, v, p).failure;
            f.pointer == p && !f.expected.Present? && Explains(part, v, f)
  {
    hide DeepEqual, Same, Find, WellFormed, Accepted, TypeOk, Describe, Depicts;
    var ms := part.members;
    DescribeDepicts(v);
    TypeBroken(ms, v);
    if Has(ms, CONST) {
      MemberWellFormed(ms, CONST);
      DeepEqualIsSame(v, At(ms, CONST));
    }
    if Has(ms, ENUM) && At(ms, ENUM).Arr? {
      MemberWellFormed(ms, ENUM);
      ElementsWellFormed(At(ms, ENUM).items);
      forall option <- At(ms, ENUM).items ensures DeepEqual(v, option) <==> Same(v, option) {
        DeepEqualIsSame(v, option);
      }
    }
  }

  lemma TypeBroken(ms: seq<Member>, v: Json)
    ensures !TypeOk(ms, v) ==> Has(ms, TYPE)
  {
    hide Find;
  }

  lemma ElementsWellFormed(items: seq<Json>)
    requires WellFormed(Arr(items))
    ensures forall item <- items :: WellFormed(item)
  {
  }

  lemma BoundsExplained(part: Json, v: Json, p: string)
    requires part.Obj? && Admitted(part) && ValueHolds(part.members, v) && CheckBounds(part.members, v, p).Fails?
    ensures var f := CheckBounds(part.members, v, p).failure;
            if f.expected.Present? then
              f.actual == Absent && exists name :: f.pointer == Child(p, name) && LacksFirst(part.members, v, name)
            else f.pointer == p && Explains(part, v, f)
  {
    hide ValueHolds, Same, Find, WellFormed, Accepted, TypeOk, FirstMissing;
    var ms := part.members;
    if v.Obj? { FirstMissingIsFirst(At(ms, REQUIRED).items, v.members); }
  }

  // ---------------------------------------------------------------- what is tried before

  ghost predicate Allowed(rule: Json, v: Json) { rule == Bool(true) || (rule != Bool(false) && Satisfies(rule, v)) }

  ghost predicate DeclaredHold(ms: seq<Member>, members: seq<Member>, before: string -> bool) {
    var declared := DeclaredProperties(ms).members;
    forall q :: Has(declared, q) && Has(members, q) && before(q) ==> Satisfies(At(declared, q), At(members, q))
  }

  ghost predicate OthersAllowed(ms: seq<Member>, members: seq<Member>, before: string -> bool) {
    Has(ms, "additionalProperties") &&
    var declared := DeclaredProperties(ms).members;
    forall q :: Has(members, q) && !Has(declared, q) && before(q) ==>
      Allowed(At(ms, "additionalProperties"), At(members, q))
  }

  ghost function SmallerThan(name: string): string -> bool { (q: string) => Less(q, name) }

  ghost function AnyName(): string -> bool { (q: string) => true }

  /** Everything that is tried before the element or member `token` holds: the keywords of the node itself; of
      elements those of smaller index; of declared members those of smaller name; and all of these before any
      undeclared one, which come in the order of their names too. */
  ghost predicate Before(s: Json, v: Json, token: string)
    requires s.Obj?
  {
    var ms := s.members;
    && SatisfiesOwn(ms, v)
    && match v
       case Arr(items) =>
         && Has(ms, "items")
         && exists i :: 0 <= i < |items| && token == Decimal(i)
                        && forall k :: 0 <= k < i ==> Satisfies(At(ms, "items"), items[k])
       case Obj(members) =>
         if Has(DeclaredProperties(ms).members, token) then DeclaredHold(ms, members, SmallerThan(token))
         else DeclaredHold(ms, members, AnyName()) && OthersAllowed(ms, members, SmallerThan(token))
       case _ => false
  }

  ghost predicate EarlierHold(s: Json, v: Json, path: seq<string>)
    decreases |path|
  {
    path == [] ||
    (s.Obj? && Before(s, v, path[0]) && StepInto(s, v, path[0]).Some?
     && var (part, w) := StepInto(s, v, path[0]).value; EarlierHold(part, w, path[1..]))
  }

  /** The failure is of the value at `place` itself, the first there, and nothing tried before `place` fails. */
  ghost predicate IsFirst(s: Json, v: Json, p: string, place: seq<string>, f: Failure) {
    && EarlierHold(s, v, place) && Governing(s, v, place).Some?
    && var (part, w) := Governing(s, v, place).value;
       if part == Bool(false) then
         f.pointer == p + Render(place) && f.expected == NoSuchMember && Depicts(w, f.actual)
       else
         && part.Obj?
         && if f.expected.Present? then
              && f.actual == Absent
              && exists name :: f.pointer == Child(p + Render(place), name) && LacksFirst(part.members, w, name)
            else f.pointer == p + Render(place) && Explains(part, w, f)
  }

  lemma FirstHere(s: Json, v: Json, p: string, f: Failure)
    requires s.Obj? || s == Bool(false)
    requires s == Bool(false) ==> f.pointer == p && f.expected == NoSuchMember && Depicts(v, f.actual)
    requires s.Obj? ==>
      if f.expected.Present? then
        f.actual == Absent && exists name :: f.pointer == Child(p, name) && LacksFirst(s.members, v, name)
      else f.pointer == p && Explains(s, v, f)
    ensures IsFirst(s, v, p, [], f)
  {
    assert p + Render([]) == p;
    hide Explains, LacksFirst, Depicts;
    assert Governing(s, v, []) == Some((s, v));
  }

  lemma FirstInside(s: Json, v: Json, token: string, p: string, place: seq<string>, f: Failure)
    requires s.Obj? && Before(s, v, token) && StepInto(s, v, token).Some?
    requires var (part, w) := StepInto(s, v, token).value; IsFirst(part, w, Child(p, token), place, f)
    ensures IsFirst(s, v, p, [token] + place, f)
  {
    hide Explains, LacksFirst, Depicts, Before, StepInto, Governing, Render, Child;
    var (part, w) := StepInto(s, v, token).value;
    GoverningJoins(s, v, token, place);
    RenderJoins(p, token, place);
    assert ([token] + place)[0] == token && ([token] + place)[1..] == place;
  }

  // ---------------------------------------------------------------- the first failure

  /** The failure reported is the first there is, and is described as it is. */
  lemma {:induction false} FirstFailure(s: Json, v: Json, p: string) returns (place: seq<string>)
    requires Admitted(s) && WellFormed(v) && Check(s, v, p).Fails?
    ensures IsFirst(s, v, p, place, Check(s, v, p).failure)
    decreases s, 2, 0
  {
    hide IsFirst, CheckOwn, CheckInside, CheckOneOf, SatisfiesOwn, Accepted, WellFormed, Explains, LacksFirst;
    OwnMeans(s.members, v, p);
    if CheckOwn(s.members, v, p).Fails? {
      OwnExplained(s, v, p);
      FirstHere(s, v, p, CheckOwn(s.members, v, p).failure);
      place := [];
    } else {
      InsideMeans(s, v, p);
      if CheckInside(s, v, p).Fails? {
        place := InsideFirst(s, v, p);
      } else {
        OneOfExplained(s, v, p);
        FirstHere(s, v, p, CheckOneOf(s, v, p).failure);
        place := [];
      }
    }
  }

  lemma OneOfExplained(s: Json, v: Json, p: string)
    requires Admitted(s) && WellFormed(v) && SatisfiesOwn(s.members, v) && SatisfiesInside(s, v)
    requires CheckOneOf(s, v, p).Fails?
    ensures var f := CheckOneOf(s, v, p).failure;
            f.pointer == p && !f.expected.Present? && Explains(s, v, f)
  {
    hide SatisfiesOwn, SatisfiesInside, CountMatches, SatisfiedFrom, AcceptedFlat, Find;
    MemberWellFormed(s.members, ONE_OF);
    CountMeans(At(s.members, ONE_OF), v, p, 0);
  }

  lemma {:induction false} InsideFirst(s: Json, v: Json, p: string) returns (place: seq<string>)
    requires Admitted(s) && WellFormed(v) && SatisfiesOwn(s.members, v) && CheckInside(s, v, p).Fails?
    ensures IsFirst(s, v, p, place, CheckInside(s, v, p).failure)
    decreases s, 1, 1
  {
    hide IsFirst, SatisfiesOwn, AcceptedFlat, Find, DeclaredProperties, SortedKeys, Satisfies;
    var ms := s.members;
    if v.Arr? {
      place := ItemsFirst(s, v, p, 0);
    } else {
      place := MembersFirst(s, v, p);
    }
  }

  lemma {:induction false} MembersFirst(s: Json, v: Json, p: string) returns (place: seq<string>)
    requires Admitted(s) && WellFormed(v) && SatisfiesOwn(s.members, v) && v.Obj? && CheckInside(s, v, p).Fails?
    ensures IsFirst(s, v, p, place, CheckInside(s, v, p).failure)
    decreases s, 1, 0
  {
    hide IsFirst, SatisfiesOwn, AcceptedFlat, Find, SortedKeys, Satisfies, CheckProperties, CheckAdditional;
    var ms := s.members;
    var names := if Has(ms, PROPERTIES) then SortedKeys(DeclaredProperties(ms).members) else [];
    if Has(ms, PROPERTIES) {
      MemberWellFormed(ms, PROPERTIES);
      NamesInOrder(DeclaredProperties(ms).members);
    }
    if Has(ms, PROPERTIES) && CheckProperties(At(ms, PROPERTIES), names, v.members, p).Fails? {
      place := PropertiesFirst(s, v, p, names);
    } else {
      if Has(ms, PROPERTIES) { DeclaredPassed(s, v, p, names); } else { NothingDeclared(ms); }
      NamesInOrder(v.members);
      place := AdditionalFirst(s, v, p, SortedKeys(v.members));
    }
  }

  lemma NamesInOrder(ms: seq<Member>)
    requires DistinctKeys(ms)
    ensures Ascending(SortedKeys(ms)) && forall q :: q in SortedKeys(ms) <==> Has(ms, q)
  {
    SortSorts(Keys(ms));
    forall q ensures q in SortedKeys(ms) <==> Has(ms, q) { KeyListed(ms, q); }
  }

  lemma NothingDeclared(ms: seq<Member>)
    requires !Has(ms, PROPERTIES)
    ensures forall q :: !Has(DeclaredProperties(ms).members, q)
  {
  }

  lemma DeclaredPassed(s: Json, v: Json, p: string, names: seq<string>)
    requires Admitted(s) && WellFormed(v) && v.Obj? && Has(s.members, PROPERTIES)
    requires At(s.members, PROPERTIES).Obj? && forall q :: q in names <==> Has(At(s.members, PROPERTIES).members, q)
    requires CheckProperties(At(s.members, PROPERTIES), names, v.members, p).Conforms?
    ensures DeclaredHold(s.members, v.members, AnyName())
  {
    hide Satisfies, CheckProperties, AcceptedFlat, Find;
    MemberWellFormed(s.members, PROPERTIES);
    PropertiesMean(At(s.members, PROPERTIES), names, v.members, p);
  }

  lemma TailAscends(names: seq<string>)
    requires Ascending(names) && names != []
    ensures Ascending(names[1..]) && names[0] !in names[1..]
    ensures forall q :: Less(q, names[0]) ==> q !in names
  {
    forall i | 0 <= i < |names[1..]| ensures names[1..][i] != names[0] { LessTrichotomy(names[0], names[1..][i]); }
    forall q | Less(q, names[0]) ensures q !in names {
      if q in names {
        var i :| 0 <= i < |names| && names[i] == q;
        LessTrichotomy(q, names[0]);
      }
    }
  }

  lemma {:induction false} PropertiesFirst(s: Json, v: Json, p: string, names: seq<string>)
    returns (place: seq<string>)
    requires Admitted(s) && WellFormed(v) && SatisfiesOwn(s.members, v) && v.Obj?
    requires Has(s.members, PROPERTIES) && At(s.members, PROPERTIES).Obj? && Ascending(names)
    requires forall q :: Has(At(s.members, PROPERTIES).members, q) && Has(v.members, q) && q !in names ==>
      Satisfies(At(At(s.members, PROPERTIES).members, q), At(v.members, q))
    requires CheckProperties(At(s.members, PROPERTIES), names, v.members, p).Fails?
    ensures IsFirst(s, v, p, place, CheckProperties(At(s.members, PROPERTIES), names, v.members, p).failure)
    decreases s, 0, |names|
  {
    hide IsFirst, SatisfiesOwn, Find, Check, Satisfies, AcceptedFlat, Ascending, Before;
    var properties, name := At(s.members, PROPERTIES), names[0];
    MemberWellFormed(s.members, PROPERTIES);
    TailAscends(names);
    assert names == [name] + names[1..];
    if Has(v.members, name) && Has(properties.members, name) {
      var (part, w) := (At(properties.members, name), At(v.members, name));
      MemberWellFormed(properties.members, name);
      MemberWellFormed(v.members, name);
      CheckMeans(part, w, Child(p, name));
      if Check(part, w, Child(p, name)).Fails? {
        var inside := FirstFailure(part, w, Child(p, name));
        BeforeDeclared(s, v, name);
        FirstInside(s, v, name, p, inside, Check(part, w, Child(p, name)).failure);
        return [name] + inside;
      }
    }
    place := PropertiesFirst(s, v, p, names[1..]);
  }

  lemma BeforeDeclared(s: Json, v: Json, name: string)
    requires s.Obj? && v.Obj? && SatisfiesOwn(s.members, v) && Has(v.members, name)
    requires Has(s.members, PROPERTIES) && At(s.members, PROPERTIES).Obj?
    requires Has(At(s.members, PROPERTIES).members, name)
    requires forall q :: Has(At(s.members, PROPERTIES).members, q) && Has(v.members, q) && Less(q, name) ==>
      Satisfies(At(At(s.members, PROPERTIES).members, q), At(v.members, q))
    ensures Before(s, v, name)
  {
    hide SatisfiesOwn, Find, Satisfies, Less;
  }

  lemma {:induction false} AdditionalFirst(s: Json, v: Json, p: string, names: seq<string>)
    returns (place: seq<string>)
    requires Admitted(s) && WellFormed(v) && SatisfiesOwn(s.members, v) && v.Obj? && Has(s.members, ADDITIONAL)
    requires DeclaredHold(s.members, v.members, AnyName()) && Ascending(names)
    requires forall q :: Has(v.members, q) && !Has(DeclaredProperties(s.members).members, q) && q !in names ==>
      Allowed(At(s.members, ADDITIONAL), At(v.members, q))
    requires CheckAdditional(At(s.members, ADDITIONAL), DeclaredProperties(s.members).members, names, v.members,
                             p).Fails?
    ensures IsFirst(s, v, p, place,
                    CheckAdditional(At(s.members, ADDITIONAL), DeclaredProperties(s.members).members, names,
                                    v.members, p).failure)
    decreases s, 0, |names|
  {
    hide IsFirst, SatisfiesOwn, Find, Check, Satisfies, AcceptedFlat, Ascending, Before, DeclaredProperties;
    hide DeclaredHold, Describe;
    var rule, declared, name := At(s.members, ADDITIONAL), DeclaredProperties(s.members).members, names[0];
    MemberWellFormed(s.members, ADDITIONAL);
    TailAscends(names);
    assert names == [name] + names[1..];
    if Has(v.members, name) && !Has(declared, name) && rule != Bool(true) {
      var w := At(v.members, name);
      MemberWellFormed(v.members, name);
      BeforeUndeclared(s, v, name);
      if rule == Bool(false) {
        var f := Failure(Child(p, name), NoSuchMember, Described(Describe(w)));
        DescribeDepicts(w);
        FirstHere(rule, w, Child(p, name), f);
        FirstInside(s, v, name, p, [], f);
        return [name] + [];
      }
      CheckMeans(rule, w, Child(p, name));
      if Check(rule, w, Child(p, name)).Fails? {
        var inside := FirstFailure(rule, w, Child(p, name));
        FirstInside(s, v, name, p, inside, Check(rule, w, Child(p, name)).failure);
        return [name] + inside;
      }
    }
    place := AdditionalFirst(s, v, p, names[1..]);
  }

  lemma BeforeUndeclared(s: Json, v: Json, name: string)
    requires s.Obj? && v.Obj? && SatisfiesOwn(s.members, v) && Has(v.members, name) && Has(s.members, ADDITIONAL)
    requires !Has(DeclaredProperties(s.members).members, name) && DeclaredHold(s.members, v.members, AnyName())
    requires forall q :: Has(v.members, q) && !Has(DeclaredProperties(s.members).members, q) && Less(q, name) ==>
      Allowed(At(s.members, ADDITIONAL), At(v.members, q))
    ensures Before(s, v, name) && StepInto(s, v, name) == Some((At(s.members, ADDITIONAL), At(v.members, name)))
  {
    hide SatisfiesOwn, Find, Satisfies, Less, DeclaredProperties, DeclaredHold, Allowed;
  }

  lemma BeforeElement(s: Json, v: Json, i: nat)
    requires s.Obj? && v.Arr? && SatisfiesOwn(s.members, v) && Has(s.members, ITEMS) && i < |v.items|
    requires forall k :: 0 <= k < i ==> Satisfies(At(s.members, ITEMS), v.items[k])
    ensures Before(s, v, Decimal(i)) && StepInto(s, v, Decimal(i)) == Some((At(s.members, ITEMS), v.items[i]))
  {
    hide SatisfiesOwn, Find, Satisfies;
    IndexReads(i);
  }

  lemma {:induction false} ItemsFirst(s: Json, v: Json, p: string, i: nat) returns (place: seq<string>)
    requires Admitted(s) && WellFormed(v) && SatisfiesOwn(s.members, v) && v.Arr? && Has(s.members, ITEMS)
    requires i <= |v.items| && forall k :: 0 <= k < i ==> Satisfies(At(s.members, ITEMS), v.items[k])
    requires CheckItems(At(s.members, ITEMS), v.items, p, i).Fails?
    ensures IsFirst(s, v, p, place, CheckItems(At(s.members, ITEMS), v.items, p, i).failure)
    decreases s, 0, |v.items| - i
  {
    hide IsFirst, SatisfiesOwn, Find, Check, Satisfies, AcceptedFlat, Before, StepInto, Decimal;
    var items := At(s.members, ITEMS);
    MemberWellFormed(s.members, ITEMS);
    CheckMeans(items, v.items[i], Child(p, Decimal(i)));
    if Check(items, v.items[i], Child(p, Decimal(i))).Fails? {
      var inside := FirstFailure(items, v.items[i], Child(p, Decimal(i)));
      BeforeElement(s, v, i);
      FirstInside(s, v, Decimal(i), p, inside, Check(items, v.items[i], Child(p, Decimal(i))).failure);
      place := [Decimal(i)] + inside;
    } else {
      place := ItemsFirst(s, v, p, i + 1);
    }
  }
}
