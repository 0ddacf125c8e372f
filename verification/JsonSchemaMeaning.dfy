/** `validate` reports nothing exactly when the value satisfies every keyword, read without any order; and
    it never throws on a schema `assertSchema` admits. */
module JsonSchemaMeaning {
  import opened Basics
  import opened JsonValues
  import opened JsonPointers
  import opened JsonSchema
  import opened Texts

  // ---------------------------------------------------------------- keywords without recursion

  lemma {:induction false} FirstMissingMeans(names: seq<Json>, ms: seq<Member>)
    ensures FirstMissing(names, ms).None? <==> forall name <- names :: Has(ms, NameOf(name))
    ensures FirstMissing(names, ms).Some? ==> !Has(ms, FirstMissing(names, ms).value)
  {
    if names != [] {
      FirstMissingMeans(names[1..], ms);
      assert names == [names[0]] + names[1..];
    }
  }

  lemma MemberWellFormed(ms: seq<Member>, key: string)
    requires WellFormed(Obj(ms)) && Has(ms, key)
    ensures WellFormed(At(ms, key))
  {
  }

  lemma ValueMeans(ms: seq<Member>, v: Json, p: string)
    requires WellFormed(Obj(ms)) && WellFormed(v)
    ensures CheckValue(ms, v, p) != Throws
    ensures CheckValue(ms, v, p).Conforms? <==>
      && TypeOk(ms, v)
      && (Has(ms, CONST) ==> Same(v, At(ms, CONST)))
      && (Has(ms, ENUM) ==> At(ms, ENUM).Arr? ==> exists option <- At(ms, ENUM).items :: Same(v, option))
  {
    hide TypeOk, DeepEqual, Same, Find;
    if Has(ms, CONST) {
      MemberWellFormed(ms, CONST);
      DeepEqualIsSame(v, At(ms, CONST));
    }
    if Has(ms, ENUM) && At(ms, ENUM).Arr? {
      MemberWellFormed(ms, ENUM);
      forall option <- At(ms, ENUM).items ensures DeepEqual(v, option) <==> Same(v, option) {
        DeepEqualIsSame(v, option);
      }
    }
  }

  lemma OwnMeans(ms: seq<Member>, v: Json, p: string)
    requires WellFormed(Obj(ms)) && WellFormed(v)
    ensures CheckOwn(ms, v, p) != Throws
    ensures CheckOwn(ms, v, p).Conforms? <==> SatisfiesOwn(ms, v)
  {
    hide CheckValue, TypeOk, Same, Find, WellFormed;
    ValueMeans(ms, v, p);
    if v.Obj? && Has(ms, REQUIRED) && At(ms, REQUIRED).Arr? {
      FirstMissingMeans(At(ms, REQUIRED).items, v.members);
    }
  }

  // ---------------------------------------------------------------- the recursive keywords

  ghost predicate Admitted(s: Json) { Accepted(s) && WellFormed(s) }

  /** A schema that `assertSchema` admits never makes `validate` throw, and a value passes it exactly when it
      satisfies all of its keywords. */
  lemma {:induction false} CheckMeans(s: Json, v: Json, p: string)
    requires Admitted(s) && WellFormed(v)
    ensures Check(s, v, p) != Throws
    ensures Check(s, v, p).Conforms? <==> Satisfies(s, v)
    decreases s, 2, 0
  {
    hide SatisfiesOwn, CheckOwn, SatisfiesInside, CheckInside, CheckOneOf, ExactlyOne, AcceptedFlat, Find;
    OwnMeans(s.members, v, p);
    InsideMeans(s, v, p);
    OneOfMeans(s, v, p);
  }

  lemma {:induction false} InsideMeans(s: Json, v: Json, p: string)
    requires Admitted(s) && WellFormed(v)
    ensures CheckInside(s, v, p) != Throws
    ensures CheckInside(s, v, p).Conforms? <==> SatisfiesInside(s, v)
    decreases s, 1, 0
  {
    hide AcceptedFlat, Find;
    var ms := s.members;
    if v.Arr? && Has(ms, ITEMS) {
      ItemsMean(At(ms, ITEMS), v.items, p, 0);
    } else if v.Obj? {
      DeclaredMeans(s, v.members, p);
      UndeclaredMeans(s, v.members, p);
    }
  }

  lemma {:induction false} ItemsMean(s: Json, items: seq<Json>, p: string, i: nat)
    requires Admitted(s) && forall k :: 0 <= k < |items| ==> WellFormed(items[k])
    ensures CheckItems(s, items, p, i) != Throws
    ensures CheckItems(s, items, p, i).Conforms? <==> forall k :: i <= k < |items| ==> Satisfies(s, items[k])
    decreases s, 3, |items| - i
  {
    if i < |items| {
      hide Check, Satisfies, Accepted, WellFormed;
      CheckMeans(s, items[i], Child(p, Decimal(i)));
      ItemsMean(s, items, p, i + 1);
    }
  }

  lemma {:induction false} DeclaredMeans(s: Json, members: seq<Member>, p: string)
    requires Admitted(s) && WellFormed(Obj(members))
    ensures var ms := s.members;
            Has(ms, PROPERTIES) ==>
              var properties := At(ms, PROPERTIES);
              && properties.Obj?
              && CheckProperties(properties, SortedKeys(properties.members), members, p) != Throws
              && (CheckProperties(properties, SortedKeys(properties.members), members, p).Conforms?
                  <==> forall i :: 0 <= i < |properties.members| && Has(members, properties.members[i].key) ==>
                         Satisfies(properties.members[i].value, At(members, properties.members[i].key)))
    decreases s, 0, 0
  {
    var ms := s.members;
    if Has(ms, PROPERTIES) {
      var properties := At(ms, PROPERTIES);
      MemberWellFormed(ms, PROPERTIES);
      hide Satisfies, CheckProperties, AcceptedFlat;
      PropertiesMean(properties, SortedKeys(properties.members), members, p);
      forall i | 0 <= i < |properties.members|
        ensures properties.members[i].key in SortedKeys(properties.members)
        ensures Has(properties.members, properties.members[i].key)
        ensures At(properties.members, properties.members[i].key) == properties.members[i].value
      {
        HasAt(properties.members, i);
        KeyListed(properties.members, properties.members[i].key);
      }
      forall name <- SortedKeys(properties.members) ensures Has(properties.members, name) {
        KeyListed(properties.members, name);
      }
    }
  }

  lemma {:induction false} PropertiesMean(properties: Json, names: seq<string>, members: seq<Member>, p: string)
    requires properties.Obj? && WellFormed(properties) && WellFormed(Obj(members))
    requires forall i :: 0 <= i < |properties.members| ==> Accepted(properties.members[i].value)
    ensures CheckProperties(properties, names, members, p) != Throws
    ensures CheckProperties(properties, names, members, p).Conforms?
            <==> forall name <- names :: Has(members, name) && Has(properties.members, name) ==>
                   Satisfies(At(properties.members, name), At(members, name))
    decreases properties, 3, |names|
  {
    if names != [] {
      var name := names[0];
      assert names == [name] + names[1..];
      PropertiesMean(properties, names[1..], members, p);
      if Has(members, name) && Has(properties.members, name) {
        hide Satisfies, Check;
        CheckMeans(At(properties.members, name), At(members, name), Child(p, name));
      }
    }
  }

  lemma {:induction false} UndeclaredMeans(s: Json, members: seq<Member>, p: string)
    requires Admitted(s) && WellFormed(Obj(members))
    ensures var ms := s.members;
            Has(ms, ADDITIONAL) ==>
              var rule, declared := At(ms, ADDITIONAL), DeclaredProperties(ms).members;
              && CheckAdditional(rule, declared, SortedKeys(members), members, p) != Throws
              && (CheckAdditional(rule, declared, SortedKeys(members), members, p).Conforms?
                  <==> rule == Bool(true) || forall i :: 0 <= i < |members| && !Has(declared, members[i].key) ==>
                         rule != Bool(false) && Satisfies(rule, members[i].value))
    decreases s, 0, 0
  {
    var ms := s.members;
    if Has(ms, ADDITIONAL) {
      var rule, declared := At(ms, ADDITIONAL), DeclaredProperties(ms).members;
      MemberWellFormed(ms, ADDITIONAL);
      hide Satisfies, CheckAdditional, AcceptedFlat, DeclaredProperties;
      AdditionalMeans(rule, declared, SortedKeys(members), members, p);
      forall i | 0 <= i < |members|
        ensures members[i].key in SortedKeys(members)
        ensures Has(members, members[i].key) && At(members, members[i].key) == members[i].value
      {
        HasAt(members, i);
        KeyListed(members, members[i].key);
      }
      forall name <- SortedKeys(members) ensures Has(members, name) {
        KeyListed(members, name);
      }
    }
  }

  lemma {:induction false} AdditionalMeans(rule: Json, declared: seq<Member>, names: seq<string>, members: seq<Member>,
                                           p: string)
    requires (rule.Bool? || Admitted(rule)) && WellFormed(Obj(members))
    ensures CheckAdditional(rule, declared, names, members, p) != Throws
    ensures CheckAdditional(rule, declared, names, members, p).Conforms?
            <==> rule == Bool(true) || forall name <- names :: Has(members, name) && !Has(declared, name) ==>
                   rule != Bool(false) && Satisfies(rule, At(members, name))
    decreases rule, 3, |names|
  {
    if names != [] {
      var name := names[0];
      assert names == [name] + names[1..];
      AdditionalMeans(rule, declared, names[1..], members, p);
      if !rule.Bool? && Has(members, name) {
        hide Satisfies, Check;
        CheckMeans(rule, At(members, name), Child(p, name));
      }
    }
  }

  lemma {:induction false} OneOfMeans(s: Json, v: Json, p: string)
    requires Admitted(s) && WellFormed(v)
    ensures CheckOneOf(s, v, p) != Throws
    ensures CheckOneOf(s, v, p).Conforms? <==>
      (Has(s.members, ONE_OF) && At(s.members, ONE_OF).Arr? ==> ExactlyOne(Verdicts(At(s.members, ONE_OF), v)))
    decreases s, 1, 0
  {
    hide AcceptedFlat, ExactlyOne, CountMatches, Verdicts, CountTrue;
    if Has(s.members, ONE_OF) {
      MemberWellFormed(s.members, ONE_OF);
      CountMeans(At(s.members, ONE_OF), v, p, 0);
      CountIsOne(Verdicts(At(s.members, ONE_OF), v));
      assert Verdicts(At(s.members, ONE_OF), v)[0..] == Verdicts(At(s.members, ONE_OF), v);
    }
  }

  ghost function CountTrue(holds: seq<bool>): nat {
    if holds == [] then 0 else (if holds[0] then 1 else 0) + CountTrue(holds[1..])
  }

  lemma {:induction false} CountIsOne(holds: seq<bool>)
    ensures CountTrue(holds) == 0 <==> forall k :: 0 <= k < |holds| ==> !holds[k]
    ensures CountTrue(holds) == 1 <==> ExactlyOne(holds)
  {
    if holds != [] {
      var rest := holds[1..];
      CountIsOne(rest);
      assert forall k :: 0 <= k < |rest| ==> rest[k] == holds[k + 1];
      assert forall k :: 1 <= k < |holds| ==> holds[k] == rest[k - 1];
      if !holds[0] && ExactlyOne(rest) {
        var i :| 0 <= i < |rest| && rest[i] && forall k :: 0 <= k < |rest| && k != i ==> !rest[k];
        assert holds[i + 1];
      }
      if ExactlyOne(holds) {
        var i :| 0 <= i < |holds| && holds[i] && forall k :: 0 <= k < |holds| && k != i ==> !holds[k];
        if i > 0 { assert rest[i - 1]; }
      }
    }
  }

  /** The number of branches from `i` on that `v` satisfies. */
  ghost function SatisfiedFrom(branches: Json, v: Json, i: nat): nat
    requires branches.Arr? && i <= |branches.items|
  {
    CountTrue(Verdicts(branches, v)[i..])
  }

  lemma SatisfiedStep(branches: Json, v: Json, i: nat)
    requires branches.Arr? && i <= |branches.items|
    ensures SatisfiedFrom(branches, v, i)
            == if i == |branches.items| then 0
               else (if Satisfies(branches.items[i], v) then 1 else 0) + SatisfiedFrom(branches, v, i + 1)
  {
    hide Satisfies;
    if i < |branches.items| {
      assert Verdicts(branches, v)[i..] == [Satisfies(branches.items[i], v)] + Verdicts(branches, v)[i + 1..];
    }
  }

  lemma {:induction false} CountMeans(branches: Json, v: Json, p: string, i: nat)
    requires branches.Arr? && WellFormed(branches) && WellFormed(v) && i <= |branches.items|
    requires forall k :: 0 <= k < |branches.items| ==> Accepted(branches.items[k])
    ensures CountMatches(branches, v, p, i) == Some(SatisfiedFrom(branches, v, i))
    decreases branches, 3, |branches.items| - i
  {
    hide Satisfies, Check, Accepted, SatisfiedFrom;
    SatisfiedStep(branches, v, i);
    if i < |branches.items| {
      assert WellFormed(branches.items[i]) && Accepted(branches.items[i]);
      CheckMeans(branches.items[i], v, p);
      CountMeans(branches, v, p, i + 1);
    }
  }
}
