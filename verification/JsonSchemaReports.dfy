/** What `validate` reports does not depend on the order members were written in, and its pointer reaches
    the value (or the absent member) the report is about. */
module JsonSchemaReports {
  import opened Basics
  import opened JsonValues
  import opened JsonPointers
  import opened JsonSchema
  import opened JsonSchemaMeaning
  import opened Texts

  // ---------------------------------------------------------------- member order

  lemma SameMembers(ms: seq<Member>, ns: seq<Member>, key: string)
    requires WellFormed(Obj(ms)) && WellFormed(Obj(ns)) && Same(Obj(ms), Obj(ns))
    ensures Has(ms, key) <==> Has(ns, key)
    ensures Has(ms, key) ==> WellFormed(At(ms, key)) && WellFormed(At(ns, key)) && Same(At(ms, key), At(ns, key))
  {
    if Has(ms, key) {
      var i := Find(ms, key);
      assert Same(ms[i].value, ns[Find(ns, ms[i].key)].value);
    }
  }

  lemma SameIsDeepEqual(v: Json, w: Json, x: Json)
    requires WellFormed(v) && WellFormed(w) && WellFormed(x) && Same(v, w)
    ensures DeepEqual(v, x) <==> DeepEqual(w, x)
  {
    hide Same, DeepEqual;
    DeepEqualIsSame(v, x);
    DeepEqualIsSame(w, x);
    SameSymmetric(v, w);
    if Same(v, x) { SameTransitive(w, v, x); }
    if Same(w, x) { SameTransitive(v, w, x); }
  }

  lemma ValueSame(ms: seq<Member>, v: Json, w: Json, p: string)
    requires WellFormed(Obj(ms)) && WellFormed(v) && WellFormed(w) && Same(v, w)
    ensures CheckValue(ms, v, p) == CheckValue(ms, w, p)
  {
    hide DeepEqual, Find, MatchesType;
    SameShape(v, w);
    hide Same;
    if Has(ms, CONST) {
      MemberWellFormed(ms, CONST);
      SameIsDeepEqual(v, w, At(ms, CONST));
    }
    if Has(ms, ENUM) && At(ms, ENUM).Arr? {
      MemberWellFormed(ms, ENUM);
      forall option <- At(ms, ENUM).items ensures DeepEqual(v, option) <==> DeepEqual(w, option) {
        SameIsDeepEqual(v, w, option);
      }
    }
  }

  lemma SameShape(v: Json, w: Json)
    requires Same(v, w)
    ensures Describe(v) == Describe(w)
    ensures forall name :: MatchesType(v, name) <==> MatchesType(w, name)
  {
  }

  lemma {:induction false} FirstMissingSame(names: seq<Json>, ms: seq<Member>, ns: seq<Member>)
    requires forall k :: Has(ms, k) <==> Has(ns, k)
    ensures FirstMissing(names, ms) == FirstMissing(names, ns)
  {
    if names != [] { FirstMissingSame(names[1..], ms, ns); }
  }

  lemma OwnSame(ms: seq<Member>, v: Json, w: Json, p: string)
    requires WellFormed(Obj(ms)) && WellFormed(v) && WellFormed(w) && Same(v, w)
    ensures CheckOwn(ms, v, p) == CheckOwn(ms, w, p)
  {
    ValueSame(ms, v, w, p);
    hide CheckValue, Find, WellFormed;
    if v.Obj? && Has(ms, REQUIRED) && At(ms, REQUIRED).Arr? {
      FirstMissingSame(At(ms, REQUIRED).items, v.members, w.members);
    }
  }

  /** Rewriting the members of any object inside the value in another order leaves the whole report as it
      was: pointer, expectation and observation. */
  lemma {:induction false} ReportIgnoresMemberOrder(s: Json, v: Json, w: Json, p: string)
    requires WellFormed(s) && WellFormed(v) && WellFormed(w) && Same(v, w)
    ensures Check(s, v, p) == Check(s, w, p)
    decreases s, 2, 0
  {
    if s.Obj? {
      hide Same, CheckOwn, CheckInside, CheckOneOf, WellFormed;
      OwnSame(s.members, v, w, p);
      InsideSame(s, v, w, p);
      OneOfSame(s, v, w, p);
    }
  }

  lemma {:induction false} InsideSame(s: Json, v: Json, w: Json, p: string)
    requires s.Obj? && WellFormed(s) && WellFormed(v) && WellFormed(w) && Same(v, w)
    ensures CheckInside(s, v, p) == CheckInside(s, w, p)
    decreases s, 1, 0
  {
    var ms := s.members;
    if v.Arr? && Has(ms, ITEMS) {
      ItemsSame(At(ms, ITEMS), v.items, w.items, p, 0);
    } else if v.Obj? {
      SortedKeysCanonical(v.members, w.members);
      if Has(ms, PROPERTIES) && At(ms, PROPERTIES).Obj? {
        hide Find;
        MemberWellFormed(ms, PROPERTIES);
        PropertiesSame(At(ms, PROPERTIES), SortedKeys(At(ms, PROPERTIES).members), v.members, w.members, p);
      }
      if Has(ms, ADDITIONAL) {
        hide Find;
        MemberWellFormed(ms, ADDITIONAL);
        AdditionalSame(At(ms, ADDITIONAL), DeclaredProperties(ms).members, SortedKeys(v.members), v.members, w.members,
            p);
      }
    }
  }

  lemma {:induction false} ItemsSame(s: Json, xs: seq<Json>, ys: seq<Json>, p: string, i: nat)
    requires WellFormed(s) && WellFormed(Arr(xs)) && WellFormed(Arr(ys)) && Same(Arr(xs), Arr(ys))
    ensures CheckItems(s, xs, p, i) == CheckItems(s, ys, p, i)
    decreases s, 3, |xs| - i
  {
    if i < |xs| {
      hide Check;
      ReportIgnoresMemberOrder(s, xs[i], ys[i], Child(p, Decimal(i)));
      ItemsSame(s, xs, ys, p, i + 1);
    }
  }

  lemma {:induction false} PropertiesSame(properties: Json, names: seq<string>, ms: seq<Member>, ns: seq<Member>,
                                          p: string)
    requires properties.Obj? && WellFormed(properties)
    requires WellFormed(Obj(ms)) && WellFormed(Obj(ns)) && Same(Obj(ms), Obj(ns))
    ensures CheckProperties(properties, names, ms, p) == CheckProperties(properties, names, ns, p)
    decreases properties, 3, |names|
  {
    if names != [] {
      hide Check, Same;
      PropertiesSame(properties, names[1..], ms, ns, p);
      SameMembers(ms, ns, names[0]);
      if Has(ms, names[0]) && Has(properties.members, names[0]) {
        MemberWellFormed(properties.members, names[0]);
        ReportIgnoresMemberOrder(At(properties.members, names[0]), At(ms, names[0]), At(ns, names[0]),
            Child(p, names[0]));
      }
    }
  }

  lemma {:induction false} AdditionalSame(rule: Json, declared: seq<Member>, names: seq<string>, ms: seq<Member>,
                                          ns: seq<Member>, p: string)
    requires WellFormed(rule) && WellFormed(Obj(ms)) && WellFormed(Obj(ns)) && Same(Obj(ms), Obj(ns))
    ensures CheckAdditional(rule, declared, names, ms, p) == CheckAdditional(rule, declared, names, ns, p)
    decreases rule, 3, |names|
  {
    if names != [] {
      hide Check, Same, WellFormed, Find, Describe, Child;
      AdditionalSame(rule, declared, names[1..], ms, ns, p);
      SameMembers(ms, ns, names[0]);
      if Has(ms, names[0]) {
        MemberWellFormed(ms, names[0]);
        MemberWellFormed(ns, names[0]);
        hide SortedKeys, DeepEqual;
        if rule == Bool(false) {
          SameShape(At(ms, names[0]), At(ns, names[0]));
        } else if rule != Bool(true) && !Has(declared, names[0]) {
          ReportIgnoresMemberOrder(rule, At(ms, names[0]), At(ns, names[0]), Child(p, names[0]));
        }
      }
    }
  }

  lemma {:induction false} OneOfSame(s: Json, v: Json, w: Json, p: string)
    requires s.Obj? && WellFormed(s) && WellFormed(v) && WellFormed(w) && Same(v, w)
    ensures CheckOneOf(s, v, p) == CheckOneOf(s, w, p)
    decreases s, 1, 0
  {
    if Has(s.members, ONE_OF) && At(s.members, ONE_OF).Arr? {
      hide Same, CountMatches;
      CountSame(At(s.members, ONE_OF), v, w, p, 0);
    }
  }

  lemma {:induction false} CountSame(branches: Json, v: Json, w: Json, p: string, i: nat)
    requires branches.Arr? && WellFormed(branches) && WellFormed(v) && WellFormed(w) && Same(v, w)
    ensures CountMatches(branches, v, p, i) == CountMatches(branches, w, p, i)
    decreases branches, 3, |branches.items| - i
  {
    if i < |branches.items| {
      assert WellFormed(branches.items[i]);
      hide Same, Check, WellFormed;
      ReportIgnoresMemberOrder(branches.items[i], v, w, p);
      CountSame(branches, v, w, p, i + 1);
    }
  }

  // ---------------------------------------------------------------- which part of the schema governs a place

  /** The part of `s` that governs the member or element `token` of `v`, and the value there: the items schema,
      the declared property, or else the rule for undeclared members. */
  ghost function StepInto(s: Json, v: Json, token: string): Option<(Json, Json)> {
    if !s.Obj? then None
    else match v
      case Arr(items) =>
        (match ReadIndex(token)
         case Some(i) => if i < |items| && Has(s.members, ITEMS) then Some((At(s.members, ITEMS), items[i])) else None
         case None => None)
      case Obj(members) =>
        var declared := DeclaredProperties(s.members).members;
        if !Has(members, token) then None
        else if Has(declared, token) then Some((At(declared, token), At(members, token)))
        else if Has(s.members, ADDITIONAL) then Some((At(s.members, ADDITIONAL), At(members, token)))
        else None
      case _ => None
  }

  /** The same along a path. */
  ghost function Governing(s: Json, v: Json, path: seq<string>): Option<(Json, Json)>
    decreases |path|
  {
    if path == [] then Some((s, v))
    else match StepInto(s, v, path[0])
      case Some((part, w)) => Governing(part, w, path[1..])
      case None => None
  }

  /** The value a path leads to by section 4 of RFC 6901 is the value that part governs. */
  lemma {:induction false} GovernsWhatIsThere(s: Json, v: Json, path: seq<string>)
    requires Governing(s, v, path).Some?
    ensures Resolve(v, path) == Some(Governing(s, v, path).value.1)
    decreases |path|
  {
    if path != [] {
      var (part, w) := StepInto(s, v, path[0]).value;
      GovernsWhatIsThere(part, w, path[1..]);
    }
  }

  lemma {:induction false} GoverningAdmitted(s: Json, v: Json, path: seq<string>)
    requires Admitted(s) && WellFormed(v) && Governing(s, v, path).Some?
    ensures var (part, w) := Governing(s, v, path).value; (part.Bool? || Admitted(part)) && WellFormed(w)
    decreases |path|
  {
    if path != [] {
      var (part, w) := StepInto(s, v, path[0]).value;
      StepAdmitted(s, v, path[0]);
      if part.Bool? {
        RuleEnds(part, w, path[1..]);
      } else {
        GoverningAdmitted(part, w, path[1..]);
      }
    }
  }

  /** A rule that is a boolean governs a member, but nothing inside it. */
  lemma RuleEnds(part: Json, w: Json, path: seq<string>)
    requires !part.Obj?
    ensures Governing(part, w, path) == if path == [] then Some((part, w)) else None
  {
  }

  lemma StepAdmitted(s: Json, v: Json, token: string)
    requires Admitted(s) && WellFormed(v) && StepInto(s, v, token).Some?
    ensures var (part, w) := StepInto(s, v, token).value; (part.Bool? || Admitted(part)) && WellFormed(w)
  {
    var ms := s.members;
    match v {
      case Arr(items) =>
        MemberWellFormed(ms, ITEMS);
      case Obj(members) =>
        MemberWellFormed(members, token);
        if Has(DeclaredProperties(ms).members, token) {
          MemberWellFormed(ms, PROPERTIES);
          MemberWellFormed(DeclaredProperties(ms).members, token);
        } else {
          MemberWellFormed(ms, ADDITIONAL);
        }
    }
  }

  // ---------------------------------------------------------------- who is to blame

  /** `part` rejects `w` itself, by `false`, by a keyword of its own, or by its alternatives: the failure is the
      one it reports there, not one of something inside. */
  ghost predicate Rejects(part: Json, w: Json, f: Failure) {
    if part == Bool(false) then f == Failure(f.pointer, NoSuchMember, Described(Describe(w)))
    else
      && part.Obj? && Check(part, w, f.pointer) == Fails(f)
      && (CheckOwn(part.members, w, f.pointer) == Fails(f) || CheckOneOf(part, w, f.pointer) == Fails(f))
  }

  /** `part` requires the member `name` of the object `w` at `p`, and it is the first required one absent. */
  ghost predicate Misses(part: Json, w: Json, p: string, name: string, f: Failure) {
    && part.Obj? && w.Obj? && f == Failure(Child(p, name), Present, Absent)
    && Check(part, w, p) == Fails(f) && CheckOwn(part.members, w, p) == Fails(f)
    && Has(part.members, REQUIRED) && At(part.members, REQUIRED).Arr?
    && FirstMissing(At(part.members, REQUIRED).items, w.members) == Some(name) && !Has(w.members, name)
  }

  /** `path` leads to the place the failure is about: to the value that its part of the schema rejects, or for a
      required member one step beyond the object that misses it. */
  ghost predicate Blames(s: Json, v: Json, p: string, path: seq<string>, f: Failure) {
    && f.pointer == p + Render(path)
    && if f.expected.Present? then
         path != [] &&
         var init := path[..|path| - 1];
         && Governing(s, v, init).Some?
         && Misses(Governing(s, v, init).value.0, Governing(s, v, init).value.1, p + Render(init), path[|path| - 1], f)
       else
         Governing(s, v, path).Some? && Rejects(Governing(s, v, path).value.0, Governing(s, v, path).value.1, f)
  }

  ghost predicate Located(s: Json, v: Json, p: string, r: Result) {
    r.Fails? ==> exists path :: Blames(s, v, p, path, r.failure)
  }

  lemma {:induction false} RenderJoins(p: string, token: string, path: seq<string>)
    ensures Child(p, token) + Render(path) == p + Render([token] + path)
  {
    var whole := [token] + path;
    RenderCons(whole);
    assert whole[0] == token && whole[1..] == path;
  }

  lemma GoverningJoins(s: Json, v: Json, token: string, path: seq<string>)
    requires StepInto(s, v, token).Some?
    ensures var (part, w) := StepInto(s, v, token).value; Governing(s, v, [token] + path) == Governing(part, w, path)
  {
    assert ([token] + path)[1..] == path;
    hide StepInto;
  }

  /** A failure found inside a member or element is reached through it. */
  lemma LocatedInside(s: Json, v: Json, token: string, p: string, r: Result)
    requires StepInto(s, v, token).Some?
    requires Located(StepInto(s, v, token).value.0, StepInto(s, v, token).value.1, Child(p, token), r)
    ensures Located(s, v, p, r)
  {
    hide StepInto, Governing, Rejects, Misses, Render, Child;
    if r.Fails? {
      var (part, w) := StepInto(s, v, token).value;
      var path :| Blames(part, w, Child(p, token), path, r.failure);
      RenderJoins(p, token, path);
      GoverningJoins(s, v, token, path);
      var whole := [token] + path;
      if path != [] {
        var init := path[..|path| - 1];
        RenderJoins(p, token, init);
        GoverningJoins(s, v, token, init);
        assert whole[..|whole| - 1] == [token] + init && whole[|whole| - 1] == path[|path| - 1];
      } else {
        assert !r.failure.expected.Present?;
      }
      assert Blames(s, v, p, whole, r.failure);
    }
  }

  lemma LocatedHere(s: Json, v: Json, p: string, f: Failure)
    requires f.pointer == p && !f.expected.Present? && Rejects(s, v, f)
    ensures Located(s, v, p, Fails(f))
  {
    assert p + Render([]) == p;
    hide Rejects;
    assert Governing(s, v, []) == Some((s, v));
    assert Blames(s, v, p, [], f);
  }

  lemma LocatedMissing(s: Json, v: Json, p: string, name: string, f: Failure)
    requires Misses(s, v, p, name, f)
    ensures Located(s, v, p, Fails(f))
  {
    RenderJoins(p, name, []);
    assert [name] + [] == [name] && [name][..0] == [];
    assert Child(p, name) + Render([]) == Child(p, name) && p + Render([]) == p;
    assert Governing(s, v, []) == Some((s, v));
    assert Blames(s, v, p, [name], f);
  }

  lemma OwnLocated(s: Json, v: Json, p: string)
    requires s.Obj? && CheckOwn(s.members, v, p).Fails?
    ensures Located(s, v, p, CheckOwn(s.members, v, p))
  {
    hide Located, DeepEqual, Find;
    var ms, f := s.members, CheckOwn(s.members, v, p).failure;
    if f.expected.Present? {
      FirstMissingMeans(At(ms, REQUIRED).items, v.members);
      LocatedMissing(s, v, p, FirstMissing(At(ms, REQUIRED).items, v.members).value, f);
    } else {
      LocatedHere(s, v, p, f);
    }
  }

  /** Whatever fails, some part of the schema governs the place its pointer leads to and rejects the value there
      itself. */
  lemma {:induction false} FailureIsLocated(s: Json, v: Json, p: string)
    ensures Located(s, v, p, Check(s, v, p))
    decreases s, 2, 0
  {
    hide Located, CheckOwn, CheckInside, CheckOneOf;
    if !Check(s, v, p).Fails? {
      NothingToLocate(s, v, p, Check(s, v, p));
    } else if CheckOwn(s.members, v, p).Fails? {
      OwnLocated(s, v, p);
    } else if CheckInside(s, v, p).Fails? {
      InsideLocated(s, v, p);
    } else {
      OneOfLocated(s, v, p);
    }
  }

  lemma NothingToLocate(s: Json, v: Json, p: string, r: Result)
    requires !r.Fails?
    ensures Located(s, v, p, r)
  {
  }

  lemma OneOfLocated(s: Json, v: Json, p: string)
    requires s.Obj? && Check(s, v, p).Fails? && Check(s, v, p) == CheckOneOf(s, v, p)
    ensures Located(s, v, p, Check(s, v, p))
  {
    hide Located, CountMatches, Find, Check;
    LocatedHere(s, v, p, CheckOneOf(s, v, p).failure);
  }

  lemma {:induction false} InsideLocated(s: Json, v: Json, p: string)
    requires s.Obj?
    ensures Located(s, v, p, CheckInside(s, v, p))
    decreases s, 1, 0
  {
    hide Located, Find, DeclaredProperties, SortedKeys;
    var ms := s.members;
    NothingToLocate(s, v, p, Conforms);
    if v.Arr? && Has(ms, ITEMS) {
      ItemsLocated(s, v, p, 0);
    } else if v.Obj? {
      DeclaredAre(ms);
      if Has(ms, PROPERTIES) && At(ms, PROPERTIES).Obj? {
        PropertiesLocated(s, SortedKeys(At(ms, PROPERTIES).members), v, p);
      }
      if Has(ms, ADDITIONAL) { AdditionalLocated(s, SortedKeys(v.members), v, p); }
    }
  }

  lemma DeclaredAre(ms: seq<Member>)
    ensures Has(ms, PROPERTIES) && At(ms, PROPERTIES).Obj? ==> DeclaredProperties(ms) == At(ms, PROPERTIES)
  {
  }

  lemma {:induction false} ItemsLocated(s: Json, v: Json, p: string, i: nat)
    requires s.Obj? && v.Arr? && Has(s.members, ITEMS)
    ensures Located(s, v, p, CheckItems(At(s.members, ITEMS), v.items, p, i))
    decreases s, 0, |v.items| - i
  {
    hide Located, Check, Find;
    NothingToLocate(s, v, p, Conforms);
    if i < |v.items| {
      IndexReads(i);
      FailureIsLocated(At(s.members, ITEMS), v.items[i], Child(p, Decimal(i)));
      LocatedInside(s, v, Decimal(i), p, Check(At(s.members, ITEMS), v.items[i], Child(p, Decimal(i))));
      ItemsLocated(s, v, p, i + 1);
    }
  }

  lemma {:induction false} PropertiesLocated(s: Json, names: seq<string>, v: Json, p: string)
    requires s.Obj? && v.Obj? && Has(s.members, PROPERTIES) && At(s.members, PROPERTIES).Obj?
    ensures Located(s, v, p, CheckProperties(At(s.members, PROPERTIES), names, v.members, p))
    decreases s, 0, |names|
  {
    var properties := At(s.members, PROPERTIES);
    hide Located, Check, Find;
    NothingToLocate(s, v, p, Conforms);
    if names != [] {
      var name := names[0];
      if Has(v.members, name) && Has(properties.members, name) {
        FailureIsLocated(At(properties.members, name), At(v.members, name), Child(p, name));
        LocatedInside(s, v, name, p, Check(At(properties.members, name), At(v.members, name), Child(p, name)));
      }
      PropertiesLocated(s, names[1..], v, p);
    }
  }

  lemma {:induction false} AdditionalLocated(s: Json, names: seq<string>, v: Json, p: string)
    requires s.Obj? && v.Obj? && Has(s.members, ADDITIONAL)
    ensures Located(s, v, p,
                      CheckAdditional(At(s.members, ADDITIONAL), DeclaredProperties(s.members).members, names,
                                      v.members, p))
    decreases s, 0, |names|
  {
    var rule, declared := At(s.members, ADDITIONAL), DeclaredProperties(s.members).members;
    hide Located, Check, Find, DeclaredProperties;
    NothingToLocate(s, v, p, Conforms);
    if names != [] {
      var name := names[0];
      if Has(v.members, name) && !Has(declared, name) {
        var w := At(v.members, name);
        FailureIsLocated(rule, w, Child(p, name));
        LocatedInside(s, v, name, p, Check(rule, w, Child(p, name)));
        if rule == Bool(false) {
          LocatedHere(rule, w, Child(p, name), Failure(Child(p, name), NoSuchMember, Described(Describe(w))));
          LocatedInside(s, v, name, p, Fail(Child(p, name), NoSuchMember, Described(Describe(w))));
        }
      }
      AdditionalLocated(s, names[1..], v, p);
    }
  }

  /** From the document root: the reported pointer, parsed and followed as RFC 6901 says, gets to a value that
      its own part of the schema is to blame for rejecting. */
  lemma ReportedPointerLeadsThere(s: Json, v: Json)
    requires Check(s, v, "").Fails?
    ensures var f := Check(s, v, "").failure;
            Tokens(f.pointer).Some? && Blames(s, v, "", Tokens(f.pointer).value, f)
  {
    FailureIsLocated(s, v, "");
    var f := Check(s, v, "").failure;
    var path :| Blames(s, v, "", path, f);
    hide Check, Rejects, Misses, Governing, Render;
    assert "" + Render(path) == Render(path);
    RenderedPointersRead(path);
  }

  /** The value the pointer leads to, or the object a required member is absent from, does fail: it does not
      satisfy the part of the schema that governs it. */
  lemma BlamedValueFails(s: Json, v: Json, path: seq<string>, f: Failure)
    requires Admitted(s) && WellFormed(v) && Blames(s, v, "", path, f)
    ensures var place := if f.expected.Present? then path[..|path| - 1] else path;
            && Governing(s, v, place).Some?
            && var (part, w) := Governing(s, v, place).value;
               Resolve(v, place) == Some(w) && (part == Bool(false) || !Satisfies(part, w))
  {
    hide Governing, Check, CheckOwn, CheckOneOf, Satisfies, Resolve, Accepted, WellFormed, Render;
    var place := if f.expected.Present? then path[..|path| - 1] else path;
    var (part, w) := Governing(s, v, place).value;
    GovernsWhatIsThere(s, v, place);
    GoverningAdmitted(s, v, place);
    if part != Bool(false) {
      CheckMeans(part, w, if f.expected.Present? then "" + Render(place) else f.pointer);
    }
  }
}
