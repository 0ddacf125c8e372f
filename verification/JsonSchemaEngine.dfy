/** `assertSchema` and `validate` as they run: loops over keys and indices that return at the first failure,
    and recursion into the parts of the schema. */
module JsonSchemaEngine {
  import opened Basics
  import opened JsonValues
  import opened JsonPointers
  import opened JsonSchema
  import opened Texts

  /** True when `assertSchema` returns, false when it throws. */
  method AssertSchema(s: Json) returns (ok: bool)
    ensures ok <==> Accepted(s)
    decreases s, 1, 0
  {
    hide AcceptedFlat, Find;
    if !s.Obj? { return false; }
    var ms := s.members;
    if !AcceptedFlat(ms) { return false; }
    if Has(ms, PROPERTIES) {
      if !At(ms, PROPERTIES).Obj? { return false; }
      ok := AssertProperties(At(ms, PROPERTIES));
      if !ok { return; }
    }
    if Has(ms, ADDITIONAL) && !At(ms, ADDITIONAL).Bool? {
      ok := AssertSchema(At(ms, ADDITIONAL));
      if !ok { return; }
    }
    if Has(ms, ITEMS) {
      ok := AssertSchema(At(ms, ITEMS));
      if !ok { return; }
    }
    if Has(ms, ONE_OF) {
      if !At(ms, ONE_OF).Arr? || |At(ms, ONE_OF).items| < 2 { return false; }
      ok := AssertBranches(At(ms, ONE_OF));
      if !ok { return; }
    }
    return true;
  }

  method AssertProperties(properties: Json) returns (ok: bool)
    requires properties.Obj?
    ensures ok <==> forall i :: 0 <= i < |properties.members| ==> Accepted(properties.members[i].value)
    decreases properties, 2, 0
  {
    hide Accepted;
    for i := 0 to |properties.members|
      invariant forall k :: 0 <= k < i ==> Accepted(properties.members[k].value)
    {
      ok := AssertSchema(properties.members[i].value);
      if !ok { return; }
    }
    return true;
  }

  method AssertBranches(branches: Json) returns (ok: bool)
    requires branches.Arr?
    ensures ok <==> forall i :: 0 <= i < |branches.items| ==> Accepted(branches.items[i])
    decreases branches, 2, 0
  {
    hide Accepted;
    for i := 0 to |branches.items|
      invariant forall k :: 0 <= k < i ==> Accepted(branches.items[k])
    {
      ok := AssertSchema(branches.items[i]);
      if !ok { return; }
    }
    return true;
  }

  method MissingMember(names: seq<Json>, members: seq<Member>) returns (missing: Option<string>)
    ensures missing == FirstMissing(names, members)
  {
    for i := 0 to |names|
      invariant FirstMissing(names, members) == FirstMissing(names[i..], members)
    {
      if !Has(members, NameOf(names[i])) { return Some(NameOf(names[i])); }
    }
    return None;
  }

  method Validate(s: Json, v: Json, p: string) returns (r: Result)
    ensures r == Check(s, v, p)
    decreases s, 2, 0
  {
    hide CheckValue, CheckInside, CheckOneOf;
    if !s.Obj? { return Throws; }
    r := CheckValue(s.members, v, p);
    if !r.Conforms? { return; }
    r := ValidateBounds(s.members, v, p);
    if !r.Conforms? { return; }
    r := ValidateInside(s, v, p);
    if !r.Conforms? { return; }
    r := ValidateOneOf(s, v, p);
  }

  method ValidateBounds(ms: seq<Member>, v: Json, p: string) returns (r: Result)
    ensures r == CheckBounds(ms, v, p)
  {
    if v.Obj? {
      if Has(ms, REQUIRED) && At(ms, REQUIRED).Arr? {
        var missing := MissingMember(At(ms, REQUIRED).items, v.members);
        if missing.Some? { return Fail(Child(p, missing.value), Present, Absent); }
      }
      return Conforms;
    }
    return CheckBounds(ms, v, p);
  }

  method ValidateInside(s: Json, v: Json, p: string) returns (r: Result)
    requires s.Obj?
    ensures r == CheckInside(s, v, p)
    decreases s, 1, 0
  {
    hide Check, CheckItems, CheckProperties, CheckAdditional, SortedKeys, Find;
    var ms := s.members;
    if v.Arr? && Has(ms, ITEMS) {
      r := ValidateItems(At(ms, ITEMS), v.items, p);
      return;
    }
    if v.Obj? {
      if Has(ms, PROPERTIES) && At(ms, PROPERTIES).Obj? {
        r := ValidateProperties(At(ms, PROPERTIES), v.members, p);
        if !r.Conforms? { return; }
      }
      if Has(ms, ADDITIONAL) {
        r := ValidateAdditional(At(ms, ADDITIONAL), DeclaredProperties(ms).members, v.members, p);
        return;
      }
    }
    return Conforms;
  }

  method ValidateItems(s: Json, items: seq<Json>, p: string) returns (r: Result)
    ensures r == CheckItems(s, items, p, 0)
    decreases s, 3, 0
  {
    hide Check;
    var index := 0;
    while index < |items|
      invariant index <= |items|
      invariant CheckItems(s, items, p, 0) == CheckItems(s, items, p, index)
    {
      r := Validate(s, items[index], Child(p, Decimal(index)));
      if !r.Conforms? { return; }
      index := index + 1;
    }
    return Conforms;
  }

  method ValidateProperties(properties: Json, members: seq<Member>, p: string) returns (r: Result)
    requires properties.Obj?
    ensures r == CheckProperties(properties, SortedKeys(properties.members), members, p)
    decreases properties, 3, 0
  {
    hide Check, SortedKeys;
    var names := SortedKeys(properties.members);
    var i := 0;
    while i < |names|
      invariant i <= |names|
      invariant CheckProperties(properties, names, members, p) == CheckProperties(properties, names[i..], members, p)
    {
      var name := names[i];
      if Has(members, name) && Has(properties.members, name) {
        r := Validate(At(properties.members, name), At(members, name), Child(p, name));
        if !r.Conforms? { return; }
      }
      assert names[i..][1..] == names[i + 1..];
      i := i + 1;
    }
    return Conforms;
  }

  method ValidateAdditional(rule: Json, declared: seq<Member>, members: seq<Member>, p: string) returns (r: Result)
    ensures r == CheckAdditional(rule, declared, SortedKeys(members), members, p)
    decreases rule, 3, 0
  {
    hide Check, SortedKeys;
    var names := SortedKeys(members);
    var i := 0;
    while i < |names|
      invariant i <= |names|
      invariant CheckAdditional(rule, declared, names, members, p)
                == CheckAdditional(rule, declared, names[i..], members, p)
    {
      var name := names[i];
      if !Has(declared, name) && Has(members, name) {
        if rule == Bool(false) { return Fail(Child(p, name), NoSuchMember, Described(Describe(At(members, name)))); }
        if rule != Bool(true) {
          r := Validate(rule, At(members, name), Child(p, name));
          if !r.Conforms? { return; }
        }
      }
      assert names[i..][1..] == names[i + 1..];
      i := i + 1;
    }
    return Conforms;
  }

  method ValidateOneOf(s: Json, v: Json, p: string) returns (r: Result)
    requires s.Obj?
    ensures r == CheckOneOf(s, v, p)
    decreases s, 1, 0
  {
    hide Check;
    if !Has(s.members, ONE_OF) || !At(s.members, ONE_OF).Arr? { return Conforms; }
    var branches := At(s.members, ONE_OF);
    var matches, i := 0, 0;
    while i < |branches.items|
      invariant i <= |branches.items|
      invariant CountMatches(branches, v, p, 0)
                == match CountMatches(branches, v, p, i) case None => None case Some(n) => Some(matches + n)
    {
      r := Validate(branches.items[i], v, p);
      if r.Throws? { return; }
      if r.Conforms? { matches := matches + 1; }
      i := i + 1;
    }
    if matches != 1 { return Fail(p, ExactlyOneOf(|branches.items|), Matched(matches)); }
    return Conforms;
  }
}
