/** JSON values as the engine sees them: objects are lists of members in insertion order, with distinct
    keys, so that independence of that order is something to prove. */
module JsonValues {

  datatype Json =
    | Null
    | Bool(b: bool)
    | Num(n: real)
    | Str(s: string)
    | Arr(items: seq<Json>)
    | Obj(members: seq<Member>)

  datatype Member = Member(key: string, value: Json)

  // ---------------------------------------------------------------- members

  /** The position of `key`, or the number of members when it is absent. */
  function Find(ms: seq<Member>, key: string): (i: nat)
    ensures i <= |ms|
    ensures i < |ms| ==> ms[i].key == key
    ensures forall k :: 0 <= k < i ==> ms[k].key != key
  {
    if ms == [] then 0 else if ms[0].key == key then 0 else 1 + Find(ms[1..], key)
  }

  /** `Object.hasOwn`, and the `in` tests on parsed documents. */
  predicate Has(ms: seq<Member>, key: string) { Find(ms, key) < |ms| }

  function Keys(ms: seq<Member>): (keys: seq<string>)
    ensures |keys| == |ms| && forall i :: 0 <= i < |ms| ==> keys[i] == ms[i].key
  {
    seq(|ms|, i requires 0 <= i < |ms| => ms[i].key)
  }

  ghost predicate DistinctKeys(ms: seq<Member>) {
    forall i, j :: 0 <= i < j < |ms| ==> ms[i].key != ms[j].key
  }

  /** Every JavaScript object has distinct keys, at every depth. */
  ghost predicate WellFormed(v: Json) {
    match v
    case Arr(items) => forall i :: 0 <= i < |items| ==> WellFormed(items[i])
    case Obj(ms) => DistinctKeys(ms) && forall i :: 0 <= i < |ms| ==> WellFormed(ms[i].value)
    case _ => true
  }

  lemma HasAt(ms: seq<Member>, i: nat)
    requires i < |ms|
    ensures Has(ms, ms[i].key)
    ensures DistinctKeys(ms) ==> Find(ms, ms[i].key) == i
  {
  }

  // ---------------------------------------------------------------- sorting keys

  predicate Less(a: string, b: string)
    decreases |a|
  {
    b != [] && (a == [] || a[0] < b[0] || (a[0] == b[0] && Less(a[1..], b[1..])))
  }

  lemma {:induction false} LessTrichotomy(a: string, b: string)
    ensures a == b || Less(a, b) || Less(b, a)
    ensures !(Less(a, b) && Less(b, a)) && !Less(a, a)
    decreases |a|
  {
    if a != [] && b != [] && a[0] == b[0] {
      LessTrichotomy(a[1..], b[1..]);
      assert a == [a[0]] + a[1..] && b == [b[0]] + b[1..];
    }
    if a != [] { LessTrichotomy(a[1..], a[1..]); }
  }

  lemma {:induction false} LessTransitive(a: string, b: string, c: string)
    requires Less(a, b) && Less(b, c)
    ensures Less(a, c)
    decreases |a|
  {
    if a != [] && a[0] == b[0] && b[0] == c[0] {
      LessTransitive(a[1..], b[1..], c[1..]);
    }
  }

  /** One text is before another when it is a proper prefix of it, or smaller at the first place they differ. */
  lemma {:induction false} LessMeans(a: string, b: string)
    ensures Less(a, b) <==>
            a < b || exists k :: 0 <= k < |a| && k < |b| && a[..k] == b[..k] && a[k] < b[k]
    decreases |a|
  {
    if a != [] && b != [] && a[0] == b[0] {
      var x, y := a[1..], b[1..];
      LessMeans(x, y);
      assert a == [a[0]] + x && b == [b[0]] + y;
      if k :| 0 <= k < |x| && k < |y| && x[..k] == y[..k] && x[k] < y[k] {
        assert a[..k + 1] == [a[0]] + x[..k] && b[..k + 1] == [b[0]] + y[..k];
        assert a[..k + 1] == b[..k + 1] && a[k + 1] < b[k + 1];
      }
      if k :| 0 <= k < |a| && k < |b| && a[..k] == b[..k] && a[k] < b[k] {
        assert x[..k - 1] == a[..k][1..] && y[..k - 1] == b[..k][1..];
        assert x[k - 1] == a[k] && y[k - 1] == b[k];
      }
    } else if a != [] && b != [] && a[0] != b[0] {
      assert forall k :: 0 < k < |a| && k < |b| ==> a[..k][0] != b[..k][0];
      assert a[..0] == b[..0];
    }
  }

  function Insert(key: string, keys: seq<string>): seq<string> {
    if keys == [] || !Less(keys[0], key) then [key] + keys else [keys[0]] + Insert(key, keys[1..])
  }

  /** `Object.keys(...).sort()` */
  function Sort(keys: seq<string>): seq<string> {
    if keys == [] then [] else Insert(keys[0], Sort(keys[1..]))
  }

  function SortedKeys(ms: seq<Member>): seq<string> { Sort(Keys(ms)) }

  ghost predicate Ascending(keys: seq<string>) {
    forall i, j :: 0 <= i < j < |keys| ==> Less(keys[i], keys[j])
  }

  ghost predicate SameElements(a: seq<string>, b: seq<string>) { forall k :: k in a <==> k in b }

  lemma {:induction false} InsertKeeps(key: string, keys: seq<string>)
    requires Ascending(keys) && key !in keys
    ensures Ascending(Insert(key, keys)) && SameElements(Insert(key, keys), [key] + keys)
    ensures |Insert(key, keys)| == |keys| + 1
  {
    var out := Insert(key, keys);
    if keys != [] {
      LessTrichotomy(keys[0], key);
      if Less(keys[0], key) {
        InsertKeeps(key, keys[1..]);
        var rest := Insert(key, keys[1..]);
        assert keys == [keys[0]] + keys[1..];
        forall j | 0 <= j < |rest| ensures Less(keys[0], rest[j]) {
          assert rest[j] in [key] + keys[1..];
        }
      } else {
        forall j | 0 <= j < |keys| ensures Less(key, keys[j]) {
          if j > 0 { LessTransitive(key, keys[0], keys[j]); }
        }
      }
    }
  }

  lemma {:induction false} SortSorts(keys: seq<string>)
    requires forall i, j :: 0 <= i < j < |keys| ==> keys[i] != keys[j]
    ensures Ascending(Sort(keys)) && SameElements(Sort(keys), keys) && |Sort(keys)| == |keys|
  {
    if keys != [] {
      SortSorts(keys[1..]);
      assert keys == [keys[0]] + keys[1..];
      InsertKeeps(keys[0], Sort(keys[1..]));
    }
  }

  lemma {:induction false} AscendingIsCanonical(a: seq<string>, b: seq<string>)
    requires Ascending(a) && Ascending(b) && SameElements(a, b) && |a| == |b|
    ensures a == b
  {
    if a != [] {
      assert a[0] in b && b[0] in a;
      LessTrichotomy(a[0], b[0]);
      assert a[0] == b[0];
      assert SameElements(a[1..], b[1..]) by {
        forall k ensures k in a[1..] <==> k in b[1..] {
          LessTrichotomy(a[0], k);
          assert k in a <==> k in b;
          assert a == [a[0]] + a[1..] && b == [b[0]] + b[1..];
          assert k in a[1..] ==> Less(a[0], k);
          assert k in b[1..] ==> Less(b[0], k);
        }
      }
      AscendingIsCanonical(a[1..], b[1..]);
    }
  }

  /** Sorting forgets the order the members were written in. */
  lemma SortedKeysCanonical(ms: seq<Member>, ns: seq<Member>)
    requires DistinctKeys(ms) && DistinctKeys(ns) && |ms| == |ns| && forall k :: Has(ms, k) <==> Has(ns, k)
    ensures SortedKeys(ms) == SortedKeys(ns)
  {
    SortSorts(Keys(ms));
    SortSorts(Keys(ns));
    forall k ensures k in SortedKeys(ms) <==> k in SortedKeys(ns) {
      KeyListed(ms, k);
      KeyListed(ns, k);
    }
    AscendingIsCanonical(SortedKeys(ms), SortedKeys(ns));
  }

  lemma KeyListed(ms: seq<Member>, key: string)
    requires DistinctKeys(ms)
    ensures key in SortedKeys(ms) <==> Has(ms, key)
    ensures |SortedKeys(ms)| == |ms|
  {
    SortSorts(Keys(ms));
    if Has(ms, key) { assert Keys(ms)[Find(ms, key)] == key; }
  }

  // ---------------------------------------------------------------- equality up to member order

  /** The same value, whatever order the members of its objects are written in. */
  ghost predicate Same(a: Json, b: Json)
    decreases a
  {
    match (a, b)
    case (Arr(xs), Arr(ys)) => |xs| == |ys| && forall i :: 0 <= i < |xs| ==> Same(xs[i], ys[i])
    case (Obj(ms), Obj(ns)) =>
      && |ms| == |ns|
      && (forall k :: Has(ms, k) <==> Has(ns, k))
      && (forall i :: 0 <= i < |ms| ==> Has(ns, ms[i].key) && Same(ms[i].value, ns[Find(ns, ms[i].key)].value))
    case _ => a == b
  }

  /** `deepEqual`, with its shortcut for identical values, and members compared in sorted key order. */
  predicate DeepEqual(a: Json, b: Json)
    decreases a
  {
    if a == b then true
    else if a.Arr? && b.Arr? then
      |a.items| == |b.items| && forall i :: 0 <= i < |a.items| ==> DeepEqual(a.items[i], b.items[i])
    else if a.Obj? && b.Obj? then
      var keys, others := SortedKeys(a.members), SortedKeys(b.members);
      |keys| == |others| &&
      forall i :: 0 <= i < |keys| ==>
        && keys[i] == others[i]
        && Has(a.members, keys[i]) && Has(b.members, keys[i])
        && DeepEqual(a.members[Find(a.members, keys[i])].value, b.members[Find(b.members, keys[i])].value)
    else false
  }

  /** `deepEqual` is equality up to member order. */
  lemma {:induction false} DeepEqualIsSame(a: Json, b: Json)
    requires WellFormed(a) && WellFormed(b)
    ensures DeepEqual(a, b) <==> Same(a, b)
    decreases a
  {
    if a == b {
      SameReflexive(a);
    } else if a.Arr? && b.Arr? {
      if |a.items| == |b.items| {
        forall i | 0 <= i < |a.items| ensures DeepEqual(a.items[i], b.items[i]) <==> Same(a.items[i], b.items[i]) {
          DeepEqualIsSame(a.items[i], b.items[i]);
        }
      }
    } else if a.Obj? && b.Obj? {
      var ms, ns := a.members, b.members;
      forall i | 0 <= i < |ms| && Has(ns, ms[i].key)
        ensures DeepEqual(ms[i].value, ns[Find(ns, ms[i].key)].value)
                <==> Same(ms[i].value, ns[Find(ns, ms[i].key)].value)
      {
        DeepEqualIsSame(ms[i].value, ns[Find(ns, ms[i].key)].value);
      }
      if Same(a, b) { SameGivesEqualMembers(ms, ns); } else if DeepEqual(a, b) { EqualMembersGiveSame(ms, ns); }
    }
  }

  lemma SameGivesEqualMembers(ms: seq<Member>, ns: seq<Member>)
    requires WellFormed(Obj(ms)) && WellFormed(Obj(ns)) && Same(Obj(ms), Obj(ns)) && ms != ns
    requires forall i :: 0 <= i < |ms| && Has(ns, ms[i].key) ==>
      (DeepEqual(ms[i].value, ns[Find(ns, ms[i].key)].value) <==> Same(ms[i].value, ns[Find(ns, ms[i].key)].value))
    ensures DeepEqual(Obj(ms), Obj(ns))
  {
    SortedKeysCanonical(ms, ns);
    var keys := SortedKeys(ms);
    forall i | 0 <= i < |keys|
      ensures Has(ms, keys[i]) && Has(ns, keys[i])
      ensures DeepEqual(ms[Find(ms, keys[i])].value, ns[Find(ns, keys[i])].value)
    {
      KeyListed(ms, keys[i]);
      assert Same(ms[Find(ms, keys[i])].value, ns[Find(ns, keys[i])].value);
    }
  }

  lemma EqualMembersGiveSame(ms: seq<Member>, ns: seq<Member>)
    requires WellFormed(Obj(ms)) && WellFormed(Obj(ns)) && DeepEqual(Obj(ms), Obj(ns)) && ms != ns
    requires forall i :: 0 <= i < |ms| && Has(ns, ms[i].key) ==>
      (DeepEqual(ms[i].value, ns[Find(ns, ms[i].key)].value) <==> Same(ms[i].value, ns[Find(ns, ms[i].key)].value))
    ensures Same(Obj(ms), Obj(ns))
  {
    var keys := SortedKeys(ms);
    KeyListed(ms, "");
    KeyListed(ns, "");
    assert keys == SortedKeys(ns);
    forall k ensures Has(ms, k) <==> Has(ns, k) {
      KeyListed(ms, k);
      KeyListed(ns, k);
    }
    forall i | 0 <= i < |ms| ensures Same(ms[i].value, ns[Find(ns, ms[i].key)].value) {
      HasAt(ms, i);
      KeyListed(ms, ms[i].key);
      var n :| 0 <= n < |keys| && keys[n] == ms[i].key;
      assert DeepEqual(ms[Find(ms, keys[n])].value, ns[Find(ns, keys[n])].value);
    }
  }

  // ---------------------------------------------------------------- an equivalence

  lemma {:induction false} SameReflexive(a: Json)
    requires WellFormed(a)
    ensures Same(a, a)
    decreases a
  {
    match a
    case Arr(items) => forall i | 0 <= i < |items| ensures Same(items[i], items[i]) { SameReflexive(items[i]); }
    case Obj(ms) =>
      forall i | 0 <= i < |ms| ensures Has(ms, ms[i].key) && Same(ms[i].value, ms[Find(ms, ms[i].key)].value) {
        HasAt(ms, i);
        SameReflexive(ms[i].value);
      }
    case _ =>
  }

  lemma {:induction false} SameSymmetric(a: Json, b: Json)
    requires WellFormed(a) && WellFormed(b) && Same(a, b)
    ensures Same(b, a)
    decreases a
  {
    match (a, b)
    case (Arr(xs), Arr(ys)) => forall i | 0 <= i < |ys| ensures Same(ys[i], xs[i]) { SameSymmetric(xs[i], ys[i]); }
    case (Obj(ms), Obj(ns)) =>
      forall j | 0 <= j < |ns| ensures Has(ms, ns[j].key) && Same(ns[j].value, ms[Find(ms, ns[j].key)].value) {
        HasAt(ns, j);
        var i := Find(ms, ns[j].key);
        assert Same(ms[i].value, ns[Find(ns, ms[i].key)].value);
        SameSymmetric(ms[i].value, ns[j].value);
      }
    case _ =>
  }

  lemma {:induction false} SameTransitive(a: Json, b: Json, c: Json)
    requires WellFormed(a) && WellFormed(b) && WellFormed(c) && Same(a, b) && Same(b, c)
    ensures Same(a, c)
    decreases a
  {
    match (a, b, c)
    case (Arr(xs), Arr(ys), Arr(zs)) =>
      forall i | 0 <= i < |xs| ensures Same(xs[i], zs[i]) { SameTransitive(xs[i], ys[i], zs[i]); }
    case (Obj(ms), Obj(ns), Obj(ps)) =>
      forall i | 0 <= i < |ms| ensures Has(ps, ms[i].key) && Same(ms[i].value, ps[Find(ps, ms[i].key)].value) {
        var j := Find(ns, ms[i].key);
        assert Same(ns[j].value, ps[Find(ps, ns[j].key)].value);
        SameTransitive(ms[i].value, ns[j].value, ps[Find(ps, ms[i].key)].value);
      }
    case _ =>
  }
}
