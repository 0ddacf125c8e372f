/** cre/lib/relay-payload.js: a response body is cut, in UTF-16 code units, until its JSON rendering fits a
    budget counted in bytes. */
module RelayPayload {
  import opened Basics

  type CodeUnit = u: int | 0 <= u < 0x1_0000 witness 0

  predicate High(u: CodeUnit) { 0xD800 <= u < 0xDC00 }

  predicate Low(u: CodeUnit) { 0xDC00 <= u < 0xE000 }

  /** Bytes of one unit inside a JSON string, when it is not half of a pair: two for the short escapes, six for
      other controls and for a surrogate on its own, otherwise its UTF-8 length. */
  function UnitBytes(u: CodeUnit): (n: nat)
    ensures 1 <= n <= 6
  {
    if u in {0x22, 0x5C, 0x08, 0x09, 0x0A, 0x0C, 0x0D} then 2
    else if u < 0x20 || High(u) || Low(u) then 6
    else if u < 0x80 then 1
    else if u < 0x800 then 2
    else 3
  }

  /** Bytes of a whole string inside JSON: a surrogate pair is one four-byte character. */
  function EscapedBytes(s: seq<CodeUnit>): nat {
    if s == [] then 0
    else if |s| > 1 && High(s[0]) && Low(s[1]) then 4 + EscapedBytes(s[2..])
    else UnitBytes(s[0]) + EscapedBytes(s[1..])
  }

  /** Bytes of the payload: everything but the body and its flag is fixed, and `false` is longer than `true`. */
  function Size(envelope: nat, body: seq<CodeUnit>, truncated: bool): nat {
    envelope + EscapedBytes(body) + (if truncated then 4 else 5)
  }

  // ---------------------------------------------------------------- what a cut saves

  /** The cut between `s[..n]` and `s[n..]` falls inside a surrogate pair. Two units `High Low` side by side
      are always one character, because a low half never begins one. */
  predicate SplitsPair(s: seq<CodeUnit>, n: nat)
    requires n <= |s|
  {
    0 < n < |s| && High(s[n - 1]) && Low(s[n])
  }

  lemma {:induction false} BytesOfParts(a: seq<CodeUnit>, b: seq<CodeUnit>)
    requires !SplitsPair(a + b, |a|)
    ensures EscapedBytes(a + b) == EscapedBytes(a) + EscapedBytes(b)
  {
    if a == [] {
      assert a + b == b;
    } else if |a| > 1 && High(a[0]) && Low(a[1]) {
      assert (a + b)[2..] == a[2..] + b;
      BytesOfParts(a[2..], b);
    } else {
      assert (a + b)[1..] == a[1..] + b;
      BytesOfParts(a[1..], b);
    }
  }

  /** Every unit costs at least a byte. */
  lemma {:induction false} UnitsCostBytes(s: seq<CodeUnit>)
    ensures EscapedBytes(s) >= |s|
  {
    if s != [] { UnitsCostBytes(if |s| > 1 && High(s[0]) && Low(s[1]) then s[2..] else s[1..]); }
  }

  lemma OneUnit(u: CodeUnit)
    ensures EscapedBytes([u]) == UnitBytes(u)
  {
    assert EscapedBytes([u][1..]) == 0;
  }

  lemma PairBytes(high: CodeUnit, low: CodeUnit, after: seq<CodeUnit>)
    requires High(high) && Low(low)
    ensures EscapedBytes([high, low] + after) == 4 + EscapedBytes(after)
  {
    assert ([high, low] + after)[2..] == after;
  }

  lemma HalfBytes(before: seq<CodeUnit>, high: CodeUnit)
    requires High(high)
    ensures EscapedBytes(before + [high]) == EscapedBytes(before) + 6
  {
    hide EscapedBytes;
    BytesOfParts(before, [high]);
    OneUnit(high);
  }

  lemma WholePairBytes(before: seq<CodeUnit>, high: CodeUnit, low: CodeUnit, after: seq<CodeUnit>)
    requires High(high) && Low(low)
    ensures EscapedBytes(before + ([high, low] + after)) == EscapedBytes(before) + 4 + EscapedBytes(after)
  {
    hide EscapedBytes, UnitBytes;
    BytesOfParts(before, [high, low] + after);
    PairBytes(high, low, after);
  }

  /** Dropping a pair's low half leaves its high half alone, at two bytes more than the pair. */
  lemma SplitCosts(s: seq<CodeUnit>, n: nat)
    requires n <= |s| && SplitsPair(s, n)
    ensures EscapedBytes(s[..n]) == EscapedBytes(s[..n - 1]) + 6
    ensures EscapedBytes(s) == EscapedBytes(s[..n - 1]) + 4 + EscapedBytes(s[n + 1..])
  {
    hide EscapedBytes, UnitBytes, High, Low;
    var before, after := s[..n - 1], s[n + 1..];
    assert s[..n] == before + [s[n - 1]];
    HalfBytes(before, s[n - 1]);
    assert s == before + ([s[n - 1], s[n]] + after);
    WholePairBytes(before, s[n - 1], s[n], after);
  }

  /** Cutting `|s| - n` units saves at least that many bytes, less three when the cut falls inside a pair. */
  lemma CutSaves(s: seq<CodeUnit>, n: nat)
    requires n <= |s|
    ensures EscapedBytes(s[..n]) + (|s| - n) <= EscapedBytes(s) + (if SplitsPair(s, n) then 3 else 0)
  {
    if SplitsPair(s, n) {
      SplitCosts(s, n);
      UnitsCostBytes(s[n + 1..]);
    } else {
      assert s == s[..n] + s[n..];
      BytesOfParts(s[..n], s[n..]);
      UnitsCostBytes(s[n..]);
    }
  }

  lemma DropHalf(s: seq<CodeUnit>)
    requires s != [] && High(s[|s| - 1])
    ensures EscapedBytes(s[..|s| - 1]) + 6 == EscapedBytes(s)
  {
    hide EscapedBytes, High;
    assert s == s[..|s| - 1] + [s[|s| - 1]];
    HalfBytes(s[..|s| - 1], s[|s| - 1]);
  }

  /** A body that ends in half a pair is at least four bytes smaller without its last one or two units. */
  lemma SecondCutSaves(s: seq<CodeUnit>, k: nat)
    requires s != [] && High(s[|s| - 1]) && 1 <= k <= 2 && k <= |s|
    ensures EscapedBytes(s[..|s| - k]) + 4 <= EscapedBytes(s)
  {
    hide EscapedBytes, UnitBytes, High, SplitsPair;
    DropHalf(s);
    if k == 2 {
      var init := s[..|s| - 1];
      CutSaves(init, |s| - 2);
      assert init[..|s| - 2] == s[..|s| - 2];
    }
  }

  // ---------------------------------------------------------------- fitToBudget

  const FIT_ATTEMPTS := 8

  /** `body.slice(0, Math.max(0, body.length - Math.max(over, 1)))` */
  function Cut(body: seq<CodeUnit>, over: int): seq<CodeUnit> { body[..Max(0, |body| - Max(over, 1))] }

  /** Cutting and flagging makes a payload larger exactly when the only unit cut is the low half of a pair. */
  lemma CutGrowsIff(envelope: nat, s: seq<CodeUnit>, n: nat)
    requires n < |s|
    ensures Size(envelope, s[..n], true) > Size(envelope, s, false) <==> SplitsPair(s, n) && n == |s| - 1
  {
    hide EscapedBytes;
    if SplitsPair(s, n) {
      SplitCosts(s, n);
      UnitsCostBytes(s[n + 1..]);
      if n == |s| - 1 { NoBytes(s[n + 1..]); }
    } else {
      CutSaves(s, n);
    }
  }

  lemma NoBytes(s: seq<CodeUnit>)
    requires s == []
    ensures EscapedBytes(s) == 0
  {
  }

  /** So one cut is not always enough. */
  lemma OneCutCanGrowThePayload(envelope: nat)
    ensures Cut([0xD83D, 0xDE00], Size(envelope, [0xD83D, 0xDE00], false) - (envelope + 8)) == [0xD83D]
    ensures Size(envelope, [0xD83D], true) > Size(envelope, [0xD83D, 0xDE00], false) > envelope + 8
  {
    assert EscapedBytes([0xD83D, 0xDE00][2..]) == 0;
    CutGrowsIff(envelope, [0xD83D, 0xDE00], 1);
    assert [0xD83D, 0xDE00][..1] == [0xD83D];
  }

  /** The body less its last `n` units, or nothing. */
  ghost function Without(body: seq<CodeUnit>, n: int): seq<CodeUnit>
    requires n > 0
  {
    if n < |body| then body[..|body| - n] else []
  }

  /** The body comes back whole when it fits; otherwise it is cut and flagged, and what comes back is over
      budget only when there was nothing left to cut. Each cut takes off as many units as there are bytes too many.
      Two cuts always suffice, so the limit of eight attempts never binds, and no more than two units beyond the
      overflow are lost. */
  method FitToBudget(envelope: nat, fullBody: seq<CodeUnit>, budget: int)
    returns (body: seq<CodeUnit>, truncated: bool, ghost cuts: nat)
    ensures body <= fullBody
    ensures truncated <==> body != fullBody
    ensures Size(envelope, fullBody, false) <= budget ==> body == fullBody
    ensures Size(envelope, body, truncated) > budget ==> body == []
    ensures cuts <= 2
    ensures |fullBody| - |body| <= Max(0, Size(envelope, fullBody, false) - budget) + 2
    ensures Size(envelope, fullBody, false) > budget && fullBody != [] ==>
      var once := Without(fullBody, Size(envelope, fullBody, false) - budget);
      body == if Size(envelope, once, true) <= budget then once else Without(once, Size(envelope, once, true) - budget)
  {
    body, truncated, cuts := fullBody, false, 0;
    var size := Size(envelope, fullBody, false);
    if size <= budget { return; }
    var attempt := 0;
    while attempt < FIT_ATTEMPTS && |body| > 0
      invariant attempt == cuts <= 2 && body <= fullBody && size == Size(envelope, body, truncated)
      invariant truncated <==> cuts > 0
      invariant truncated <==> body != fullBody
      invariant cuts == 0 ==> body == fullBody && size > budget
      invariant cuts == 1 && body != [] && size > budget ==> size - budget <= 2 && High(body[|body| - 1])
      invariant cuts == 2 && body != [] ==> size <= budget
      invariant cuts == 1 ==> |fullBody| - |body| <= Size(envelope, fullBody, false) - budget
      invariant cuts == 1 ==> body == Without(fullBody, Size(envelope, fullBody, false) - budget)
      invariant cuts == 2 ==>
        var once := Without(fullBody, Size(envelope, fullBody, false) - budget);
        Size(envelope, once, true) > budget && body == Without(once, Size(envelope, once, true) - budget)
      invariant |fullBody| - |body| <= Size(envelope, fullBody, false) - budget + 2
    {
      var over := size - budget;
      if over <= 0 { break; }
      if over <= |body| {
        CutSaves(body, |body| - over);
        if cuts == 1 { SecondCutSaves(body, over); }
      }
      assert Cut(body, over) < body;
      body := Cut(body, over);
      truncated := true;
      size := Size(envelope, body, true);
      attempt, cuts := attempt + 1, cuts + 1;
    }
  }
}
