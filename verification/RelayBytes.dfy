/** What `JSON.stringify` and `TextEncoder` make of a string, byte by byte, and that it reads back as the string;
    so the bytes counted for the budget are the bytes sent. */
module RelayBytes {
  import opened Basics
  import opened RelayPayload

  type Byte = b: int | 0 <= b < 0x100 witness 0

  // ---------------------------------------------------------------- a string as JSON text

  function HexUnit(d: int): CodeUnit
    requires 0 <= d < 16
  {
    if d < 10 then 0x30 + d else 0x57 + d
  }

  /** `\u` and four hex digits. */
  function Numbered(u: CodeUnit): seq<CodeUnit> {
    [0x5C, 0x75, HexUnit(u / 16 / 16 / 16), HexUnit(u / 16 / 16 % 16), HexUnit(u / 16 % 16), HexUnit(u % 16)]
  }

  /** Section 7 of RFC 8259, as `JSON.stringify` applies it to one unit that is not half of a pair. */
  function Escape(u: CodeUnit): seq<CodeUnit> {
    if u == 0x22 || u == 0x5C then [0x5C, u]
    else if u == 0x08 then [0x5C, 0x62]
    else if u == 0x09 then [0x5C, 0x74]
    else if u == 0x0A then [0x5C, 0x6E]
    else if u == 0x0C then [0x5C, 0x66]
    else if u == 0x0D then [0x5C, 0x72]
    else if u < 0x20 || High(u) || Low(u) then Numbered(u)
    else [u]
  }

  function JsonText(s: seq<CodeUnit>): seq<CodeUnit> {
    if s == [] then []
    else if |s| > 1 && High(s[0]) && Low(s[1]) then [s[0], s[1]] + JsonText(s[2..])
    else Escape(s[0]) + JsonText(s[1..])
  }

  // ---------------------------------------------------------------- text as UTF-8

  /** Section 3 of RFC 3629. A surrogate on its own is written as the replacement character. */
  function UnitUtf8(u: CodeUnit): seq<Byte> {
    if u < 0x80 then [u]
    else if u < 0x800 then [0xC0 + u / 0x40, 0x80 + u % 0x40]
    else if High(u) || Low(u) then [0xEF, 0xBF, 0xBD]
    else [0xE0 + u / 0x40 / 0x40, 0x80 + u / 0x40 % 0x40, 0x80 + u % 0x40]
  }

  function PairUtf8(high: CodeUnit, low: CodeUnit): seq<Byte>
    requires High(high) && Low(low)
  {
    var point := 0x1_0000 + (high - 0xD800) * 0x400 + (low - 0xDC00);
    [0xF0 + point / 0x40 / 0x40 / 0x40, 0x80 + point / 0x40 / 0x40 % 0x40, 0x80 + point / 0x40 % 0x40,
     0x80 + point % 0x40]
  }

  function Utf8(t: seq<CodeUnit>): seq<Byte> {
    if t == [] then []
    else if |t| > 1 && High(t[0]) && Low(t[1]) then PairUtf8(t[0], t[1]) + Utf8(t[2..])
    else UnitUtf8(t[0]) + Utf8(t[1..])
  }

  lemma Utf8Unit(u: CodeUnit, rest: seq<CodeUnit>)
    requires !High(u)
    ensures Utf8([u] + rest) == UnitUtf8(u) + Utf8(rest)
  {
    assert ([u] + rest)[1..] == rest;
  }

  lemma {:induction false} Utf8Ascii(a: seq<CodeUnit>, rest: seq<CodeUnit>)
    requires forall i :: 0 <= i < |a| ==> a[i] < 0x80
    ensures |Utf8(a + rest)| == |a| + |Utf8(rest)|
  {
    if a == [] {
      assert a + rest == rest;
    } else {
      Utf8Ascii(a[1..], rest);
      Utf8Unit(a[0], a[1..] + rest);
      assert a + rest == [a[0]] + (a[1..] + rest);
    }
  }

  lemma EscapeBytes(u: CodeUnit, rest: seq<CodeUnit>)
    ensures |Utf8(Escape(u) + rest)| == UnitBytes(u) + |Utf8(rest)|
  {
    hide Utf8;
    if |Escape(u)| > 1 {
      Utf8Ascii(Escape(u), rest);
    } else {
      Utf8Unit(u, rest);
    }
  }

  lemma PairUnits(high: CodeUnit, low: CodeUnit, rest: seq<CodeUnit>)
    requires High(high) && Low(low)
    ensures Utf8([high, low] + rest) == PairUtf8(high, low) + Utf8(rest)
  {
    assert ([high, low] + rest)[2..] == rest;
  }

  /** The bytes counted for a body are the bytes of its JSON text. */
  lemma {:induction false} CountedAsSent(s: seq<CodeUnit>)
    ensures EscapedBytes(s) == |Utf8(JsonText(s))|
  {
    hide Utf8, Escape, UnitBytes, PairUtf8;
    if s != [] {
      if |s| > 1 && High(s[0]) && Low(s[1]) {
        CountedAsSent(s[2..]);
        PairUnits(s[0], s[1], JsonText(s[2..]));
        PairIsFour(s[0], s[1]);
      } else {
        CountedAsSent(s[1..]);
        EscapeBytes(s[0], JsonText(s[1..]));
      }
    } else {
      NoText();
    }
  }

  lemma NoText()
    ensures Utf8([]) == []
  {
  }

  lemma PairIsFour(high: CodeUnit, low: CodeUnit)
    requires High(high) && Low(low)
    ensures |PairUtf8(high, low)| == 4
  {
  }

  /** `true` or `false`, in ASCII. */
  function FlagBytes(truncated: bool): seq<Byte> {
    if truncated then [0x74, 0x72, 0x75, 0x65] else [0x66, 0x61, 0x6C, 0x73, 0x65]
  }

  /** The size the budget is compared with is that of the payload: whatever surrounds them, the body's text and
      the flag. */
  lemma PayloadSize(before: seq<Byte>, between: seq<Byte>, after: seq<Byte>, body: seq<CodeUnit>, truncated: bool)
    ensures |before + Utf8(JsonText(body)) + between + FlagBytes(truncated) + after|
            == Size(|before| + |between| + |after|, body, truncated)
  {
    hide Utf8, JsonText, EscapedBytes;
    CountedAsSent(body);
  }

  // ---------------------------------------------------------------- reading it back

  /** Units that pair up wherever one is a surrogate. */
  ghost predicate Paired(t: seq<CodeUnit>) {
    t == [] ||
    (if |t| > 1 && High(t[0]) && Low(t[1]) then Paired(t[2..]) else !High(t[0]) && !Low(t[0]) && Paired(t[1..]))
  }

  function FromUtf8(b: seq<Byte>): Option<seq<CodeUnit>> {
    if b == [] then Some([])
    else if b[0] < 0x80 then Onto([b[0]], FromUtf8(b[1..]))
    else if 0xC0 <= b[0] < 0xE0 && |b| > 1 && Trailing(b[1]) then
      Onto([(b[0] as int - 0xC0) * 0x40 + Six(b[1])], FromUtf8(b[2..]))
    else if 0xE0 <= b[0] < 0xF0 && |b| > 2 && Trailing(b[1]) && Trailing(b[2]) then
      Onto([(b[0] as int - 0xE0) * 0x1000 + Six(b[1]) * 0x40 + Six(b[2])], FromUtf8(b[3..]))
    else if 0xF0 <= b[0] < 0xF5 && |b| > 3 && Trailing(b[1]) && Trailing(b[2]) && Trailing(b[3]) then
      var point := (b[0] as int - 0xF0) * 0x4_0000 + Six(b[1]) * 0x1000 + Six(b[2]) * 0x40 + Six(b[3]);
      if 0x1_0000 <= point < 0x11_0000
      then Onto([0xD800 + (point - 0x1_0000) / 0x400, 0xDC00 + (point - 0x1_0000) % 0x400], FromUtf8(b[4..]))
      else None
    else None
  }

  predicate Trailing(b: Byte) { 0x80 <= b < 0xC0 }

  function Six(b: Byte): int { b as int - 0x80 }

  function Onto(first: seq<CodeUnit>, rest: Option<seq<CodeUnit>>): Option<seq<CodeUnit>> {
    if rest.Some? then Some(first + rest.value) else None
  }

  lemma UnitReads(u: CodeUnit, rest: seq<Byte>)
    requires !High(u) && !Low(u)
    ensures FromUtf8(UnitUtf8(u) + rest) == Onto([u], FromUtf8(rest))
  {
    var n := |UnitUtf8(u)|;
    assert (UnitUtf8(u) + rest)[n..] == rest;
    if u >= 0x800 { assert u == u / 0x40 * 0x40 + u % 0x40 && u / 0x40 == u / 0x40 / 0x40 * 0x40 + u / 0x40 % 0x40; }
  }

  lemma PairReads(high: CodeUnit, low: CodeUnit, rest: seq<Byte>)
    requires High(high) && Low(low)
    ensures FromUtf8(PairUtf8(high, low) + rest) == Onto([high, low], FromUtf8(rest))
  {
    var (x, y) := (high - 0xD800, low - 0xDC00);
    var point := 0x1_0000 + x * 0x400 + y;
    FourGroups(point);
    assert (point - 0x1_0000) / 0x400 == x && (point - 0x1_0000) % 0x400 == y;
    hide High, Low;
    assert (PairUtf8(high, low) + rest)[4..] == rest;
  }

  lemma FourGroups(point: int)
    requires 0x1_0000 <= point < 0x11_0000
    ensures point == point / 0x40 / 0x40 / 0x40 * 0x4_0000 + point / 0x40 / 0x40 % 0x40 * 0x1000
                     + point / 0x40 % 0x40 * 0x40 + point % 0x40
  {
    var (x, y) := (point / 0x40, point / 0x40 / 0x40);
    assert point == x * 0x40 + point % 0x40 && x == y * 0x40 + x % 0x40 && y == y / 0x40 * 0x40 + y % 0x40;
  }

  lemma {:induction false} TextReads(t: seq<CodeUnit>)
    requires Paired(t)
    ensures FromUtf8(Utf8(t)) == Some(t)
  {
    hide UnitUtf8, PairUtf8;
    if t != [] {
      if |t| > 1 && High(t[0]) && Low(t[1]) {
        TextReads(t[2..]);
        PairReads(t[0], t[1], Utf8(t[2..]));
        assert t == [t[0], t[1]] + t[2..];
      } else {
        TextReads(t[1..]);
        UnitReads(t[0], Utf8(t[1..]));
        assert t == [t[0]] + t[1..];
      }
    }
  }

  function HexValue(u: CodeUnit): Option<int> {
    if 0x30 <= u <= 0x39 then Some(u - 0x30)
    else if 0x61 <= u <= 0x66 then Some(u - 0x57)
    else if 0x41 <= u <= 0x46 then Some(u - 0x37)
    else None
  }

  /** The inside of a JSON string, read. */
  function FromJson(t: seq<CodeUnit>): Option<seq<CodeUnit>> {
    if t == [] then Some([])
    else if t[0] == 0x22 || t[0] < 0x20 then None
    else if t[0] != 0x5C then Onto([t[0]], FromJson(t[1..]))
    else if |t| < 2 then None
    else if t[1] == 0x75 then
      if |t| < 6 then None
      else match (HexValue(t[2]), HexValue(t[3]), HexValue(t[4]), HexValue(t[5]))
        case (Some(a), Some(b), Some(c), Some(d)) =>
          var u := a * 0x1000 + b * 0x100 + c * 0x10 + d;
          if 0 <= u < 0x1_0000 then Onto([u], FromJson(t[6..])) else None
        case _ => None
    else if Short(t[1]).Some? then Onto([Short(t[1]).value], FromJson(t[2..]))
    else None
  }

  /** What a backslash and one letter stand for. */
  function Short(letter: CodeUnit): Option<CodeUnit> {
    if letter == 0x22 || letter == 0x5C || letter == 0x2F then Some(letter)
    else if letter == 0x62 then Some(0x08)
    else if letter == 0x74 then Some(0x09)
    else if letter == 0x6E then Some(0x0A)
    else if letter == 0x66 then Some(0x0C)
    else if letter == 0x72 then Some(0x0D)
    else None
  }

  lemma HexReads(d: int)
    requires 0 <= d < 16
    ensures HexValue(HexUnit(d)) == Some(d)
  {
  }

  lemma NumberedReads(u: CodeUnit, rest: seq<CodeUnit>)
    ensures FromJson(Numbered(u) + rest) == Onto([u], FromJson(rest))
  {
    hide HexValue, HexUnit, Numbered;
    var t := Numbered(u) + rest;
    HexReads(u / 16 / 16 / 16);
    HexReads(u / 16 / 16 % 16);
    HexReads(u / 16 % 16);
    HexReads(u % 16);
    NumberedAre(u, rest);
    FourDigits(u);
  }

  lemma NumberedAre(u: CodeUnit, rest: seq<CodeUnit>)
    ensures var t := Numbered(u) + rest;
            && |t| >= 6 && t[0] == 0x5C && t[1] == 0x75 && t[6..] == rest
            && t[2] == HexUnit(u / 16 / 16 / 16) && t[3] == HexUnit(u / 16 / 16 % 16)
            && t[4] == HexUnit(u / 16 % 16) && t[5] == HexUnit(u % 16)
  {
    hide HexUnit;
  }

  lemma FourDigits(u: CodeUnit)
    ensures u == u / 16 / 16 / 16 * 0x1000 + u / 16 / 16 % 16 * 0x100 + u / 16 % 16 * 0x10 + u % 16
    ensures 0 <= u / 16 / 16 / 16 < 16
  {
    var (x, y) := (u / 16, u / 16 / 16);
    assert u == x * 16 + u % 16 && x == y * 16 + x % 16 && y == y / 16 * 16 + y % 16;
  }

  lemma EscapeReads(u: CodeUnit, rest: seq<CodeUnit>)
    ensures FromJson(Escape(u) + rest) == Onto([u], FromJson(rest))
  {
    hide Numbered;
    if Escape(u) == Numbered(u) {
      NumberedReads(u, rest);
    } else {
      assert (Escape(u) + rest)[|Escape(u)|..] == rest;
    }
  }

  lemma {:induction false} JsonReads(s: seq<CodeUnit>)
    ensures FromJson(JsonText(s)) == Some(s)
  {
    hide Escape;
    if s != [] {
      if |s| > 1 && High(s[0]) && Low(s[1]) {
        JsonReads(s[2..]);
        PlainReads(s[0], [s[1]] + JsonText(s[2..]));
        PlainReads(s[1], JsonText(s[2..]));
        assert [s[0], s[1]] + JsonText(s[2..]) == [s[0]] + ([s[1]] + JsonText(s[2..]));
        assert [s[0]] + ([s[1]] + s[2..]) == s;
      } else {
        JsonReads(s[1..]);
        EscapeReads(s[0], JsonText(s[1..]));
        assert s == [s[0]] + s[1..];
      }
    }
  }

  lemma PlainReads(u: CodeUnit, rest: seq<CodeUnit>)
    requires u >= 0x80
    ensures FromJson([u] + rest) == Onto([u], FromJson(rest))
  {
    assert ([u] + rest)[1..] == rest;
  }

  lemma PairedCons(u: CodeUnit, rest: seq<CodeUnit>)
    requires !High(u) && !Low(u) && Paired(rest)
    ensures Paired([u] + rest)
  {
    assert ([u] + rest)[1..] == rest;
  }

  lemma {:induction false} PairedAscii(a: seq<CodeUnit>, rest: seq<CodeUnit>)
    requires Paired(rest) && forall i :: 0 <= i < |a| ==> a[i] < 0x80
    ensures Paired(a + rest)
  {
    if a == [] {
      assert a + rest == rest;
    } else {
      PairedAscii(a[1..], rest);
      PairedCons(a[0], a[1..] + rest);
      assert a + rest == [a[0]] + (a[1..] + rest);
    }
  }

  /** No half of a pair is ever sent on its own: it is escaped. */
  lemma {:induction false} TextIsPaired(s: seq<CodeUnit>)
    ensures Paired(JsonText(s))
  {
    if s != [] {
      if |s| > 1 && High(s[0]) && Low(s[1]) {
        TextIsPaired(s[2..]);
        assert ([s[0], s[1]] + JsonText(s[2..]))[2..] == JsonText(s[2..]);
      } else {
        hide Paired;
        TextIsPaired(s[1..]);
        EscapePaired(s[0], JsonText(s[1..]));
      }
    }
  }

  lemma EscapePaired(u: CodeUnit, rest: seq<CodeUnit>)
    requires Paired(rest)
    ensures Paired(Escape(u) + rest)
  {
    hide Paired;
    if |Escape(u)| > 1 { PairedAscii(Escape(u), rest); } else { PairedCons(u, rest); }
  }

  /** Whoever reads the bytes gets the body, unit for unit. */
  lemma BodyArrives(s: seq<CodeUnit>)
    ensures FromUtf8(Utf8(JsonText(s))) == Some(JsonText(s))
    ensures FromJson(FromUtf8(Utf8(JsonText(s))).value) == Some(s)
  {
    hide *;
    TextIsPaired(s);
    TextReads(JsonText(s));
    JsonReads(s);
  }
}
