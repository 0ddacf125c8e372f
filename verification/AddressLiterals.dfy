/** proxy/src/http.js: IPv4 and IPv6 literals read into bytes, and the ranges they are sorted into. */
module AddressLiterals {
  import opened Basics
  import opened Texts

  // ---------------------------------------------------------------- parseIPv4

  /** One to three digits, up to 255. */
  function Octet(part: string): Option<nat> {
    if 1 <= |part| <= 3 && ReadDigits(part).Some? && ReadDigits(part).value <= 255 then ReadDigits(part) else None
  }

  function ParseIPv4(host: string): (octets: Option<seq<nat>>)
    ensures octets.Some? ==> |octets.value| == 4
  {
    var parts := Split(host, '.');
    if |parts| != 4 then None
    else match (Octet(parts[0]), Octet(parts[1]), Octet(parts[2]), Octet(parts[3]))
      case (Some(a), Some(b), Some(c), Some(d)) => Some([a, b, c, d])
      case _ => None
  }

  // ---------------------------------------------------------------- parseIPv6

  function HexDigit(c: char): Option<nat> {
    if '0' <= c <= '9' then Some(c as int - '0' as int)
    else if 'a' <= c <= 'f' then Some(c as int - 'a' as int + 10)
    else if 'A' <= c <= 'F' then Some(c as int - 'A' as int + 10)
    else None
  }

  function ReadHex(s: string): Option<nat> {
    if s == [] then Some(0)
    else match (ReadHex(s[..|s| - 1]), HexDigit(s[|s| - 1]))
      case (Some(high), Some(low)) => Some(high * 16 + low)
      case _ => None
  }

  /** One group: a dotted quad where the caller allows one, otherwise one to four hexadecimal digits. */
  function GroupBytes(group: string, last: bool): Option<seq<nat>> {
    if '.' in group then (if last then ParseIPv4(group) else None)
    else if 1 <= |group| <= 4 && ReadHex(group).Some?
      then Some([ReadHex(group).value / 256, ReadHex(group).value % 256])
    else None
  }

  function GroupsBytes(groups: seq<string>): Option<seq<nat>> {
    if groups == [] then Some([])
    else match (GroupBytes(groups[0], |groups| == 1), GroupsBytes(groups[1..]))
      case (Some(first), Some(rest)) => Some(first + rest)
      case _ => None
  }

  /** `toBytes` */
  function PartBytes(part: string): Option<seq<nat>> { if part == "" then Some([]) else GroupsBytes(Split(part, ':')) }

  const GAP := "::"

  /** `host.split('::')` */
  function Halves(host: string): (parts: seq<string>)
    ensures parts != []
  {
    if |host| < 2 then [host]
    else if host[0] == ':' && host[1] == ':' then [""] + Halves(host[2..])
    else
      var parts := Halves(host[1..]);
      [[host[0]] + parts[0]] + parts[1..]
  }

  function Zeros(n: nat): (zeros: seq<nat>)
    ensures |zeros| == n && forall i :: 0 <= i < n ==> zeros[i] == 0
  {
    seq(n, _ => 0)
  }

  function ParseIPv6(host: string): (bytes: Option<seq<nat>>)
    ensures bytes.Some? ==> |bytes.value| == 16
  {
    var halves := Halves(host);
    if |halves| > 2 then None
    else
      match (PartBytes(halves[0]), if |halves| == 2 then PartBytes(halves[1]) else Some([]))
      case (Some(head), Some(tail)) =>
        var gap := 16 - |head| - |tail|;
        if (if |halves| == 2 then gap < 0 else gap != 0) then None else Some(head + Zeros(gap) + tail)
      case _ => None
  }

  ghost function After(pushed: seq<nat>, rest: Option<seq<nat>>): Option<seq<nat>> {
    if rest.Some? then Some(pushed + rest.value) else None
  }

  lemma GroupsStep(groups: seq<string>, i: nat, pushed: seq<nat>)
    requires i < |groups|
    ensures var group := GroupBytes(groups[i], i == |groups| - 1);
            After(pushed, GroupsBytes(groups[i..]))
            == if group.Some? then After(pushed + group.value, GroupsBytes(groups[i + 1..])) else None
  {
    assert groups[i..][0] == groups[i] && groups[i..][1..] == groups[i + 1..];
    var group, rest := GroupBytes(groups[i], i == |groups| - 1), GroupsBytes(groups[i + 1..]);
    hide GroupBytes;
    if group.Some? && rest.Some? { assert pushed + (group.value + rest.value) == (pushed + group.value) + rest.value; }
  }

  /** `toBytes` as it runs: bytes pushed group by group. */
  method ReadPart(part: string) returns (bytes: Option<seq<nat>>)
    ensures bytes == PartBytes(part)
  {
    if part == "" { return Some([]); }
    var groups := Split(part, ':');
    var pushed: seq<nat> := [];
    hide GroupBytes, Split;
    assert groups[0..] == groups && After([], GroupsBytes(groups)) == GroupsBytes(groups) by {
      if GroupsBytes(groups).Some? { assert [] + GroupsBytes(groups).value == GroupsBytes(groups).value; }
    }
    for i := 0 to |groups|
      invariant After(pushed, GroupsBytes(groups[i..])) == GroupsBytes(groups)
    {
      GroupsStep(groups, i, pushed);
      var group := GroupBytes(groups[i], i == |groups| - 1);
      if group.None? { return None; }
      pushed := pushed + group.value;
    }
    assert groups[|groups|..] == [] && pushed + [] == pushed;
    return Some(pushed);
  }

  method ReadIPv6(host: string) returns (bytes: Option<seq<nat>>)
    ensures bytes == ParseIPv6(host)
  {
    var halves := Halves(host);
    if |halves| > 2 { return None; }
    hide PartBytes, Halves;
    var head := ReadPart(halves[0]);
    var tail := Some([]);
    if |halves| == 2 { tail := ReadPart(halves[1]); }
    if head.None? || tail.None? { return None; }
    var gap := 16 - |head.value| - |tail.value|;
    if (if |halves| == 2 then gap < 0 else gap != 0) { return None; }
    return Some(head.value + Zeros(gap) + tail.value);
  }

  // ---------------------------------------------------------------- the spellings of an address

  /** A group is up to four hexadecimal digits in either case, leading zeros allowed, or the last 32 bits of its
      part as a dotted quad. */
  datatype Group = Hex(digits: string) | Quad(a: string, b: string, c: string, d: string)

  ghost predicate WellSpelled(g: Group) {
    match g
    case Hex(digits) => 1 <= |digits| <= 4 && forall i :: 0 <= i < |digits| ==> HexDigit(digits[i]).Some?
    case Quad(a, b, c, d) => Octet(a).Some? && Octet(b).Some? && Octet(c).Some? && Octet(d).Some?
  }

  ghost function GroupText(g: Group): string {
    match g
    case Hex(digits) => digits
    case Quad(a, b, c, d) => a + "." + (b + "." + (c + "." + d))
  }

  ghost function HexValue(digits: string): nat
    requires forall i :: 0 <= i < |digits| ==> HexDigit(digits[i]).Some?
  {
    if digits == [] then 0 else 16 * HexValue(digits[..|digits| - 1]) + HexDigit(digits[|digits| - 1]).value
  }

  ghost function GroupValue(g: Group): (bytes: seq<nat>)
    requires WellSpelled(g)
  {
    match g
    case Hex(digits) => [HexValue(digits) / 256, HexValue(digits) % 256]
    case Quad(a, b, c, d) => [Octet(a).value, Octet(b).value, Octet(c).value, Octet(d).value]
  }

  /** Quads stand only at the end of their part. */
  ghost predicate WellSpelledPart(groups: seq<Group>) {
    forall i :: 0 <= i < |groups| ==> WellSpelled(groups[i]) && (groups[i].Quad? ==> i == |groups| - 1)
  }

  ghost function PartText(groups: seq<Group>): string {
    if groups == [] then ""
    else if |groups| == 1 then GroupText(groups[0])
    else GroupText(groups[0]) + ":" + PartText(groups[1..])
  }

  ghost function PartValue(groups: seq<Group>): seq<nat>
    requires WellSpelledPart(groups)
  {
    if groups == [] then [] else GroupValue(groups[0]) + PartValue(groups[1..])
  }

  /** All groups in full, or the zeros between two parts left out. */
  datatype Spelling = Full(groups: seq<Group>) | Compressed(head: seq<Group>, tail: seq<Group>)

  ghost predicate Spells(s: Spelling) {
    match s
    case Full(groups) => WellSpelledPart(groups) && |PartValue(groups)| == 16
    case Compressed(head, tail) =>
      WellSpelledPart(head) && WellSpelledPart(tail) && |PartValue(head)| + |PartValue(tail)| <= 16
  }

  ghost function Text(s: Spelling): string {
    match s
    case Full(groups) => PartText(groups)
    case Compressed(head, tail) => PartText(head) + GAP + PartText(tail)
  }

  ghost function Address(s: Spelling): (bytes: seq<nat>)
    requires Spells(s)
    ensures |bytes| == 16
  {
    match s
    case Full(groups) => PartValue(groups)
    case Compressed(head, tail) =>
      PartValue(head) + Zeros(16 - |PartValue(head)| - |PartValue(tail)|) + PartValue(tail)
  }

  // ---------------------------------------------------------------- one group

  lemma {:induction false} HexReads(digits: string)
    ensures ReadHex(digits).Some? <==> forall i :: 0 <= i < |digits| ==> HexDigit(digits[i]).Some?
    ensures ReadHex(digits).Some? ==> ReadHex(digits).value == HexValue(digits)
  {
    if digits != [] { HexReads(digits[..|digits| - 1]); }
  }

  lemma {:induction false} DigitsOnly(s: string, c: char)
    requires ReadDigits(s).Some? && !('0' <= c <= '9')
    ensures c !in s
  {
    if s != [] {
      DigitsOnly(s[..|s| - 1], c);
      assert s == s[..|s| - 1] + [s[|s| - 1]];
    }
  }

  lemma QuadSplits(a: string, b: string, c: string, d: string)
    requires '.' !in a && '.' !in b && '.' !in c && '.' !in d
    ensures Split(a + "." + (b + "." + (c + "." + d)), '.') == [a, b, c, d]
  {
    hide Split;
    SplitJoins(d, "", '.');
    SplitJoins(c, d, '.');
    SplitJoins(b, c + "." + d, '.');
    SplitJoins(a, b + "." + (c + "." + d), '.');
  }

  /** A group reads back as its own bytes. */
  lemma GroupReads(g: Group, last: bool)
    requires WellSpelled(g) && (g.Quad? ==> last)
    ensures GroupBytes(GroupText(g), last) == Some(GroupValue(g))
    ensures ':' !in GroupText(g) && GroupText(g) != ""
  {
    match g
    case Hex(digits) =>
      HexReads(digits);
    case Quad(a, b, c, d) =>
      OctetText(a);
      OctetText(b);
      OctetText(c);
      OctetText(d);
      hide Octet, Split;
      QuadSplits(a, b, c, d);
  }

  lemma OctetText(part: string)
    requires Octet(part).Some?
    ensures '.' !in part && ':' !in part && part != ""
  {
    DigitsOnly(part, '.');
    DigitsOnly(part, ':');
  }

  // ---------------------------------------------------------------- what digits mean

  const LOWER_DIGITS := "0123456789abcdef"
  const UPPER_DIGITS := "0123456789ABCDEF"

  /** A hexadecimal digit means its place among the sixteen, in either case; nothing else is one. */
  lemma HexDigitMeans(c: char, n: nat)
    ensures HexDigit(c) == Some(n) <==> n < 16 && (c == LOWER_DIGITS[n] || c == UPPER_DIGITS[n])
  {
  }

  /** One character, or one digit in either case. */
  ghost predicate OneDigit(x: char, y: char) {
    x == y || exists n :: 0 <= n < 16 && (x == LOWER_DIGITS[n] || x == UPPER_DIGITS[n])
                          && (y == LOWER_DIGITS[n] || y == UPPER_DIGITS[n])
  }

  lemma OneDigitReads(x: char, y: char)
    requires OneDigit(x, y)
    ensures HexDigit(x) == HexDigit(y)
  {
    hide HexDigit;
    if x != y {
      var n :| 0 <= n < 16 && (x == LOWER_DIGITS[n] || x == UPPER_DIGITS[n])
               && (y == LOWER_DIGITS[n] || y == UPPER_DIGITS[n]);
      HexDigitMeans(x, n);
      HexDigitMeans(y, n);
    }
  }

  /** The value of a group does not depend on the case of its letters. */
  lemma {:induction false} GroupIgnoresCase(a: string, b: string)
    requires |a| == |b| && forall i :: 0 <= i < |a| ==> OneDigit(a[i], b[i])
    ensures ReadHex(a) == ReadHex(b)
  {
    hide OneDigit, HexDigit;
    if a != [] {
      GroupIgnoresCase(a[..|a| - 1], b[..|b| - 1]);
      OneDigitReads(a[|a| - 1], b[|b| - 1]);
    }
  }

  /** A dotted part is one to three decimal digits of a byte. */
  lemma OctetMeans(part: string, n: nat)
    ensures Octet(part) == Some(n) <==> 1 <= |part| <= 3 && ReadDigits(part) == Some(n) && n <= 255
    ensures n <= 255 ==> Octet(Decimal(n)) == Some(n)
  {
    DecimalReads(n);
    if n <= 255 { ShortDecimal(n); }
    hide ReadDigits;
  }

  lemma ShortDecimal(n: nat)
    requires n <= 255
    ensures 1 <= |Decimal(n)| <= 3
  {
    if n >= 10 { assert |Decimal(n)| == |Decimal(n / 10)| + 1; }
    if n >= 100 { assert |Decimal(n / 10)| == |Decimal(n / 10 / 10)| + 1; }
  }

  ghost function Dotted(a: string, b: string, c: string, d: string): string {
    a + "." + (b + "." + (c + "." + d))
  }

  /** A text reads as four bytes exactly when it is four such parts of them. */
  lemma QuadsAre(host: string, o: seq<nat>)
    requires |o| == 4
    ensures ParseIPv4(host) == Some(o) <==>
              exists a, b, c, d :: host == Dotted(a, b, c, d) && Octet(a) == Some(o[0]) && Octet(b) == Some(o[1])
                                   && Octet(c) == Some(o[2]) && Octet(d) == Some(o[3])
  {
    if ParseIPv4(host) == Some(o) {
      QuadOf(host);
      var g := GroupOf(host);
      assert host == Dotted(g.a, g.b, g.c, g.d);
    }
    hide Octet, Split, ParseIPv4;
    forall a, b, c, d | host == Dotted(a, b, c, d) && Octet(a) == Some(o[0]) && Octet(b) == Some(o[1])
                        && Octet(c) == Some(o[2]) && Octet(d) == Some(o[3])
      ensures ParseIPv4(host) == Some(o)
    {
      QuadReads(a, b, c, d, o);
    }
  }

  lemma QuadReads(a: string, b: string, c: string, d: string, o: seq<nat>)
    requires |o| == 4 && Octet(a) == Some(o[0]) && Octet(b) == Some(o[1])
    requires Octet(c) == Some(o[2]) && Octet(d) == Some(o[3])
    ensures ParseIPv4(Dotted(a, b, c, d)) == Some(o)
  {
    OctetText(a);
    OctetText(b);
    OctetText(c);
    OctetText(d);
    hide Octet, Split;
    QuadSplits(a, b, c, d);
    assert o == [o[0], o[1], o[2], o[3]];
  }

  // ---------------------------------------------------------------- one part

  ghost function GroupTexts(groups: seq<Group>): (texts: seq<string>)
    ensures |texts| == |groups| && forall i :: 0 <= i < |groups| ==> texts[i] == GroupText(groups[i])
  {
    seq(|groups|, i requires 0 <= i < |groups| => GroupText(groups[i]))
  }

  lemma {:induction false} PartSplits(groups: seq<Group>)
    requires WellSpelledPart(groups) && groups != []
    ensures Split(PartText(groups), ':') == GroupTexts(groups)
  {
    hide Split, GroupText;
    GroupReads(groups[0], |groups| == 1);
    if |groups| == 1 {
      SplitJoins(GroupText(groups[0]), "", ':');
    } else {
      PartSplits(groups[1..]);
      SplitJoins(GroupText(groups[0]), PartText(groups[1..]), ':');
      assert GroupTexts(groups) == [GroupText(groups[0])] + GroupTexts(groups[1..]);
    }
  }

  lemma {:induction false} GroupsRead(groups: seq<Group>)
    requires WellSpelledPart(groups)
    ensures GroupsBytes(GroupTexts(groups)) == Some(PartValue(groups))
  {
    if groups != [] {
      GroupReads(groups[0], |groups| == 1);
      hide GroupText, GroupBytes, GroupValue;
      GroupsRead(groups[1..]);
      assert GroupTexts(groups)[1..] == GroupTexts(groups[1..]);
    }
  }

  lemma {:induction false} PartTextEdges(groups: seq<Group>)
    requires WellSpelledPart(groups) && groups != []
    ensures PartText(groups) != "" && PartText(groups)[0] != ':' && PartText(groups)[|PartText(groups)| - 1] != ':'
    ensures NoGap(PartText(groups))
  {
    GroupReads(groups[0], |groups| == 1);
    hide GroupText, WellSpelled, NoGap;
    NoGapInGroup(GroupText(groups[0]));
    if |groups| > 1 {
      PartTextEdges(groups[1..]);
      NoGapJoined(GroupText(groups[0]), PartText(groups[1..]));
    }
  }

  lemma NoGapInGroup(text: string)
    requires ':' !in text && text != ""
    ensures NoGap(text) && text[0] != ':' && text[|text| - 1] != ':'
  {
  }

  lemma NoGapJoined(a: string, b: string)
    requires NoGap(a) && NoGap(b) && a != "" && b != "" && a[|a| - 1] != ':' && b[0] != ':'
    ensures NoGap(a + ":" + b)
  {
    var whole := a + ":" + b;
    forall i | 0 <= i < |whole| - 1 ensures !(whole[i] == ':' && whole[i + 1] == ':') {
      if i > |a| { assert whole[i] == b[i - |a| - 1] && whole[i + 1] == b[i - |a|]; }
    }
  }

  /** A part reads back as its own bytes. */
  lemma PartReads(groups: seq<Group>)
    requires WellSpelledPart(groups)
    ensures PartBytes(PartText(groups)) == Some(PartValue(groups))
  {
    if groups != [] {
      PartTextEdges(groups);
      hide PartText, GroupsBytes, Split;
      PartSplits(groups);
      GroupsRead(groups);
    }
  }

  // ---------------------------------------------------------------- the gap

  ghost predicate NoGap(s: string) { forall i :: 0 <= i < |s| - 1 ==> !(s[i] == ':' && s[i + 1] == ':') }

  lemma {:induction false} HalvesWithoutGap(s: string)
    requires NoGap(s)
    ensures Halves(s) == [s]
  {
    if |s| >= 2 {
      HalvesWithoutGap(s[1..]);
      assert s == [s[0]] + s[1..];
    }
  }

  lemma {:induction false} HalvesAtGap(a: string, b: string)
    requires NoGap(a) && (a != "" ==> a[|a| - 1] != ':')
    ensures Halves(a + GAP + b) == [a] + Halves(b)
  {
    if a == "" {
      assert a + GAP + b == [':', ':'] + b;
      assert ([':', ':'] + b)[2..] == b;
    } else {
      assert (a + GAP + b)[1..] == a[1..] + GAP + b;
      HalvesAtGap(a[1..], b);
      assert a == [a[0]] + a[1..];
      assert |a| > 1 ==> (a + GAP + b)[1] == a[1];
      assert ([a[1..]] + Halves(b))[1..] == Halves(b);
    }
  }

  lemma {:induction false} HalvesJoin(host: string)
    ensures |Halves(host)| == 1 ==> Halves(host)[0] == host
    ensures |Halves(host)| == 2 ==> host == Halves(host)[0] + GAP + Halves(host)[1]
  {
    if |host| >= 2 {
      var halves, gap := Halves(host), host[0] == ':' && host[1] == ':';
      var rest := if gap then Halves(host[2..]) else Halves(host[1..]);
      assert halves == if gap then [""] + rest else [[host[0]] + rest[0]] + rest[1..];
      hide Halves;
      if gap {
        HalvesJoin(host[2..]);
        assert host == GAP + host[2..];
      } else {
        HalvesJoin(host[1..]);
        assert host == [host[0]] + host[1..];
      }
    }
  }

  /** Every spelling of an address is read as exactly that address. */
  lemma ParseInvertsPrint(s: Spelling)
    requires Spells(s)
    ensures ParseIPv6(Text(s)) == Some(Address(s))
  {
    hide PartBytes, Halves, PartText, PartValue, WellSpelledPart, NoGap;
    match s {
      case Full(groups) =>
        assert groups != [] by { NothingSpelled(groups); }
        PartReads(groups);
        PartTextEdges(groups);
        HalvesWithoutGap(PartText(groups));
        assert PartValue(groups) + Zeros(0) + [] == PartValue(groups);
      case Compressed(head, tail) =>
        PartReads(head);
        PartReads(tail);
        PartTextEnds(head);
        PartTextEnds(tail);
        HalvesAtGap(PartText(head), PartText(tail));
        HalvesWithoutGap(PartText(tail));
    }
  }

  lemma NothingSpelled(groups: seq<Group>)
    requires WellSpelledPart(groups)
    ensures groups == [] ==> PartValue(groups) == []
  {
  }

  lemma PartTextEnds(groups: seq<Group>)
    requires WellSpelledPart(groups)
    ensures NoGap(PartText(groups)) && (PartText(groups) != "" ==> PartText(groups)[|PartText(groups)| - 1] != ':')
  {
    if groups != [] { PartTextEdges(groups); }
  }

  // ---------------------------------------------------------------- nothing else is accepted

  ghost function GroupOf(text: string): Group {
    if '.' in text && |Split(text, '.')| == 4
    then Quad(Split(text, '.')[0], Split(text, '.')[1], Split(text, '.')[2], Split(text, '.')[3])
    else Hex(text)
  }

  lemma QuadOf(text: string)
    requires ParseIPv4(text).Some?
    ensures '.' in text && GroupOf(text).Quad? && WellSpelled(GroupOf(text)) && GroupText(GroupOf(text)) == text
    ensures GroupValue(GroupOf(text)) == ParseIPv4(text).value
  {
    var p := Split(text, '.');
    JoinSplit(text, '.');
    hide Octet, Split;
    assert p[1..][1..] == [p[2], p[3]] && p[1..] == [p[1], p[2], p[3]] && p[2..] == [p[2], p[3]]
        && p[2..][1..] == [p[3]];
    assert Join([p[3]], '.') == p[3];
    assert Join([p[2], p[3]], '.') == p[2] + "." + p[3] by { assert [p[2], p[3]][1..] == [p[3]]; }
    assert Join([p[1], p[2], p[3]], '.') == p[1] + "." + Join([p[2], p[3]], '.') by {
      assert [p[1], p[2], p[3]][1..] == [p[2], p[3]];
    }
    assert text == p[0] + "." + Join(p[1..], '.');
    assert text[|p[0]|] == '.';
  }

  /** An accepted group is the text of a group of the same bytes. */
  lemma GroupIsSpelled(text: string, last: bool)
    requires GroupBytes(text, last).Some?
    ensures WellSpelled(GroupOf(text)) && GroupText(GroupOf(text)) == text
            && GroupValue(GroupOf(text)) == GroupBytes(text, last).value
    ensures GroupOf(text).Quad? ==> last
  {
    if '.' in text {
      QuadOf(text);
    } else {
      HexReads(text);
    }
  }

  ghost function GroupsOf(texts: seq<string>): (groups: seq<Group>)
    ensures |groups| == |texts| && forall i :: 0 <= i < |texts| ==> groups[i] == GroupOf(texts[i])
  {
    seq(|texts|, i requires 0 <= i < |texts| => GroupOf(texts[i]))
  }

  lemma {:induction false} GroupsAreSpelled(texts: seq<string>)
    requires texts != [] && GroupsBytes(texts).Some?
    ensures WellSpelledPart(GroupsOf(texts)) && PartText(GroupsOf(texts)) == Join(texts, ':')
    ensures PartValue(GroupsOf(texts)) == GroupsBytes(texts).value
  {
    var groups := GroupsOf(texts);
    GroupIsSpelled(texts[0], |texts| == 1);
    hide GroupBytes, GroupOf, GroupText, GroupValue, WellSpelled;
    if |texts| > 1 {
      GroupsAreSpelled(texts[1..]);
      assert groups[1..] == GroupsOf(texts[1..]);
    } else {
      assert texts[1..] == [] && groups[1..] == [];
    }
  }

  lemma PartIsSpelled(part: string) returns (groups: seq<Group>)
    requires PartBytes(part).Some?
    ensures WellSpelledPart(groups) && PartText(groups) == part && PartValue(groups) == PartBytes(part).value
  {
    if part == "" {
      groups := [];
    } else {
      groups := GroupsOf(Split(part, ':'));
      JoinSplit(part, ':');
      hide GroupsBytes, Split, Join;
      GroupsAreSpelled(Split(part, ':'));
    }
  }

  /** Whatever is accepted is a spelling of the sixteen bytes it is read as. */
  lemma OnlySpellingsParse(host: string) returns (s: Spelling)
    requires ParseIPv6(host).Some?
    ensures Spells(s) && Text(s) == host && Address(s) == ParseIPv6(host).value
  {
    var halves := Halves(host);
    HalvesJoin(host);
    hide Halves, PartBytes, PartText, PartValue, WellSpelledPart;
    var head := PartIsSpelled(halves[0]);
    if |halves| == 2 {
      var tail := PartIsSpelled(halves[1]);
      s := Compressed(head, tail);
    } else {
      s := Full(head);
      assert PartValue(head) + Zeros(0) + [] == PartValue(head);
    }
  }

  // ---------------------------------------------------------------- the spellings of the standard

  /** What section 2.2 of RFC 4291 allows of these: a dotted quad only at the very end, and a `::` that stands
      for at least one group of zeros. */
  ghost predicate Conforming(s: Spelling)
    requires Spells(s)
  {
    s.Compressed? ==>
      && (forall g <- s.head :: g.Hex?)
      && |PartValue(s.head)| + |PartValue(s.tail)| <= 14
  }

  ghost predicate Conforms(host: string) { exists s :: Spells(s) && Conforming(s) && Text(s) == host }

  lemma {:induction false} DotsAreQuads(groups: seq<Group>)
    requires WellSpelledPart(groups)
    ensures '.' in PartText(groups) <==> exists g <- groups :: g.Quad?
  {
    if groups != [] {
      DotIsQuad(groups[0]);
      hide GroupText, WellSpelled;
      assert groups == [groups[0]] + groups[1..];
      DotsAreQuads(groups[1..]);
      if |groups| == 1 { assert groups[1..] == []; }
    }
  }

  lemma DotIsQuad(g: Group)
    requires WellSpelled(g)
    ensures '.' in GroupText(g) <==> g.Quad?
  {
    if g.Quad? { assert GroupText(g)[|g.a|] == '.'; }
  }

  /** What a compressed spelling is taken apart into. */
  lemma CompressedReads(head: seq<Group>, tail: seq<Group>)
    requires WellSpelledPart(head) && WellSpelledPart(tail)
    ensures Halves(PartText(head) + GAP + PartText(tail)) == [PartText(head), PartText(tail)]
    ensures PartBytes(PartText(head)) == Some(PartValue(head)) && PartBytes(PartText(tail)) == Some(PartValue(tail))
  {
    hide PartBytes, Halves, PartText, PartValue, WellSpelledPart, NoGap;
    PartReads(head);
    PartReads(tail);
    PartTextEnds(head);
    PartTextEnds(tail);
    HalvesAtGap(PartText(head), PartText(tail));
    HalvesWithoutGap(PartText(tail));
  }

  lemma FullReads(groups: seq<Group>)
    requires Spells(Full(groups))
    ensures Halves(PartText(groups)) == [PartText(groups)]
  {
    PartTextEnds(groups);
    HalvesWithoutGap(PartText(groups));
  }

  /** An accepted text is one the standard allows exactly when it has no `::`, or has no dot before it and at
      most fourteen bytes around it. */
  lemma ConformsIff(host: string)
    requires ParseIPv6(host).Some?
    ensures var halves := Halves(host);
            Conforms(host) <==>
              |halves| == 1
              || ('.' !in halves[0] && |PartBytes(halves[0]).value| + |PartBytes(halves[1]).value| <= 14)
  {
    var spelled := OnlySpellingsParse(host);
    hide Halves, PartBytes, PartText, PartValue, WellSpelledPart, ParseIPv6;
    forall s | Spells(s) && Text(s) == host
      ensures s.Full? ==> |Halves(host)| == 1
      ensures s.Compressed? ==> Halves(host) == [PartText(s.head), PartText(s.tail)]
      ensures s.Compressed? ==>
                PartBytes(PartText(s.head)) == Some(PartValue(s.head))
                && PartBytes(PartText(s.tail)) == Some(PartValue(s.tail))
      ensures s.Compressed? ==> ('.' !in PartText(s.head) <==> forall g <- s.head :: g.Hex?)
    {
      match s
      case Full(groups) => FullReads(groups);
      case Compressed(head, tail) =>
        CompressedReads(head, tail);
        DotsAreQuads(head);
    }
  }

  /** Whether a text conforms does not depend on how it is taken apart. */
  lemma ConformsAsSpelled(s: Spelling)
    requires Spells(s)
    ensures Conforms(Text(s)) <==> Conforming(s)
  {
    ParseInvertsPrint(s);
    hide Halves, PartBytes, PartText, PartValue, WellSpelledPart, ParseIPv6, Conforms;
    ConformsIff(Text(s));
    match s
    case Full(groups) => FullReads(groups);
    case Compressed(head, tail) =>
      CompressedReads(head, tail);
      DotsAreQuads(head);
  }

  lemma DigitsAreSpelled(c: char)
    requires '0' <= c <= '9'
    ensures Octet([c]).Some? && WellSpelled(Hex([c])) && |GroupValue(Hex([c]))| == 2
  {
    assert [c][..0] == [] && ReadDigits([]) == Some(0);
    assert ReadDigits([c]) == Some(c as int - '0' as int);
  }

  /** An accepted text the standard does not allow: a quad before the `::`. */
  lemma QuadBeforeTheGap()
    ensures ParseIPv6("1.2.3.4::").Some? && !Conforms("1.2.3.4::")
  {
    hide Conforms, ParseIPv6, Octet;
    DigitsAreSpelled('1');
    DigitsAreSpelled('2');
    DigitsAreSpelled('3');
    DigitsAreSpelled('4');
    var quad := Quad("1", "2", "3", "4");
    assert [quad][1..] == [];
    var s := Compressed([quad], []);
    assert quad in s.head;
    assert Text(s) == "1.2.3.4::";
    ParseInvertsPrint(s);
    ConformsAsSpelled(s);
  }

  /** And another: a `::` for no zeros at all. */
  lemma GapForNothing()
    ensures ParseIPv6("1:2:3:4::5:6:7:8").Some? && !Conforms("1:2:3:4::5:6:7:8")
  {
    hide Conforms, ParseIPv6, Octet, PartText, PartValue, WellSpelledPart;
    FourGroups('1', '2', '3', '4');
    FourGroups('5', '6', '7', '8');
    var s := Compressed([Hex("1"), Hex("2"), Hex("3"), Hex("4")], [Hex("5"), Hex("6"), Hex("7"), Hex("8")]);
    assert Text(s) == "1:2:3:4::5:6:7:8";
    ParseInvertsPrint(s);
    ConformsAsSpelled(s);
  }

  lemma FourGroups(a: char, b: char, c: char, d: char)
    requires '0' <= a <= '9' && '0' <= b <= '9' && '0' <= c <= '9' && '0' <= d <= '9'
    ensures var groups := [Hex([a]), Hex([b]), Hex([c]), Hex([d])];
            && WellSpelledPart(groups) && |PartValue(groups)| == 8
            && PartText(groups) == [a, ':', b, ':', c, ':', d]
  {
    DigitsAreSpelled(a);
    DigitsAreSpelled(b);
    DigitsAreSpelled(c);
    DigitsAreSpelled(d);
    var groups := [Hex([a]), Hex([b]), Hex([c]), Hex([d])];
    hide GroupValue, WellSpelled;
    assert groups[1..] == [Hex([b]), Hex([c]), Hex([d])] && groups[1..][1..] == [Hex([c]), Hex([d])];
    assert groups[1..][1..][1..] == [Hex([d])] && groups[1..][1..][1..][1..] == [];
    assert PartText(groups[1..][1..]) == [c, ':', d];
    assert PartText(groups[1..]) == [b, ':', c, ':', d];
    assert |PartValue(groups[1..][1..][1..])| == 2;
    assert |PartValue(groups[1..][1..])| == 4;
    assert |PartValue(groups[1..])| == 6;
  }

  lemma AcceptedIsBytes(host: string)
    requires ParseIPv6(host).Some?
    ensures |ParseIPv6(host).value| == 16 && forall i :: 0 <= i < 16 ==> 0 <= ParseIPv6(host).value[i] <= 255
  {
    var s := OnlySpellingsParse(host);
    match s
    case Full(groups) => PartIsBytes(groups);
    case Compressed(head, tail) =>
      PartIsBytes(head);
      PartIsBytes(tail);
  }

  lemma {:induction false} PartIsBytes(groups: seq<Group>)
    requires WellSpelledPart(groups)
    ensures forall i :: 0 <= i < |PartValue(groups)| ==> PartValue(groups)[i] <= 255
  {
    if groups != [] {
      GroupIsBytes(groups[0]);
      hide GroupValue, WellSpelled;
      PartIsBytes(groups[1..]);
    }
  }

  lemma GroupIsBytes(g: Group)
    requires WellSpelled(g)
    ensures forall i :: 0 <= i < |GroupValue(g)| ==> GroupValue(g)[i] <= 255
  {
    if g.Hex? { ShortHex(g.digits); }
  }

  lemma ShortHex(digits: string)
    requires |digits| <= 4 && forall i :: 0 <= i < |digits| ==> HexDigit(digits[i]).Some?
    ensures HexValue(digits) < 0x1_0000
  {
    HexBelow(digits);
  }

  lemma {:induction false} HexBelow(digits: string)
    requires |digits| <= 4 && forall i :: 0 <= i < |digits| ==> HexDigit(digits[i]).Some?
    ensures |digits| == 0 ==> HexValue(digits) < 1
    ensures |digits| == 1 ==> HexValue(digits) < 0x10
    ensures |digits| == 2 ==> HexValue(digits) < 0x100
    ensures |digits| == 3 ==> HexValue(digits) < 0x1000
    ensures HexValue(digits) < 0x1_0000
  {
    if digits != [] { HexBelow(digits[..|digits| - 1]); }
  }

  // ---------------------------------------------------------------- every address can be written

  ghost function HexChar(d: nat): char
    requires d < 16
  {
    ['0', '1', '2', '3', '4', '5', '6', '7', '8', '9', 'a', 'b', 'c', 'd', 'e', 'f'][d]
  }

  lemma HexCharReads(d: nat)
    requires d < 16
    ensures HexDigit(HexChar(d)) == Some(d)
  {
  }

  /** Two bytes in four digits. */
  ghost function HexPair(high: nat, low: nat): Group
    requires high <= 255 && low <= 255
  {
    Hex([HexChar(high / 16), HexChar(high % 16), HexChar(low / 16), HexChar(low % 16)])
  }

  lemma HexPairReads(high: nat, low: nat)
    requires high <= 255 && low <= 255
    ensures WellSpelled(HexPair(high, low)) && GroupValue(HexPair(high, low)) == [high, low]
  {
    HexCharReads(high / 16);
    HexCharReads(high % 16);
    HexCharReads(low / 16);
    HexCharReads(low % 16);
    hide HexChar, HexDigit, HexValue;
    FourDigits(HexChar(high / 16), HexChar(high % 16), HexChar(low / 16), HexChar(low % 16));
  }

  lemma FourDigits(a: char, b: char, c: char, d: char)
    requires HexDigit(a).Some? && HexDigit(b).Some? && HexDigit(c).Some? && HexDigit(d).Some?
    ensures forall i :: 0 <= i < 4 ==> HexDigit([a, b, c, d][i]).Some?
    ensures HexValue([a, b, c, d])
            == 4096 * HexDigit(a).value + 256 * HexDigit(b).value + 16 * HexDigit(c).value + HexDigit(d).value
  {
    hide HexDigit, HexValue;
    HexNothing();
    HexAppend([], a);
    HexAppend([] + [a], b);
    HexAppend([] + [a] + [b], c);
    HexAppend([] + [a] + [b] + [c], d);
    assert [] + [a] + [b] + [c] + [d] == [a, b, c, d];
  }

  lemma HexNothing()
    ensures HexValue([]) == 0
  {
  }

  lemma HexAppend(digits: string, c: char)
    requires (forall i :: 0 <= i < |digits| ==> HexDigit(digits[i]).Some?) && HexDigit(c).Some?
    ensures forall i :: 0 <= i < |digits + [c]| ==> HexDigit((digits + [c])[i]).Some?
    ensures HexValue(digits + [c]) == 16 * HexValue(digits) + HexDigit(c).value
  {
    assert (digits + [c])[..|digits|] == digits;
  }

  ghost predicate Bytes(b: seq<nat>) { forall i :: 0 <= i < |b| ==> b[i] <= 255 }

  ghost function Written(b: seq<nat>): seq<Group>
    requires Bytes(b) && |b| % 2 == 0
  {
    if b == [] then [] else [HexPair(b[0], b[1])] + Written(b[2..])
  }

  lemma WrittenStep(b: seq<nat>)
    requires Bytes(b) && |b| % 2 == 0 && b != []
    ensures Bytes(b[2..]) && |b[2..]| % 2 == 0
    ensures Written(b) == [HexPair(b[0], b[1])] + Written(b[2..])
  {
    hide HexPair;
  }

  lemma {:induction false} WrittenSpells(b: seq<nat>)
    requires Bytes(b) && |b| % 2 == 0
    ensures WellSpelledPart(Written(b)) && PartValue(Written(b)) == b
  {
    if b != [] {
      WrittenStep(b);
      hide HexPair, GroupValue, WellSpelledPart, WellSpelled, PartValue, Written;
      HexPairReads(b[0], b[1]);
      PairIsHex(b[0], b[1]);
      WrittenSpells(b[2..]);
      PartCons(HexPair(b[0], b[1]), Written(b[2..]));
      assert b == [b[0], b[1]] + b[2..];
    }
  }

  lemma PartCons(g: Group, groups: seq<Group>)
    requires WellSpelled(g) && g.Hex? && WellSpelledPart(groups)
    ensures WellSpelledPart([g] + groups) && PartValue([g] + groups) == GroupValue(g) + PartValue(groups)
  {
    hide WellSpelled, GroupValue;
    assert ([g] + groups)[1..] == groups;
  }

  lemma PairIsHex(high: nat, low: nat)
    requires high <= 255 && low <= 255
    ensures HexPair(high, low).Hex?
  {
  }

  /** Any sixteen bytes, written out in full, are read back. */
  lemma EveryAddressParses(b: seq<nat>)
    requires |b| == 16 && Bytes(b)
    ensures ParseIPv6(Text(Full(Written(b)))) == Some(b)
  {
    WrittenSpells(b);
    hide Written, PartValue, WellSpelledPart, ParseIPv6, Text;
    ParseInvertsPrint(Full(Written(b)));
  }

  // ---------------------------------------------------------------- the ranges

  predicate IsPrivateIPv4(o: seq<nat>)
    requires |o| == 4
  {
    || o[0] == 0
    || o[0] == 10
    || o[0] == 127
    || (o[0] == 169 && o[1] == 254)
    || (o[0] == 172 && 16 <= o[1] <= 31)
    || (o[0] == 192 && o[1] == 168)
    || (o[0] == 100 && 64 <= o[1] <= 127)
    || (o[0] == 255 && o[1] == 255 && o[2] == 255 && o[3] == 255)
  }

  predicate ZeroUpTo(b: seq<nat>, n: nat)
    requires n <= |b|
  {
    forall i :: 0 <= i < n ==> b[i] == 0
  }

  /** `x & 0xfe` keeps all but the last bit of a byte, `x & 0xc0` its first two. */
  predicate IsPrivateIPv6(b: seq<nat>)
    requires |b| == 16
  {
    if ZeroUpTo(b, 10) && b[10] == 0xff && b[11] == 0xff then IsPrivateIPv4(b[12..])
    else if ZeroUpTo(b, 12) then IsPrivateIPv4(b[12..])
    else (b[0] / 2) * 2 == 0xfc || (b[0] == 0xfe && (b[1] / 64) * 64 == 0x80)
  }

  const LOCALHOST := "localhost"
  const DOT_LOCALHOST := ".localhost"

  predicate EndsWith(s: string, end: string) { |s| >= |end| && s[|s| - |end|..] == end }

  predicate IsPrivateHost(hostname: string) {
    if hostname != "" && hostname[0] == '[' && hostname[|hostname| - 1] == ']' && |hostname| >= 2 then
      var bytes := ParseIPv6(hostname[1..|hostname| - 1]);
      bytes.None? || IsPrivateIPv6(bytes.value)
    else
      var v4 := ParseIPv4(hostname);
      if v4.Some? then IsPrivateIPv4(v4.value)
      else Lower(hostname) == LOCALHOST || EndsWith(Lower(hostname), DOT_LOCALHOST)
  }

  /** A bracketed text that is no address is refused rather than trusted. */
  lemma UnreadableIsPrivate(text: string)
    requires ParseIPv6(text).None?
    ensures IsPrivateHost("[" + text + "]")
  {
    var host := "[" + text + "]";
    assert host[1..|host| - 1] == text;
    hide ParseIPv6;
  }

  /** Of names only `localhost` and what ends in `.localhost` are private, in any case of letters. */
  lemma PrivateNames(host: string)
    requires ParseIPv4(host).None? && !(host != "" && host[0] == '[' && host[|host| - 1] == ']')
    ensures IsPrivateHost(host) <==>
              Lower(host) == "localhost" || exists name: string :: Lower(host) == name + ".localhost"
  {
    hide ParseIPv4, ParseIPv6, Lower;
    var lower := Lower(host);
    if EndsWith(lower, DOT_LOCALHOST) { assert lower == lower[..|lower| - 10] + ".localhost"; }
    if exists name: string :: lower == name + ".localhost" {
      var name: string :| lower == name + ".localhost";
      assert lower[|lower| - 10..] == ".localhost";
    }
  }

  ghost function Value(o: seq<nat>): nat
    requires |o| == 4
  {
    0x100_0000 * o[0] + 0x1_0000 * o[1] + 0x100 * o[2] + o[3]
  }

  ghost function HostsIn(bits: nat): (n: nat)
    requires bits in {8, 10, 12, 16, 32}
    ensures n > 0
  {
    if bits == 8 then 0x100_0000
    else if bits == 10 then 0x40_0000
    else if bits == 12 then 0x10_0000
    else if bits == 16 then 0x1_0000
    else 1
  }

  /** The network of `base`, an address whose remaining bits are zero: the addresses from `base` on. */
  ghost predicate InNetwork(o: seq<nat>, base: seq<nat>, bits: nat)
    requires |o| == 4 && |base| == 4 && bits in {8, 10, 12, 16, 32}
  {
    Value(base) <= Value(o) < Value(base) + HostsIn(bits)
  }

  /** The byte tests are exactly the reserved networks they stand for. */
  lemma PrivateIPv4Networks(o: seq<nat>)
    requires |o| == 4 && Bytes(o)
    ensures IsPrivateIPv4(o) <==>
      || InNetwork(o, [0, 0, 0, 0], 8) || InNetwork(o, [10, 0, 0, 0], 8) || InNetwork(o, [127, 0, 0, 0], 8)
      || InNetwork(o, [169, 254, 0, 0], 16) || InNetwork(o, [172, 16, 0, 0], 12) || InNetwork(o, [192, 168, 0, 0], 16)
      || InNetwork(o, [100, 64, 0, 0], 10) || InNetwork(o, [255, 255, 255, 255], 32)
  {
    assert o[0] <= 255 && o[1] <= 255 && o[2] <= 255 && o[3] <= 255;
  }

  /** The answer for a bracketed literal depends on the address alone, however it is spelled. */
  lemma ClassificationIgnoresSpelling(s: Spelling)
    requires Spells(s)
    ensures IsPrivateHost("[" + Text(s) + "]") == IsPrivateIPv6(Address(s))
  {
    ParseInvertsPrint(s);
    var host := "[" + Text(s) + "]";
    assert host[1..|host| - 1] == Text(s);
    hide ParseIPv6, Text, Address, IsPrivateIPv6;
  }

  /** An IPv4 address is sorted the same way written plainly, mapped into IPv6, or in any other spelling of the
      mapped address. */
  lemma MappedLikePlain(host: string, s: Spelling)
    requires ParseIPv4(host).Some? && Spells(s)
    requires Address(s) == Zeros(10) + [0xff, 0xff] + ParseIPv4(host).value
             || Address(s) == Zeros(12) + ParseIPv4(host).value
    ensures IsPrivateHost("[" + Text(s) + "]") == IsPrivateHost(host)
  {
    ClassificationIgnoresSpelling(s);
    PlainHost(host);
    hide ParseIPv4, Text, Address, Spells, IsPrivateHost, IsPrivateIPv6, IsPrivateIPv4;
    TranslatedLikePlain(Address(s), ParseIPv4(host).value);
  }

  lemma TranslatedLikePlain(b: seq<nat>, o: seq<nat>)
    requires |o| == 4 && (b == Zeros(10) + [0xff, 0xff] + o || b == Zeros(12) + o)
    ensures |b| == 16 && IsPrivateIPv6(b) == IsPrivateIPv4(o)
  {
    hide IsPrivateIPv4;
    assert b[12..] == o;
  }

  lemma PlainHost(host: string)
    requires ParseIPv4(host).Some?
    ensures IsPrivateHost(host) == IsPrivateIPv4(ParseIPv4(host).value)
  {
    var first := Split(host, '.')[0];
    JoinSplit(host, '.');
    DigitsOnly(first, '[');
    assert host[0] == first[0];
    hide Split, Octet, Lower;
  }

  /** Outside the IPv4 translations, exactly the unique-local and link-local blocks are private. */
  lemma PrivateIPv6Blocks(b: seq<nat>)
    requires |b| == 16 && Bytes(b) && !ZeroUpTo(b, 12) && !(ZeroUpTo(b, 10) && b[10] == 0xff && b[11] == 0xff)
    ensures IsPrivateIPv6(b) <==> (0xfc00 <= 256 * b[0] + b[1] <= 0xfdff) || (0xfe80 <= 256 * b[0] + b[1] <= 0xfebf)
  {
  }
}
