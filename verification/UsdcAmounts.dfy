/** web/src/forms/sla-draft.js: the amounts a provider types in USDC, against the integer minor units the
    record stores. Digit strings of any length; nothing passes through a float. */
module UsdcAmounts {
  import opened Basics
  import opened Texts

  const USDC_DECIMALS := 6
  const UNIT := 1_000_000

  /** What `String.prototype.trim` removes. */
  predicate IsSpace(c: char) {
    || c in {' ', '\t', '\n', '\r', '\U{B}', '\U{C}', '\U{A0}', '\U{1680}', '\U{2028}', '\U{2029}', '\U{202F}',
       '\U{205F}', '\U{3000}', '\U{FEFF}'}
    || '\U{2000}' <= c <= '\U{200A}'
  }

  function TrimStart(s: string): string { if s != [] && IsSpace(s[0]) then TrimStart(s[1..]) else s }

  function TrimEnd(s: string): string { if s != [] && IsSpace(s[|s| - 1]) then TrimEnd(s[..|s| - 1]) else s }

  function Trim(s: string): string { TrimEnd(TrimStart(s)) }

  ghost predicate Blank(s: string) { forall i :: 0 <= i < |s| ==> IsSpace(s[i]) }

  /** Trimming takes off the spaces at both ends, and nothing else. */
  lemma TrimMeans(s: string) returns (before: string, after: string)
    ensures s == before + Trim(s) + after && Blank(before) && Blank(after)
    ensures Trim(s) != [] ==> !IsSpace(Trim(s)[0]) && !IsSpace(Trim(s)[|Trim(s)| - 1])
  {
    hide IsSpace;
    before := StartMeans(s);
    after := EndMeans(TrimStart(s));
    assert s == before + (Trim(s) + after);
  }

  lemma {:induction false} StartMeans(s: string) returns (before: string)
    ensures s == before + TrimStart(s) && Blank(before) && (TrimStart(s) != [] ==> !IsSpace(TrimStart(s)[0]))
  {
    hide IsSpace;
    before := [];
    if s != [] && IsSpace(s[0]) {
      before := StartMeans(s[1..]);
      before := [s[0]] + before;
    }
  }

  lemma {:induction false} EndMeans(s: string) returns (after: string)
    ensures s == TrimEnd(s) + after && Blank(after)
    ensures TrimEnd(s) != [] ==> !IsSpace(TrimEnd(s)[|TrimEnd(s)| - 1]) && TrimEnd(s)[0] == s[0]
  {
    hide IsSpace;
    after := [];
    if s != [] && IsSpace(s[|s| - 1]) {
      after := EndMeans(s[..|s| - 1]);
      after := after + [s[|s| - 1]];
    }
  }

  function Zeros(n: nat): (z: string)
    ensures |z| == n && forall i :: 0 <= i < n ==> z[i] == '0'
  {
    seq(n, _ => '0')
  }

  function PadStart(s: string, width: nat): string { if |s| < width then Zeros(width - |s|) + s else s }

  function PadEnd(s: string, width: nat): string { if |s| < width then s + Zeros(width - |s|) else s }

  function StripZeros(s: string): (r: string)
    ensures r <= s && (r != [] ==> r[|r| - 1] != '0')
  {
    if s != [] && s[|s| - 1] == '0' then StripZeros(s[..|s| - 1]) else s
  }

  function DotAt(s: string): (i: nat)
    ensures i <= |s| && (forall k :: 0 <= k < i ==> s[k] != '.') && (i < |s| ==> s[i] == '.')
  {
    if s == [] || s[0] == '.' then 0 else 1 + DotAt(s[1..])
  }

  /** Digits, optionally a point and one to six more digits: the two groups, or none. */
  function Amount(t: string): Option<(string, string)> {
    var i := DotAt(t);
    var fraction := if i < |t| then t[i + 1..] else "";
    if t[..i] != [] && ReadDigits(t[..i]).Some? && ReadDigits(fraction).Some?
        && (i < |t| ==> 1 <= |fraction| <= USDC_DECIMALS)
    then Some((t[..i], fraction)) else None
  }

  /** `usdcToMinorUnits` */
  function ToMinorUnits(text: string): Option<string> {
    var amount := Amount(Trim(text));
    if amount.None? then None
    else
      match (ReadDigits(amount.value.0), ReadDigits(PadEnd(amount.value.1, USDC_DECIMALS)))
      case (Some(whole), Some(fraction)) => Some(Decimal(whole * UNIT + fraction))
      case _ => None
  }

  /** `minorUnitsToUsdc` */
  function ToUsdc(minorUnits: string): string {
    if ReadIndex(minorUnits).None? then minorUnits
    else
      var padded := PadStart(minorUnits, USDC_DECIMALS + 1);
      var whole := padded[..|padded| - USDC_DECIMALS];
      var fraction := StripZeros(padded[|padded| - USDC_DECIMALS..]);
      if fraction != [] then whole + "." + fraction else whole
  }

  // ---------------------------------------------------------------- digits

  /** `a` with `n` zeros written after it. */
  ghost function Shifted(a: nat, n: nat): nat { if n == 0 then a else 10 * Shifted(a, n - 1) }

  lemma ReadStep(s: string, c: char)
    ensures ReadDigits(s + [c]) == match (ReadDigits(s), DigitValue(c))
                                   case (Some(high), Some(low)) => Some(high * 10 + low)
                                   case _ => None
  {
    assert (s + [c])[..|s|] == s;
  }

  lemma {:induction false} ReadConcat(a: string, b: string)
    requires ReadDigits(a).Some? && ReadDigits(b).Some?
    ensures ReadDigits(a + b) == Some(Shifted(ReadDigits(a).value, |b|) + ReadDigits(b).value)
  {
    if b == [] {
      assert a + b == a;
    } else {
      var init, c := b[..|b| - 1], b[|b| - 1];
      ReadConcat(a, init);
      ReadStep(a + init, c);
      assert a + b == (a + init) + [c];
    }
  }

  lemma {:induction false} ReadPrefix(s: string, n: nat)
    requires ReadDigits(s).Some? && n <= |s|
    ensures ReadDigits(s[..n]).Some? && ReadDigits(s[n..]).Some?
  {
    if n < |s| {
      ReadPrefix(s[..|s| - 1], n);
      assert s[..|s| - 1][..n] == s[..n];
      assert s[n..][..|s[n..]| - 1] == s[..|s| - 1][n..];
    } else {
      assert s[..n] == s && s[n..] == [];
    }
  }

  lemma {:induction false} DigitsEverywhere(s: string, i: nat)
    requires ReadDigits(s).Some? && i < |s|
    ensures '0' <= s[i] <= '9'
  {
    if i < |s| - 1 { DigitsEverywhere(s[..|s| - 1], i); }
  }

  lemma {:induction false} ReadZeros(n: nat)
    ensures ReadDigits(Zeros(n)) == Some(0)
  {
    if n > 0 {
      ReadZeros(n - 1);
      assert Zeros(n)[..n - 1] == Zeros(n - 1);
    }
  }

  lemma {:induction false} BelowWidth(s: string)
    requires ReadDigits(s).Some?
    ensures ReadDigits(s).value < Shifted(1, |s|)
  {
    if s != [] { BelowWidth(s[..|s| - 1]); }
  }

  /** Digits of one width are the number they read as. */
  lemma {:induction false} FixedWidthUnique(a: string, b: string)
    requires |a| == |b| && ReadDigits(a).Some? && ReadDigits(a) == ReadDigits(b)
    ensures a == b
  {
    if a != [] {
      var x, y := a[..|a| - 1], b[..|b| - 1];
      FixedWidthUnique(x, y);
      assert a == x + [a[|a| - 1]] && b == y + [b[|b| - 1]];
    }
  }

  lemma DecimalStep(high: nat, low: nat)
    requires high > 0 && low < 10
    ensures Decimal(high * 10 + low) == Decimal(high) + [Digit(low)]
  {
    assert (high * 10 + low) / 10 == high && (high * 10 + low) % 10 == low;
    hide Digit;
  }

  lemma IndexIsDigits(s: string)
    requires ReadIndex(s).Some?
    ensures ReadDigits(s) == ReadIndex(s) && s != [] && (|s| > 1 ==> s[0] != '0')
  {
    hide ReadDigits;
  }

  lemma DigitsAreIndex(s: string)
    requires ReadDigits(s).Some? && s != [] && (|s| > 1 ==> s[0] != '0')
    ensures ReadIndex(s) == ReadDigits(s)
  {
    hide ReadDigits;
  }

  lemma LastDigit(s: string)
    requires ReadDigits(s).Some? && s != []
    ensures var (init, c) := (s[..|s| - 1], s[|s| - 1]);
            ReadDigits(init).Some? && '0' <= c <= '9'
                && ReadDigits(s).value == ReadDigits(init).value * 10 + (c as int - '0' as int)
  {
  }

  lemma OneDigit(c: char)
    requires '0' <= c <= '9'
    ensures ReadDigits([]) == Some(0) && Decimal(c as int - '0' as int) == [c]
  {
    DigitOf(c);
  }

  /** Without leading zeros there is only one way to write a number. */
  lemma {:induction false} CanonicalUnique(s: string)
    requires ReadIndex(s).Some?
    ensures s == Decimal(ReadIndex(s).value)
  {
    hide Decimal, ReadDigits, ReadIndex, Digit, DigitValue;
    IndexIsDigits(s);
    var init, c := s[..|s| - 1], s[|s| - 1];
    LastDigit(s);
    assert s == init + [c];
    if |s| > 1 {
      DigitsAreIndex(init);
      CanonicalUnique(init);
      LeadingDigit(init);
      DigitOf(c);
      DecimalStep(ReadDigits(init).value, c as int - '0' as int);
    } else {
      assert init == [];
      OneDigit(c);
    }
  }

  lemma DigitOf(c: char)
    requires '0' <= c <= '9'
    ensures Digit(c as int - '0' as int) == c
  {
  }

  lemma {:induction false} LeadingDigit(s: string)
    requires ReadDigits(s).Some? && s != [] && s[0] != '0'
    ensures ReadDigits(s).value > 0
  {
    if |s| > 1 {
      LeadingDigit(s[..|s| - 1]);
    } else {
      assert s[..0] == [];
    }
  }

  // ---------------------------------------------------------------- the display of a canonical integer

  lemma {:induction false} StripPads(s: string, width: nat)
    requires |s| <= width
    ensures PadEnd(StripZeros(s), width) == PadEnd(s, width)
  {
    if s != [] && s[|s| - 1] == '0' {
      var init := s[..|s| - 1];
      StripPads(init, width);
      assert s == init + ['0'];
    }
  }

  lemma NoSpaceAtEnds(s: string)
    requires s == [] || (!IsSpace(s[0]) && !IsSpace(s[|s| - 1]))
    ensures Trim(s) == s
  {
  }

  lemma {:induction false} DotAfter(whole: string, rest: string)
    requires forall k :: 0 <= k < |whole| ==> whole[k] != '.'
    requires rest == [] || rest[0] == '.'
    ensures DotAt(whole + rest) == |whole|
  {
    if whole == [] {
      assert whole + rest == rest;
    } else {
      assert (whole + rest)[1..] == whole[1..] + rest;
      DotAfter(whole[1..], rest);
    }
  }

  function Shown(whole: string, fraction: string): string { if fraction != [] then whole + "." + fraction else whole }

  /** An amount written from its two groups is read back as the same groups. */
  lemma ShownReads(whole: string, fraction: string)
    requires whole != [] && ReadDigits(whole).Some? && ReadDigits(fraction).Some? && |fraction| <= USDC_DECIMALS
    ensures Trim(Shown(whole, fraction)) == Shown(whole, fraction)
    ensures Amount(Shown(whole, fraction)) == Some((whole, fraction))
  {
    var t := Shown(whole, fraction);
    hide ReadDigits, Trim, IsSpace;
    DigitsEverywhere(whole, 0);
    DigitIsNoSpace(whole[0]);
    DigitsEverywhere(whole, |whole| - 1);
    DigitIsNoSpace(whole[|whole| - 1]);
    if fraction != [] {
      DigitsEverywhere(fraction, |fraction| - 1);
      DigitIsNoSpace(fraction[|fraction| - 1]);
    }
    NoSpaceAtEnds(t);
    ShownSplits(whole, fraction);
  }

  lemma NoDotInDigits(s: string)
    requires ReadDigits(s).Some?
    ensures forall k :: 0 <= k < |s| ==> s[k] != '.'
  {
    hide ReadDigits;
    forall k | 0 <= k < |s| ensures s[k] != '.' { DigitsEverywhere(s, k); }
  }

  lemma ShownSplits(whole: string, fraction: string)
    requires whole != [] && ReadDigits(whole).Some?
    ensures DotAt(Shown(whole, fraction)) == |whole| && Shown(whole, fraction)[..|whole|] == whole
    ensures fraction != [] ==> Shown(whole, fraction)[|whole| + 1..] == fraction
  {
    hide ReadDigits, DotAt;
    NoDotInDigits(whole);
    if fraction != [] {
      assert Shown(whole, fraction) == whole + (['.'] + fraction);
      hide Shown;
      DotAfter(whole, ['.'] + fraction);
      assert (whole + (['.'] + fraction))[|whole| + 1..] == fraction;
    } else {
      DotAfter(whole, []);
      assert whole + [] == whole;
    }
  }

  lemma DigitIsNoSpace(c: char)
    requires '0' <= c <= '9'
    ensures !IsSpace(c)
  {
  }

  lemma ShiftedUnit(a: nat)
    ensures Shifted(a, USDC_DECIMALS) == a * UNIT
  {
    assert Shifted(a, 1) == 10 * Shifted(a, 0);
    assert Shifted(a, 3) == 10 * Shifted(a, 2) == 100 * Shifted(a, 1);
    assert Shifted(a, 5) == 10 * Shifted(a, 4) == 100 * Shifted(a, 3);
  }

  /** A canonical integer with its zeros, split six digits before the end. */
  ghost function Parts(s: string): (parts: (string, string))
    requires s != []
    ensures parts.0 != [] && |parts.1| == USDC_DECIMALS && PadStart(s, USDC_DECIMALS + 1) == parts.0 + parts.1
    ensures |parts.0| > 1 ==> |s| > 1 && parts.0[0] == s[0]
  {
    var padded := PadStart(s, USDC_DECIMALS + 1);
    (padded[..|padded| - USDC_DECIMALS], padded[|padded| - USDC_DECIMALS..])
  }

  lemma ShownFromParts(s: string)
    requires ReadIndex(s).Some?
    ensures ToUsdc(s) == Shown(Parts(s).0, StripZeros(Parts(s).1))
  {
    hide ReadDigits, StripZeros;
  }

  lemma PartsRead(s: string)
    requires ReadIndex(s).Some?
    ensures ReadIndex(Parts(s).0).Some? && ReadDigits(Parts(s).0) == ReadIndex(Parts(s).0)
            && ReadDigits(Parts(s).1).Some?
    ensures ReadIndex(s).value == ReadDigits(Parts(s).0).value * UNIT + ReadDigits(Parts(s).1).value
  {
    hide ReadDigits, ReadIndex, Shifted, PadStart, Parts;
    IndexIsDigits(s);
    var (whole, digits) := Parts(s);
    PaddedReads(s, USDC_DECIMALS + 1);
    ReadParts(whole, digits);
    ReadConcat(whole, digits);
    ShiftedUnit(ReadDigits(whole).value);
    DigitsAreIndex(whole);
  }

  lemma ReadParts(a: string, b: string)
    requires ReadDigits(a + b).Some?
    ensures ReadDigits(a).Some? && ReadDigits(b).Some?
  {
    hide ReadDigits;
    ReadPrefix(a + b, |a|);
    assert (a + b)[..|a|] == a && (a + b)[|a|..] == b;
  }

  lemma StrippedReads(digits: string)
    requires |digits| == USDC_DECIMALS && ReadDigits(digits).Some?
    ensures ReadDigits(StripZeros(digits)).Some? && PadEnd(StripZeros(digits), USDC_DECIMALS) == digits
  {
    hide ReadDigits, StripZeros;
    StripPads(digits, USDC_DECIMALS);
    ReadPrefix(digits, |StripZeros(digits)|);
    assert digits[..|StripZeros(digits)|] == StripZeros(digits);
  }

  /** What stands before and after the point. */
  lemma SplitReads(s: string) returns (whole: string, fraction: string)
    requires ReadIndex(s).Some?
    ensures ToUsdc(s) == Shown(whole, fraction) && whole != [] && |fraction| <= USDC_DECIMALS
    ensures fraction != [] ==> fraction[|fraction| - 1] != '0'
    ensures ReadIndex(whole).Some? && ReadDigits(fraction).Some? && ReadDigits(PadEnd(fraction, USDC_DECIMALS)).Some?
    ensures ReadDigits(whole) == ReadIndex(whole)
    ensures ReadIndex(s).value == ReadDigits(whole).value * UNIT + ReadDigits(PadEnd(fraction, USDC_DECIMALS)).value
  {
    hide ReadDigits, ReadIndex, StripZeros, PadEnd, Parts, ToUsdc, Shown;
    IndexIsDigits(s);
    ShownFromParts(s);
    PartsRead(s);
    whole, fraction := Parts(s).0, StripZeros(Parts(s).1);
    StrippedReads(Parts(s).1);
  }

  lemma PaddedReads(s: string, width: nat)
    requires ReadDigits(s).Some?
    ensures ReadDigits(PadStart(s, width)) == ReadDigits(s)
  {
    hide ReadDigits, Shifted;
    if |s| < width {
      ReadZeros(width - |s|);
      ReadConcat(Zeros(width - |s|), s);
      ShiftedZero(|s|);
    }
  }

  lemma {:induction false} ShiftedZero(n: nat)
    ensures Shifted(0, n) == 0
  {
    if n > 0 { ShiftedZero(n - 1); }
  }

  /** Every canonical integer string survives being shown and read again. */
  lemma MinorUnitsRoundTrip(n: string)
    requires ReadIndex(n).Some?
    ensures ToMinorUnits(ToUsdc(n)) == Some(n)
  {
    var whole, fraction := SplitReads(n);
    ShownReads(whole, fraction);
    CanonicalUnique(n);
    hide ReadDigits, PadEnd, Decimal, Amount, Trim;
  }

  // ---------------------------------------------------------------- the canonical spelling of an amount

  /** No needless digits: no leading zero before the point, no trailing zero after it, no bare point. */
  ghost predicate CanonicalAmount(t: string) {
    Trim(t) == t && Amount(t).Some? &&
    var (whole, fraction) := Amount(t).value;
    ReadIndex(whole).Some? && (fraction != [] ==> fraction[|fraction| - 1] != '0')
  }

  lemma AmountIsShown(t: string)
    requires Amount(t).Some?
    ensures t == Shown(Amount(t).value.0, Amount(t).value.1)
    ensures |Amount(t).value.1| <= USDC_DECIMALS
    ensures ReadDigits(Amount(t).value.0).Some? && ReadDigits(Amount(t).value.1).Some?
  {
    var i := DotAt(t);
    if i < |t| {
      assert t == t[..i] + [t[i]] + t[i + 1..];
    } else {
      assert t[..i] == t;
    }
  }

  /** Two groups without needless digits. */
  ghost predicate CanonicalGroups(whole: string, fraction: string) {
    && ReadIndex(whole).Some?
    && |fraction| <= USDC_DECIMALS && ReadDigits(fraction).Some?
    && (fraction != [] ==> fraction[|fraction| - 1] != '0')
  }

  /** The integer two groups stand for. */
  ghost function MinorValue(whole: string, fraction: string): nat
    requires |fraction| <= USDC_DECIMALS && ReadDigits(whole).Some? && ReadDigits(fraction).Some?
  {
    FractionReads(fraction);
    ReadDigits(whole).value * UNIT + ReadDigits(PadEnd(fraction, USDC_DECIMALS)).value
  }

  lemma SameGroups(wa: string, fa: string, wb: string, fb: string)
    requires CanonicalGroups(wa, fa) && CanonicalGroups(wb, fb) && MinorValue(wa, fa) == MinorValue(wb, fb)
    ensures wa == wb && fa == fb
  {
    hide ReadDigits, Decimal, PadEnd;
    FractionReads(fa);
    FractionReads(fb);
    CanonicalUnique(wa);
    CanonicalUnique(wb);
    PadsTo(fa, USDC_DECIMALS);
    PadsTo(fb, USDC_DECIMALS);
    FixedWidthUnique(PadEnd(fa, USDC_DECIMALS), PadEnd(fb, USDC_DECIMALS));
    PaddedUnique(fa, fb, USDC_DECIMALS);
  }

  /** Two canonical spellings of one amount are the same text. */
  lemma CanonicalAmountUnique(a: string, b: string)
    requires CanonicalAmount(a) && CanonicalAmount(b) && ToMinorUnits(a) == ToMinorUnits(b)
    ensures a == b
  {
    StoredNumber(a);
    StoredNumber(b);
    var (wa, fa) := Amount(a).value;
    var (wb, fb) := Amount(b).value;
    hide *;
    DecimalReads(MinorValue(wa, fa));
    DecimalReads(MinorValue(wb, fb));
    SameGroups(wa, fa, wb, fb);
  }

  lemma PadsTo(s: string, width: nat)
    requires |s| <= width
    ensures |PadEnd(s, width)| == width
  {
  }

  lemma StoredNumber(text: string)
    requires CanonicalAmount(text)
    ensures Amount(text).Some? && CanonicalGroups(Amount(text).value.0, Amount(text).value.1)
    ensures |Amount(text).value.1| <= USDC_DECIMALS
    ensures ReadDigits(Amount(text).value.0).Some? && ReadDigits(Amount(text).value.1).Some?
    ensures text == Shown(Amount(text).value.0, Amount(text).value.1)
    ensures ToMinorUnits(text) == Some(Decimal(MinorValue(Amount(text).value.0, Amount(text).value.1)))
  {
    AmountIsShown(text);
    FractionReads(Amount(text).value.1);
    hide ReadDigits, Amount, Trim, Decimal, PadEnd;
  }

  lemma FractionReads(f: string)
    requires |f| <= USDC_DECIMALS && ReadDigits(f).Some?
    ensures ReadDigits(PadEnd(f, USDC_DECIMALS)).Some? && ReadDigits(PadEnd(f, USDC_DECIMALS)).value < UNIT
  {
    hide ReadDigits, Shifted;
    ReadZeros(USDC_DECIMALS - |f|);
    ReadConcat(f, Zeros(USDC_DECIMALS - |f|));
    assert |f| == USDC_DECIMALS ==> f + Zeros(0) == f;
    BelowWidth(PadEnd(f, USDC_DECIMALS));
    ShiftedUnit(1);
  }

  lemma PaddedUnique(a: string, b: string, width: nat)
    requires |a| <= width && |b| <= width && PadEnd(a, width) == PadEnd(b, width)
    requires (a != [] ==> a[|a| - 1] != '0') && (b != [] ==> b[|b| - 1] != '0')
    ensures a == b
  {
    NoLonger(a, b, width);
    NoLonger(b, a, width);
    assert a == PadEnd(a, width)[..|a|] && b == PadEnd(b, width)[..|b|];
  }

  lemma NoLonger(a: string, b: string, width: nat)
    requires |a| <= width && |b| <= width && PadEnd(a, width) == PadEnd(b, width)
    requires b != [] ==> b[|b| - 1] != '0'
    ensures |b| <= |a|
  {
    if b != [] { assert PadEnd(a, width)[|b| - 1] == b[|b| - 1]; }
  }

  /** Whatever a provider typed, the amount shown back is the canonical spelling of the same amount; an amount
      already canonical is shown back unchanged. */
  lemma AmountsRoundTrip(text: string)
    requires ToMinorUnits(text).Some?
    ensures ReadIndex(ToMinorUnits(text).value).Some?
    ensures ToMinorUnits(ToUsdc(ToMinorUnits(text).value)) == ToMinorUnits(text)
    ensures CanonicalAmount(ToUsdc(ToMinorUnits(text).value))
    ensures CanonicalAmount(Trim(text)) ==> ToUsdc(ToMinorUnits(text).value) == Trim(text)
  {
    var n := ToMinorUnits(text).value;
    StoredIsCanonical(text);
    MinorUnitsRoundTrip(n);
    var whole, fraction := SplitReads(n);
    ShownReads(whole, fraction);
    if CanonicalAmount(Trim(text)) {
      hide Amount, Trim, ToUsdc, ReadDigits, Decimal;
      CanonicalAmountUnique(Trim(text), ToUsdc(n));
    }
  }

  lemma StoredIsCanonical(text: string)
    requires ToMinorUnits(text).Some?
    ensures ReadIndex(ToMinorUnits(text).value).Some?
  {
    var (whole, fraction) := Amount(Trim(text)).value;
    IndexReads(ReadDigits(whole).value * UNIT + ReadDigits(PadEnd(fraction, USDC_DECIMALS)).value);
  }

  // ---------------------------------------------------------------- what an amount is

  /** An amount is written in digits, with a point and up to six more where there is a fraction. */
  ghost predicate Writes(t: string, whole: string, fraction: string) {
    && whole != "" && AllDigits(whole) && AllDigits(fraction) && |fraction| <= 6
    && t == if fraction == "" then whole else whole + "." + fraction
  }

  /** What is typed is taken only when, but for spaces around it, it is an amount. */
  lemma OnlyAmountsAreTaken(text: string) returns (whole: string, fraction: string)
    requires ToMinorUnits(text).Some?
    ensures Writes(Trim(text), whole, fraction)
  {
    hide Trim, ReadDigits, Decimal, PadEnd, NumberOf, AllDigits, Zeros;
    AmountIsShown(Trim(text));
    whole, fraction := Amount(Trim(text)).value.0, Amount(Trim(text)).value.1;
    DigitsRead(whole);
    DigitsRead(fraction);
  }

  /** An amount is stored as the number of millionths it stands for. */
  lemma AmountsMean(text: string, whole: string, fraction: string)
    requires Writes(Trim(text), whole, fraction)
    ensures ToMinorUnits(text)
            == Some(Decimal(NumberOf(whole) * 1_000_000 + Shifted(NumberOf(fraction), 6 - |fraction|)))
  {
    hide ReadDigits, Shifted, Amount, Trim, Decimal, NumberOf, AllDigits;
    DigitsRead(whole);
    DigitsRead(fraction);
    ShownReads(whole, fraction);
    ReadZeros(6 - |fraction|);
    ReadConcat(fraction, Zeros(6 - |fraction|));
    assert |fraction| == 6 ==> fraction + Zeros(0) == fraction;
  }
}
