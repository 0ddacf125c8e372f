/** Decimal numerals and separators in strings. */
module Texts {
  import opened Basics

  // ---------------------------------------------------------------- decimal numerals

  function Digit(d: nat): char
    requires d < 10
  {
    ['0', '1', '2', '3', '4', '5', '6', '7', '8', '9'][d]
  }

  /** `String(index)` */
  function Decimal(n: nat): (s: string)
    ensures s != []
  {
    if n < 10 then [Digit(n)] else Decimal(n / 10) + [Digit(n % 10)]
  }

  function DigitValue(c: char): Option<nat> {
    if '0' <= c <= '9' then Some(c as int - '0' as int) else None
  }

  function ReadDigits(s: string): Option<nat> {
    if s == [] then Some(0)
    else match (ReadDigits(s[..|s| - 1]), DigitValue(s[|s| - 1]))
      case (Some(high), Some(low)) => Some(high * 10 + low)
      case _ => None
  }

  ghost predicate AllDigits(s: string) { forall i :: 0 <= i < |s| ==> '0' <= s[i] <= '9' }

  /** The number a row of decimal digits stands for. */
  ghost function NumberOf(s: string): nat
    requires AllDigits(s)
  {
    if s == "" then 0 else 10 * NumberOf(s[..|s| - 1]) + (s[|s| - 1] as int - 48)
  }

  lemma {:induction false} DigitsRead(s: string)
    ensures ReadDigits(s) == if AllDigits(s) then Some(NumberOf(s)) else None
  {
    if s != "" {
      DigitsRead(s[..|s| - 1]);
      assert s == s[..|s| - 1] + [s[|s| - 1]];
    }
  }

  /** An array index: digits, with no leading zero. */
  function ReadIndex(s: string): Option<nat> {
    if s == [] || (|s| > 1 && s[0] == '0') then None else ReadDigits(s)
  }

  lemma {:induction false} DecimalReads(n: nat)
    ensures ReadDigits(Decimal(n)) == Some(n)
    ensures n > 0 ==> Decimal(n)[0] != '0'
  {
    if n >= 10 {
      DecimalReads(n / 10);
      assert Decimal(n)[..|Decimal(n)| - 1] == Decimal(n / 10);
    } else {
      assert Decimal(n)[..0] == [];
    }
  }

  lemma IndexReads(n: nat)
    ensures ReadIndex(Decimal(n)) == Some(n)
  {
    DecimalReads(n);
  }

  // ---------------------------------------------------------------- letter case

  function LowerChar(c: char): char {
    if 'A' <= c <= 'Z' then (c as int + 32) as char else c
  }

  function Lower(s: string): (r: string)
    ensures |r| == |s|
    ensures forall i :: 0 <= i < |s| ==> r[i] == LowerChar(s[i])
  {
    if s == [] then [] else [LowerChar(s[0])] + Lower(s[1..])
  }

  // ---------------------------------------------------------------- separators

  /** `text.split(c)` for a one-character separator. */
  function Split(text: string, c: char): (parts: seq<string>)
    ensures parts != []
  {
    if text == [] then [""]
    else if text[0] == c then [""] + Split(text[1..], c)
    else
      var parts := Split(text[1..], c);
      [[text[0]] + parts[0]] + parts[1..]
  }

  lemma {:induction false} SplitJoins(head: string, tail: string, c: char)
    requires c !in head
    ensures Split(head, c) == [head]
    ensures Split(head + [c] + tail, c) == [head] + Split(tail, c)
  {
    if head == [] {
      assert head + [c] + tail == [c] + tail;
      assert ([c] + tail)[1..] == tail;
    } else {
      SplitJoins(head[1..], tail, c);
      assert (head + [c] + tail)[1..] == head[1..] + [c] + tail;
      assert [head[0]] + head[1..] == head;
      assert ([head[1..]] + Split(tail, c))[1..] == Split(tail, c);
    }
  }

  ghost function Join(parts: seq<string>, c: char): string
    requires parts != []
  {
    if |parts| == 1 then parts[0] else parts[0] + [c] + Join(parts[1..], c)
  }

  lemma JoinCons(head: string, rest: seq<string>, c: char)
    requires rest != []
    ensures Join([head] + rest, c) == head + [c] + Join(rest, c)
  {
    assert ([head] + rest)[1..] == rest;
  }

  lemma JoinPrepend(x: char, parts: seq<string>, c: char)
    requires parts != []
    ensures Join([[x] + parts[0]] + parts[1..], c) == [x] + Join(parts, c)
  {
    if |parts| > 1 {
      JoinCons([x] + parts[0], parts[1..], c);
      assert ([x] + parts[0]) + [c] + Join(parts[1..], c) == [x] + (parts[0] + [c] + Join(parts[1..], c));
    }
  }

  lemma {:induction false} JoinSplit(text: string, c: char)
    ensures Join(Split(text, c), c) == text
  {
    if text != [] {
      var rest := text[1..];
      JoinSplit(rest, c);
      hide Join;
      assert text == [text[0]] + rest;
      if text[0] == c {
        JoinCons("", Split(rest, c), c);
      } else {
        JoinPrepend(text[0], Split(rest, c), c);
      }
    }
  }
}
