/** JSON pointers as the validator writes them, and as sections 3 and 4 of RFC 6901 read them. */
module JsonPointers {
  import opened Basics
  import opened JsonValues
  import opened Texts

  // ---------------------------------------------------------------- escaping

  /** `text.replaceAll(c, with)` for a one-character pattern. */
  function ReplaceAll(text: string, c: char, with: string): string {
    if text == [] then [] else (if text[0] == c then with else [text[0]]) + ReplaceAll(text[1..], c, with)
  }

  function EscapeToken(token: string): string {
    ReplaceAll(ReplaceAll(token, '~', "~0"), '/', "~1")
  }

  function Child(pointer: string, token: string): string { pointer + "/" + EscapeToken(token) }

  /** Every `~` followed by `digit`, left to right, becomes `c`. */
  function ReplacePairs(text: string, digit: char, c: char): string {
    if |text| < 2 then text
    else if text[0] == '~' && text[1] == digit then [c] + ReplacePairs(text[2..], digit, c)
    else [text[0]] + ReplacePairs(text[1..], digit, c)
  }

  /** Section 4: first `~1` becomes `/`, then `~0` becomes `~`. */
  function Unescape(text: string): string { ReplacePairs(ReplacePairs(text, '1', '/'), '0', '~') }

  lemma {:induction false} EscapeCons(c: char, rest: string)
    ensures EscapeToken([c] + rest) == (if c == '~' then "~0" else if c == '/' then "~1" else [c]) + EscapeToken(rest)
  {
    var tilded := ReplaceAll(rest, '~', "~0");
    assert ([c] + rest)[1..] == rest;
    if c == '~' {
      assert ReplaceAll([c] + rest, '~', "~0") == ['~'] + (['0'] + tilded);
      assert (['~'] + (['0'] + tilded))[1..] == ['0'] + tilded && (['0'] + tilded)[1..] == tilded;
      assert ReplaceAll(['0'] + tilded, '/', "~1") == ['0'] + EscapeToken(rest);
      assert EscapeToken([c] + rest) == ['~'] + (['0'] + EscapeToken(rest));
    } else {
      assert ReplaceAll([c] + rest, '~', "~0") == [c] + tilded;
      assert ([c] + tilded)[1..] == tilded;
    }
  }

  /** Section 3: `~` is written `~0`, `/` is written `~1`, and any other character as it is. */
  ghost function Written(token: string): string {
    if token == "" then ""
    else (if token[0] == '~' then "~0" else if token[0] == '/' then "~1" else [token[0]]) + Written(token[1..])
  }

  lemma {:induction false} EscapedAsWritten(token: string)
    ensures EscapeToken(token) == Written(token)
  {
    if token != [] {
      EscapedAsWritten(token[1..]);
      assert token == [token[0]] + token[1..];
      EscapeCons(token[0], token[1..]);
    }
  }

  lemma OtherPassesSlashes(c: char, e: string)
    requires c != '~'
    ensures ReplacePairs([c] + e, '1', '/') == [c] + ReplacePairs(e, '1', '/')
  {
    assert ([c] + e)[1..] == e;
  }

  lemma TildePassesSlashes(e: string)
    ensures ReplacePairs("~0" + e, '1', '/') == "~0" + ReplacePairs(e, '1', '/')
  {
    OtherPassesSlashes('0', e);
    assert "~0" + e == ['~'] + (['0'] + e) && ("~0" + e)[1..] == ['0'] + e;
  }

  lemma SlashReturns(e: string)
    ensures ReplacePairs("~1" + e, '1', '/') == ['/'] + ReplacePairs(e, '1', '/')
  {
    assert ("~1" + e)[2..] == e;
  }

  lemma {:induction false} SlashesReturn(token: string)
    ensures ReplacePairs(EscapeToken(token), '1', '/') == ReplaceAll(token, '~', "~0")
    ensures '/' !in EscapeToken(token)
  {
    if token != [] {
      var c, rest := token[0], token[1..];
      assert token == [c] + rest;
      EscapeCons(c, rest);
      SlashesReturn(rest);
      hide ReplacePairs;
      if c == '~' {
        TildePassesSlashes(EscapeToken(rest));
      } else if c == '/' {
        SlashReturns(EscapeToken(rest));
      } else {
        OtherPassesSlashes(c, EscapeToken(rest));
      }
    }
  }

  lemma {:induction false} TildesReturn(token: string)
    ensures ReplacePairs(ReplaceAll(token, '~', "~0"), '0', '~') == token
  {
    if token != [] {
      TildesReturn(token[1..]);
      var t := ReplaceAll(token[1..], '~', "~0");
      if token[0] == '~' {
        assert ("~0" + t)[2..] == t;
      } else {
        assert ([token[0]] + t)[1..] == t;
        assert ReplacePairs([token[0]] + t, '0', '~') == [token[0]] + ReplacePairs(t, '0', '~');
      }
    }
  }

  lemma UnescapeEscapes(token: string)
    ensures Unescape(EscapeToken(token)) == token
  {
    SlashesReturn(token);
    TildesReturn(token);
  }

  // ---------------------------------------------------------------- whole pointers

  /** The pointer `validate` accumulates along a path. */
  function Render(path: seq<string>): string {
    if path == [] then "" else Child(Render(path[..|path| - 1]), path[|path| - 1])
  }

  /** Section 3: every token of the path, written after a `/`. */
  ghost function WrittenPointer(path: seq<string>): string {
    if path == [] then "" else WrittenPointer(path[..|path| - 1]) + "/" + Written(path[|path| - 1])
  }

  lemma {:induction false} RenderedAsWritten(path: seq<string>)
    ensures Render(path) == WrittenPointer(path)
  {
    hide Written, EscapeToken;
    if path != [] {
      RenderedAsWritten(path[..|path| - 1]);
      EscapedAsWritten(path[|path| - 1]);
    }
  }

  /** Section 3: tokens are separated by `/`, and a non-empty pointer starts with one. */
  function Tokens(pointer: string): Option<seq<string>> {
    if pointer == "" then Some([])
    else if pointer[0] != '/' then None
    else
      Some(UnescapeAll(Split(pointer[1..], '/')))
  }

  function UnescapeAll(parts: seq<string>): seq<string> {
    if parts == [] then [] else [Unescape(parts[0])] + UnescapeAll(parts[1..])
  }

  function EscapeAll(path: seq<string>): seq<string> {
    if path == [] then [] else [EscapeToken(path[0])] + EscapeAll(path[1..])
  }

  /** Section 4: the value a path leads to inside `v`. */
  function Resolve(v: Json, path: seq<string>): Option<Json>
    decreases v
  {
    if path == [] then Some(v)
    else match v
      case Arr(items) =>
        (match ReadIndex(path[0])
         case Some(i) => if i < |items| then Resolve(items[i], path[1..]) else None
         case None => None)
      case Obj(ms) => if Has(ms, path[0]) then Resolve(ms[Find(ms, path[0])].value, path[1..]) else None
      case _ => None
  }

  lemma RenderStep(init: seq<string>, last: string)
    ensures Render(init + [last]) == Render(init) + ("/" + EscapeToken(last))
  {
    assert (init + [last])[..|init|] == init;
    hide EscapeToken;
  }

  lemma {:induction false} RenderCons(path: seq<string>)
    requires path != []
    ensures Render(path) == "/" + EscapeToken(path[0]) + Render(path[1..])
  {
    var init, last := path[..|path| - 1], path[|path| - 1];
    RenderStep(init, last);
    assert path == init + [last];
    hide Render, EscapeToken;
    if init == [] {
      RenderNothing();
      assert path[1..] == [];
    } else {
      RenderCons(init);
      RenderStep(init[1..], last);
      assert path[1..] == init[1..] + [last];
    }
  }

  lemma RenderNothing()
    ensures Render([]) == ""
  {
  }

  lemma {:induction false} SplitRender(path: seq<string>)
    requires path != []
    ensures Render(path) != "" && Render(path)[0] == '/'
    ensures Split(Render(path)[1..], '/') == EscapeAll(path)
  {
    RenderCons(path);
    hide EscapeToken, Split;
    var head, rest := EscapeToken(path[0]), path[1..];
    SlashesReturn(path[0]);
    if rest == [] {
      assert Render(path)[1..] == head;
      SplitJoins(head, "", '/');
    } else {
      SplitRender(rest);
      var tail := Render(rest)[1..];
      assert Render(rest) == ['/'] + tail;
      assert Render(path)[1..] == head + ['/'] + tail;
      SplitJoins(head, tail, '/');
    }
  }

  lemma {:induction false} UnescapeAllEscapes(path: seq<string>)
    ensures UnescapeAll(EscapeAll(path)) == path
  {
    if path != [] {
      UnescapeEscapes(path[0]);
      UnescapeAllEscapes(path[1..]);
    }
  }

  /** Reading a rendered pointer gives back the path it was rendered from, whatever its tokens contain. */
  lemma RenderedPointersRead(path: seq<string>)
    ensures Tokens(Render(path)) == Some(path)
  {
    if path != [] {
      SplitRender(path);
      UnescapeAllEscapes(path);
    }
  }
}
