/** CPE 2.3 formatted strings: the escape-aware splitting and decoding of adapters/nvd.py, and the binding
    they undo (section 6.2 of NISTIR 7695). */
module Cpe {
  import opened Prelude

  const COLON := ':'
  const ESCAPE := '\\'
  const PERCENT := '%'

  /** The text between colons that no backslash escapes, after `current`. */
  function SplitFrom(s: string, current: string, escaped: bool): (components: seq<string>)
    ensures |components| >= 1
  {
    if s == [] then [current]
    else if s[0] == COLON && !escaped then [current] + SplitFrom(s[1..], [], false)
    else SplitFrom(s[1..], current + [s[0]], s[0] == ESCAPE && !escaped)
  }

  /** `_split_cpe23`. */
  method SplitCpe(name: string) returns (r: Option<seq<string>>)
    ensures r == (var c := SplitFrom(name, [], false); if |c| == 13 && c[0] == "cpe" && c[1] == "2.3" then Some(c)
                  else None)
  {
    var components: seq<string> := [];
    var current: string := [];
    var escaped := false;
    for i := 0 to |name|
      invariant SplitFrom(name, [], false) == components + SplitFrom(name[i..], current, escaped)
    {
      var c := name[i];
      assert name[i..][1..] == name[i + 1..];
      if c == COLON && !escaped {
        assert components + ([current] + SplitFrom(name[i + 1..], [], false)) == (components + [current]) +
               SplitFrom(name[i + 1..], [], false);
        components := components + [current];
        current := [];
      } else {
        current := current + [c];
        escaped := c == ESCAPE && !escaped;
      }
    }
    assert name[|name|..] == [];
    components := components + [current];
    return if |components| == 13 && components[0] == "cpe" && components[1] == "2.3" then Some(components) else None;
  }

  /** A percent sign and two hexadecimal digits. */
  predicate Percent(s: string) {
    |s| >= 3 && s[0] == PERCENT && HexDigit(s[1]) && HexDigit(s[2])
  }

  predicate HexDigit(c: char) {
    '0' <= c <= '9' || 'A' <= c <= 'F' || 'a' <= c <= 'f'
  }

  function HexValue(c: char): (v: nat)
    requires HexDigit(c)
    ensures v < 16
  {
    if c <= '9' then c as int - '0' as int else if c <= 'F' then c as int - 'A' as int + 10
       else c as int - 'a' as int + 10
  }

  function Byte(s: string): (b: nat)
    requires Percent(s)
    ensures b < 256
  {
    16 * HexValue(s[1]) + HexValue(s[2])
  }

  /** The bytes from 128 upwards that a text begins with. */
  function HighBytes(s: string): (run: seq<nat>)
    ensures 3 * |run| <= |s|
    ensures run == [] <==> !(Percent(s) && Byte(s) >= 128)
  {
    if Percent(s) && Byte(s) >= 128 then [Byte(s)] + HighBytes(s[3..]) else []
  }

  /** Decoding of a run of bytes from 128 upwards, with replacement characters: it yields something, no more
      characters than bytes, and none below 128. */
  ghost predicate Decodes(utf8: seq<nat> -> string) {
    forall run | run != [] :: 0 < |utf8(run)| <= |run| && forall c | c in utf8(run) :: c as int >= 128
  }

  /** `unquote`. */
  function Unquote(utf8: seq<nat> -> string, s: string): string {
    if s == [] then []
    else if !Percent(s) then [s[0]] + Unquote(utf8, s[1..])
    else if Byte(s) < 128 then [Byte(s) as char] + Unquote(utf8, s[3..])
    else utf8(HighBytes(s)) + Unquote(utf8, s[3 * |HighBytes(s)|..])
  }

  /** Backslash removal: an escaped character stands for itself, and a last single backslash too. */
  function Unescape(s: string): string {
    if s == [] then []
    else if s[0] != ESCAPE then [s[0]] + Unescape(s[1..])
    else if |s| == 1 then [ESCAPE]
    else [s[1]] + Unescape(s[2..])
  }

  /** `_decode_cpe_component`. */
  method DecodeComponent(utf8: seq<nat> -> string, component: string) returns (output: string)
    ensures output == Unescape(Unquote(utf8, component))
  {
    hide Unescape, Unquote;
    var decoded := Unquote(utf8, component);
    output := [];
    var escaped := false;
    for i := 0 to |decoded|
      invariant escaped ==> i > 0 && decoded[i - 1] == ESCAPE
      invariant Unescape(decoded) == output + Unescape(decoded[if escaped then i - 1 else i..])
    {
      var c := decoded[i];
      UnescapeNext(decoded, i, escaped);
      if escaped {
        output := output + [c];
        escaped := false;
      } else if c == ESCAPE {
        escaped := true;
      } else {
        output := output + [c];
      }
    }
    UnescapeEnds();
    if escaped {
      assert decoded[|decoded| - 1..] == [ESCAPE];
      output := output + [ESCAPE];
    } else {
      assert decoded[|decoded|..] == [];
    }
  }

  lemma UnescapeEnds()
    ensures Unescape([]) == [] && Unescape([ESCAPE]) == [ESCAPE]
  {
  }

  /** What one more character means: an escaped one and a plain one stand for themselves. */
  lemma UnescapeNext(s: string, i: nat, escaped: bool)
    requires i < |s| && (escaped ==> i > 0 && s[i - 1] == ESCAPE)
    ensures escaped ==> Unescape(s[i - 1..]) == [s[i]] + Unescape(s[i + 1..])
    ensures !escaped && s[i] != ESCAPE ==> Unescape(s[i..]) == [s[i]] + Unescape(s[i + 1..])
  {
    if escaped {
      assert s[i - 1..][2..] == s[i + 1..];
    } else {
      assert s[i..][1..] == s[i + 1..];
    }
  }

  /** Components written side by side with colons between them. */
  function Join(components: seq<string>): string
    requires components != []
  {
    if |components| == 1 then components[0] else components[0] + [COLON] + Join(components[1..])
  }

  /** Whether a text is read from one escaping state to the other without meeting a separator. */
  predicate Closed(s: string, escaped: bool) {
    if s == [] then !escaped
    else (s[0] != COLON || escaped) && Closed(s[1..], s[0] == ESCAPE && !escaped)
  }

  /** Reading a closed text adds it to the current component. */
  lemma {:induction false} SplitClosed(s: string, rest: string, current: string, escaped: bool)
    requires Closed(s, escaped)
    ensures SplitFrom(s + rest, current, escaped) == SplitFrom(rest, current + s, false)
    decreases |s|
  {
    if s == [] {
      assert s + rest == rest && current + s == current;
    } else {
      assert (s + rest)[1..] == s[1..] + rest;
      assert current + s == (current + [s[0]]) + s[1..];
      SplitClosed(s[1..], rest, current + [s[0]], s[0] == ESCAPE && !escaped);
    }
  }

  /** Splitting undoes joining. */
  lemma {:induction false} SplitJoin(components: seq<string>)
    requires components != [] && forall c | c in components :: Closed(c, false)
    ensures SplitFrom(Join(components), [], false) == components
  {
    var first := components[0];
    if |components| == 1 {
      assert first + [] == first && [] + first == first;
      SplitClosed(first, [], [], false);
    } else {
      var rest := [COLON] + Join(components[1..]);
      assert Join(components) == first + rest;
      SplitClosed(first, rest, [], false);
      assert [] + first == first && rest[1..] == Join(components[1..]);
      SplitJoin(components[1..]);
    }
  }

  /** Joining undoes splitting, for every string. */
  lemma {:induction false} JoinSplit(s: string, current: string, escaped: bool)
    ensures Join(SplitFrom(s, current, escaped)) == current + s
    decreases |s|
  {
    if s == [] {
      assert current + s == current;
    } else if s[0] == COLON && !escaped {
      var rest := SplitFrom(s[1..], [], false);
      JoinSplit(s[1..], [], false);
      assert ([current] + rest)[1..] == rest;
      assert current + s == current + [COLON] + ([] + s[1..]);
    } else {
      JoinSplit(s[1..], current + [s[0]], s[0] == ESCAPE && !escaped);
      assert current + s == current + [s[0]] + s[1..];
    }
  }

  /** The binding of a text: a backslash before colons, before backslashes, and before whatever other
      characters the binder quotes. */
  function Escape(text: string, quoted: char -> bool): string {
    if text == [] then []
    else
      (if quoted(text[0]) || text[0] == COLON || text[0] == ESCAPE then [ESCAPE, text[0]] else [text[0]]) +
      Escape(text[1..], quoted)
  }

  lemma {:induction false} EscapeClosed(text: string, quoted: char -> bool)
    ensures Closed(Escape(text, quoted), false)
  {
    if text != [] {
      EscapeClosed(text[1..], quoted);
      var e := Escape(text, quoted);
      if e[0] == ESCAPE {
        assert e[1..][1..] == Escape(text[1..], quoted);
      } else {
        assert e[1..] == Escape(text[1..], quoted);
      }
    }
  }

  /** The text begins with a percent sign and two hexadecimal digits that the binder does not quote. */
  predicate Coded(text: string, quoted: char -> bool) {
    Percent(text) && !quoted(text[1]) && !quoted(text[2])
  }

  predicate PercentCoded(text: string, quoted: char -> bool) {
    text != [] && (Coded(text, quoted) || PercentCoded(text[1..], quoted))
  }

  /** The binding of a coded text still has the percent sign in front of its digits. */
  lemma CodedIsPercent(text: string, quoted: char -> bool)
    requires text != [] && text[0] == PERCENT
    ensures Percent([PERCENT] + Escape(text[1..], quoted)) <==> Coded(text, quoted)
    ensures Coded(text, quoted) ==> Escape(text[1..], quoted) == text[1..3] + Escape(text[3..], quoted)
  {
    var rest := text[1..];
    if |text| >= 3 {
      assert rest[1..][1..] == text[3..] && rest[0] == text[1] && rest[1] == text[2];
      assert text[1..3] == [text[1], text[2]];
      assert Escape(rest, quoted) == (if quoted(text[1]) || text[1] == COLON || text[1] == ESCAPE then
                                      [ESCAPE, text[1]] else [text[1]]) + Escape(rest[1..], quoted);
    }
  }

  /** Unescaping a text after one more backslash yields as many characters, or one more. */
  lemma {:induction false} OneBackslash(s: string)
    ensures |Unescape(s)| <= |Unescape([ESCAPE] + s)| <= 1 + |Unescape(s)|
    decreases |s|
  {
    var e := [ESCAPE] + s;
    if s != [] {
      assert e[2..] == s[1..];
      if s[0] == ESCAPE && |s| > 1 {
        assert s == [ESCAPE] + s[1..];
        OneBackslash(s[1..]);
      }
    }
  }

  lemma {:induction false} PlainKept(h: string, s: string)
    requires forall c | c in h :: c as int >= 128
    ensures Unescape(h + s) == h + Unescape(s)
    ensures h != [] ==> Unescape([ESCAPE] + h + s) == h + Unescape(s)
  {
    hide Unescape;
    if h == [] {
      assert h + s == s;
    } else {
      var c, rest := h[0], h[1..];
      assert c in h && forall x | x in rest :: x in h;
      PlainKept(rest, s);
      UnescapePlain(c, rest + s);
      UnescapeEscaped(c, rest + s);
      assert h + s == [c] + (rest + s) && [ESCAPE] + h + s == [ESCAPE] + ([c] + (rest + s));
      assert [c] + (rest + Unescape(s)) == h + Unescape(s);
    }
  }

  lemma PercentIsCoded(text: string, quoted: char -> bool)
    requires Percent(Escape(text, quoted))
    ensures |text| >= 3 && Escape(text, quoted)[3..] == Escape(text[3..], quoted)
  {
    PercentFirst(Escape(text, quoted));
    hide Percent;
    BoundFirst(text, quoted);
    hide Escape;
    CodedIsPercent(text, quoted);
    CodedLong(text, quoted);
    var tail := text[1..3] + Escape(text[3..], quoted);
    assert ([PERCENT] + tail)[3..] == Escape(text[3..], quoted);
  }

  lemma PercentFirst(s: string)
    requires Percent(s)
    ensures s != [] && s[0] == PERCENT
  {
  }

  lemma CodedLong(text: string, quoted: char -> bool)
    ensures Coded(text, quoted) ==> |text| >= 3
  {
  }

  /** What a binding begins with. */
  lemma BoundFirst(text: string, quoted: char -> bool)
    requires Escape(text, quoted) != [] && Escape(text, quoted)[0] == PERCENT
    ensures text != [] && text[0] == PERCENT && Escape(text, quoted) == [PERCENT] + Escape(text[1..], quoted)
  {
    hide Percent;
  }

  /** A run of high bytes in the binding is one in the text. */
  lemma {:induction false} HighText(text: string, quoted: char -> bool)
    ensures var n := 3 * |HighBytes(Escape(text, quoted))|;
            n <= |text| && Escape(text, quoted)[n..] == Escape(text[n..], quoted)
  {
    hide Percent, Byte, Coded, Escape;
    var e := Escape(text, quoted);
    if HighBytes(e) == [] {
      assert e[0..] == e && text[0..] == text;
    } else {
      PercentIsCoded(text, quoted);
      HighText(text[3..], quoted);
      var m := 3 * |HighBytes(e[3..])|;
      assert e[3..][m..] == e[3 + m..] && text[3..][m..] == text[3 + m..];
    }
  }

  function Decoded(utf8: seq<nat> -> string, text: string, quoted: char -> bool): string {
    Unescape(Unquote(utf8, Escape(text, quoted)))
  }

  lemma PlainStep(utf8: seq<nat> -> string, text: string, quoted: char -> bool)
    requires text != [] && !Coded(text, quoted)
    ensures Decoded(utf8, text, quoted) == [text[0]] + Decoded(utf8, text[1..], quoted)
  {
    hide Percent, Coded, Unquote, Unescape;
    var c, rest := text[0], Escape(text[1..], quoted);
    NotPercent(text, quoted);
    UnquotePlain(utf8, c, rest);
    if quoted(c) || c == COLON || c == ESCAPE {
      assert Escape(text, quoted) == [ESCAPE] + ([c] + rest);
      BackslashKept(utf8, [c] + rest);
      UnescapeEscaped(c, Unquote(utf8, rest));
    } else {
      assert Escape(text, quoted) == [c] + rest;
      UnescapePlain(c, Unquote(utf8, rest));
    }
  }

  lemma UnquotePlain(utf8: seq<nat> -> string, c: char, rest: string)
    requires !Percent([c] + rest)
    ensures Unquote(utf8, [c] + rest) == [c] + Unquote(utf8, rest)
  {
    assert ([c] + rest)[1..] == rest;
  }

  lemma UnescapePlain(c: char, rest: string)
    requires c != ESCAPE
    ensures Unescape([c] + rest) == [c] + Unescape(rest)
  {
    assert ([c] + rest)[1..] == rest;
  }

  lemma UnescapeEscaped(c: char, rest: string)
    ensures Unescape([ESCAPE] + ([c] + rest)) == [c] + Unescape(rest)
  {
    assert ([ESCAPE] + ([c] + rest))[2..] == rest;
  }

  lemma NotPercent(text: string, quoted: char -> bool)
    requires text != [] && !Coded(text, quoted)
    ensures !Percent([text[0]] + Escape(text[1..], quoted))
  {
    if text[0] == PERCENT {
      CodedIsPercent(text, quoted);
    }
  }

  /** What the coded part at the front of a text is turned into. */
  lemma CodedStep(utf8: seq<nat> -> string, text: string, quoted: char -> bool) returns (h: string, n: nat)
    requires Decodes(utf8) && Coded(text, quoted)
    ensures 3 <= n <= |text| && 0 < |h| <= n / 3
    ensures |h| == 1 || forall c | c in h :: c as int >= 128
    ensures Unquote(utf8, [PERCENT] + Escape(text[1..], quoted)) == h + Unquote(utf8, Escape(text[n..], quoted))
  {
    hide Escape;
    var rest := Escape(text[3..], quoted);
    var f := [PERCENT] + Escape(text[1..], quoted);
    CodedIsPercent(text, quoted);
    assert f[3..] == rest;
    hide Decodes, HexDigit, Coded;
    if Byte(f) < 128 {
      h, n := [Byte(f) as char], 3;
    } else {
      HighText(text[3..], quoted);
      h, n := HighStep(utf8, text, f, rest, quoted);
    }
  }

  lemma HighStep(utf8: seq<nat> -> string, text: string, f: string, rest: string, quoted: char -> bool)
    returns (h: string, n: nat)
    requires Decodes(utf8) && |text| >= 3 && Percent(f) && Byte(f) >= 128 && f[3..] == rest
    requires var m := 3 * |HighBytes(rest)|; m <= |text| - 3 && rest[m..] == Escape(text[3..][m..], quoted)
    ensures 3 <= n <= |text| && 0 < |h| <= n / 3 && forall c | c in h :: c as int >= 128
    ensures Unquote(utf8, f) == h + Unquote(utf8, Escape(text[n..], quoted))
  {
    hide Byte, Percent, Escape;
    var run, m := HighBytes(f), 3 * |HighBytes(rest)|;
    h, n := utf8(run), 3 + m;
    assert run != [] && |run| == 1 + |HighBytes(rest)|;
    assert f[n..] == rest[m..] && text[3..][m..] == text[n..];
  }

  /** A coded text loses characters. */
  lemma CodedShrinks(utf8: seq<nat> -> string, text: string, quoted: char -> bool)
    requires Decodes(utf8) && Coded(text, quoted)
    requires forall n | 3 <= n <= |text| :: |Decoded(utf8, text[n..], quoted)| <= |text| - n
    ensures |Decoded(utf8, text, quoted)| < |text|
  {
    var f := [PERCENT] + Escape(text[1..], quoted);
    var h, n := CodedStep(utf8, text, quoted);
    hide Unquote, Coded, Decodes;
    var y := Unquote(utf8, Escape(text[n..], quoted));
    assert |Unescape(y)| <= |text| - n;
    if quoted(PERCENT) {
      assert Escape(text, quoted) == [ESCAPE] + f;
      BackslashKept(utf8, f);
      assert Unescape([ESCAPE] + h + y) == h + Unescape(y) by { EscapedKept(h, y); }
      assert [ESCAPE] + (h + y) == [ESCAPE] + h + y;
    } else {
      assert Escape(text, quoted) == f;
      AtMostKept(h, y);
    }
  }

  lemma BackslashKept(utf8: seq<nat> -> string, s: string)
    ensures Unquote(utf8, [ESCAPE] + s) == [ESCAPE] + Unquote(utf8, s)
  {
    assert ([ESCAPE] + s)[1..] == s;
  }

  lemma EscapedKept(h: string, y: string)
    requires h != [] && (|h| == 1 || forall c | c in h :: c as int >= 128)
    ensures Unescape([ESCAPE] + h + y) == h + Unescape(y)
  {
    if |h| == 1 {
      assert ([ESCAPE] + h + y)[2..] == y;
    } else {
      PlainKept(h, y);
    }
  }

  lemma AtMostKept(h: string, y: string)
    requires h != [] && (|h| == 1 || forall c | c in h :: c as int >= 128)
    ensures |Unescape(h + y)| <= |h| + |Unescape(y)|
  {
    if |h| == 1 {
      OneBackslash(y);
      assert (h + y)[1..] == y && h + y == [h[0]] + y;
    } else {
      PlainKept(h, y);
    }
  }

  /** Decoding undoes binding exactly for the texts that hold no percent sign in front of two digits that could be
      taken for a percent escape; the others come out shorter. */
  lemma {:induction false} DecodesExactly(utf8: seq<nat> -> string, text: string, quoted: char -> bool)
    requires Decodes(utf8)
    ensures Decoded(utf8, text, quoted) == text <==> !PercentCoded(text, quoted)
    ensures |Decoded(utf8, text, quoted)| <= |text|
    ensures PercentCoded(text, quoted) ==> |Decoded(utf8, text, quoted)| < |text|
    decreases |text|
  {
    hide Decodes, Coded, Decoded;
    if text == [] {
      NothingDecoded(utf8, quoted);
    } else if Coded(text, quoted) {
      forall n | 3 <= n <= |text| ensures |Decoded(utf8, text[n..], quoted)| <= |text| - n {
        DecodesExactly(utf8, text[n..], quoted);
      }
      CodedShrinks(utf8, text, quoted);
    } else {
      DecodesExactly(utf8, text[1..], quoted);
      PlainStep(utf8, text, quoted);
      assert text == [text[0]] + text[1..];
    }
  }

  lemma NothingDecoded(utf8: seq<nat> -> string, quoted: char -> bool)
    ensures Decoded(utf8, [], quoted) == []
  {
  }

  function Bound(texts: seq<string>, quoted: char -> bool): seq<string> {
    seq(|texts|, i requires 0 <= i < |texts| => Escape(texts[i], quoted))
  }

  /** Eleven bound texts survive, colons and backslashes included: the name they form splits into thirteen
      components, and each component decodes to its text exactly when that is not percent coded. */
  lemma CpeRoundTrip(utf8: seq<nat> -> string, texts: seq<string>, quoted: char -> bool)
    requires Decodes(utf8) && |texts| == 11
    ensures var components := ["cpe", "2.3"] + Bound(texts, quoted);
            SplitFrom(Join(components), [], false) == components
            && forall i | 0 <= i < 11 :: Unescape(Unquote(utf8, components[i + 2])) == texts[i] <==>
                 !PercentCoded(texts[i], quoted)
  {
    var components := ["cpe", "2.3"] + Bound(texts, quoted);
    forall i | 0 <= i < 11
      ensures Closed(components[i + 2], false)
      ensures Unescape(Unquote(utf8, components[i + 2])) == texts[i] <==> !PercentCoded(texts[i], quoted)
    {
      EscapeClosed(texts[i], quoted);
      DecodesExactly(utf8, texts[i], quoted);
    }
    PrefixClosed();
    forall c | c in components ensures Closed(c, false) {
      var i :| 0 <= i < 13 && components[i] == c;
      if i >= 2 {
        assert Closed(components[(i - 2) + 2], false);
      }
    }
    SplitJoin(components);
  }

  /** The text %3A, bound with its percent sign quoted as the standard asks, is read as a colon. */
  lemma PercentIsLost(utf8: seq<nat> -> string)
    ensures Escape("%3A", c => c == PERCENT) == "\\%3A" && Decoded(utf8, "%3A", c => c == PERCENT) == ":"
  {
    var quoted := c => c == PERCENT;
    assert "%3A"[1..] == "3A" && "3A"[1..] == "A" && "A"[1..] == "" && "%3A"[3..] == "";
    assert Escape("A", quoted) == "A" && Escape("3A", quoted) == "3A";
    assert Escape("%3A", quoted) == "\\%" + "3A" == "\\%3A" && "\\%3A"[1..] == "%3A";
    assert Unquote(utf8, "%3A") == ":" + Unquote(utf8, "") == ":";
    assert Unquote(utf8, "\\%3A") == "\\" + ":";
    assert ("\\" + ":")[2..] == "" && Unescape("\\" + ":") == ":" + Unescape("");
  }

  lemma PrefixClosed()
    ensures Closed("cpe", false) && Closed("2.3", false)
  {
    assert "cpe"[1..] == "pe" && "pe"[1..] == "e" && "e"[1..] == "";
    assert "2.3"[1..] == ".3" && ".3"[1..] == "3" && "3"[1..] == "";
  }

  /** A hexadecimal digit, in capital or small letters. */
  function DigitOf(n: nat, capital: bool): char
    requires n < 16
  {
    if capital then "0123456789ABCDEF"[n] else "0123456789abcdef"[n]
  }

  /** The percent escape of a byte. */
  function EscapeOf(b: nat, first: bool, second: bool): string
    requires b < 256
  {
    [PERCENT, DigitOf(b / 16, first), DigitOf(b % 16, second)]
  }

  lemma EscapeReads(b: nat, first: bool, second: bool, rest: string)
    requires b < 256
    ensures var s := EscapeOf(b, first, second) + rest; Percent(s) && Byte(s) == b && s[3..] == rest
  {
    DigitReads(b / 16, first);
    DigitReads(b % 16, second);
    assert (EscapeOf(b, first, second) + rest)[3..] == rest;
  }

  lemma DigitReads(n: nat, capital: bool)
    requires n < 16
    ensures HexDigit(DigitOf(n, capital)) && HexValue(DigitOf(n, capital)) == n
  {
  }

  /** The percent escape of an ASCII character, in either case of letters, is read as that character. */
  lemma AsciiDecodes(utf8: seq<nat> -> string, b: nat, first: bool, second: bool, rest: string)
    requires b < 128
    ensures Unquote(utf8, EscapeOf(b, first, second) + rest) == [b as char] + Unquote(utf8, rest)
  {
    EscapeReads(b, first, second, rest);
  }

  /** The escapes of bytes from 128 upwards are read together. */
  function EscapesOf(bytes: seq<nat>): string
    requires forall i | 0 <= i < |bytes| :: 128 <= bytes[i] < 256
  {
    if bytes == [] then [] else EscapeOf(bytes[0], true, true) + EscapesOf(bytes[1..])
  }

  lemma {:induction false} RunReads(bytes: seq<nat>, rest: string)
    requires forall i | 0 <= i < |bytes| :: 128 <= bytes[i] < 256
    requires HighBytes(rest) == []
    ensures HighBytes(EscapesOf(bytes) + rest) == bytes && |EscapesOf(bytes)| == 3 * |bytes|
  {
    hide Percent, Byte;
    if bytes == [] {
      assert EscapesOf(bytes) + rest == rest;
    } else {
      RunReads(bytes[1..], rest);
      EscapeReads(bytes[0], true, true, EscapesOf(bytes[1..]) + rest);
      assert EscapesOf(bytes) + rest == EscapeOf(bytes[0], true, true) + (EscapesOf(bytes[1..]) + rest);
    }
  }

  lemma HighDecodes(utf8: seq<nat> -> string, bytes: seq<nat>, rest: string)
    requires bytes != [] && forall i | 0 <= i < |bytes| :: 128 <= bytes[i] < 256
    requires HighBytes(rest) == []
    ensures Unquote(utf8, EscapesOf(bytes) + rest) == utf8(bytes) + Unquote(utf8, rest)
  {
    RunReads(bytes, rest);
    var s := EscapesOf(bytes) + rest;
    assert s[3 * |bytes|..] == rest;
    assert HighBytes(s) != [];
  }
}
