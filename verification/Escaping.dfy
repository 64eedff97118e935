/** Text put into the pages of the sign-in flow: as a JavaScript string literal, and
    as HTML text. */
module Escaping {
  import opened Text

  const NUL: char := '\0'
  const LS: char := '\U{2028}'
  const PS: char := '\U{2029}'

  // ----- JavaScript -----

  function JsEscapeChar(c: char): (r: string)
    ensures r != ""
  {
    if c == '\\' then "\\\\"
    else if c == '\'' then "\\'"
    else if c == '\"' then "\\\""
    else if c == '\n' then "\\n"
    else if c == '\r' then "\\r"
    else if c == NUL then "\\x00"
    else if c == LS then "\\u2028"
    else if c == PS then "\\u2029"
    else if c == '<' then "\\x3c"
    else if c == '>' then "\\x3e"
    else [c]
  }

  function JsEscape(s: string): string
  {
    if s == "" then "" else JsEscapeChar(s[0]) + JsEscape(s[1..])
  }

  method JsStringEscape(s: string) returns (out: string)
    ensures out == JsEscape(s)
    ensures IsLiteralOf(out, s) && NothingRaw(out)
  {
    out := "";
    for i := 0 to |s|
      invariant out + JsEscape(s[i..]) == JsEscape(s)
    {
      assert s[i..][1..] == s[i + 1..];
      out := out + JsEscapeChar(s[i]);
    }
    JsEscapeIsLiteral(s);
    JsNothingRaw(s);
  }

  predicate IsQuote(c: char)
  {
    c == '\'' || c == '\"'
  }

  predicate IsHex(c: char)
  {
    '0' <= c <= '9' || 'a' <= c <= 'f' || 'A' <= c <= 'F'
  }

  function HexValue(c: char): (v: nat)
    requires IsHex(c)
    ensures v < 16
  {
    if c <= '9' then (c as int) - ('0' as int)
    else if c <= 'F' then (c as int) - ('A' as int) + 10
    else (c as int) - ('a' as int) + 10
  }

  predicate AllHex(s: string)
  {
    forall i :: 0 <= i < |s| ==> IsHex(s[i])
  }

  function HexNumber(s: string): nat
    requires AllHex(s)
  {
    if s == "" then 0 else HexNumber(s[..|s| - 1]) * 16 + HexValue(s[|s| - 1])
  }

  predicate IsScalar(n: nat)
  {
    n < 0xD800 || 0xE000 <= n < 0x11_0000
  }

  function HexEscape(digits: string): Option<char>
  {
    if AllHex(digits) && IsScalar(HexNumber(digits)) then Some(HexNumber(digits) as char) else None
  }

  /** The character an escape sequence stands for, and its length: the backslash and
      what follows (ECMA-262, 13th edition, section 12.9.4). Line continuations,
      octal and braced escapes are refused. */
  function ReadEscape(s: string): Option<(char, nat)>
    requires |s| >= 1
  {
    if |s| < 2 then None
    else if s[1] in "\\\'\"" then Some((s[1], 2))
    else if s[1] == 'n' then Some(('\n', 2))
    else if s[1] == 'r' then Some(('\r', 2))
    else if s[1] == 't' then Some(('\t', 2))
    else if s[1] == 'b' then Some(('\U{8}', 2))
    else if s[1] == 'v' then Some(('\U{b}', 2))
    else if s[1] == 'f' then Some(('\U{c}', 2))
    else if s[1] == 'x' && |s| >= 4 && HexEscape(s[2..4]).Some? then Some((HexEscape(s[2..4]).value, 4))
    else if s[1] == 'u' && |s| >= 6 && HexEscape(s[2..6]).Some? then Some((HexEscape(s[2..6]).value, 6))
    else None
  }

  /** One character of a literal and its length in the source text. */
  function ReadChar(s: string): (r: Option<(char, nat)>)
    requires s != ""
    ensures r.Some? ==> 0 < r.value.1 <= |s|
  {
    if s[0] == '\n' || s[0] == '\r' then None
    else if s[0] == '\\' then ReadEscape(s)
    else Some((s[0], 1))
  }

  /** Reads a literal, whose opening quote has been read, up to its closing quote:
      the value of the literal and the text that follows. */
  function ReadLiteral(s: string, quote: char): Option<(string, string)>
    decreases |s|
  {
    if s == "" then None
    else if s[0] == quote then Some(("", s[1..]))
    else
      var c := ReadChar(s);
      if c.None? then None
      else
        var rest := ReadLiteral(s[c.value.1..], quote);
        if rest.None? then None else Some(([c.value.0] + rest.value.0, rest.value.1))
  }

  /** Between quotes of either kind, and whatever follows, `text` is one literal: it
      ends at its own closing quote and its value is `value`. */
  ghost predicate IsLiteralOf(text: string, value: string)
  {
    forall q, tail :: IsQuote(q) ==> ReadLiteral(text + [q] + tail, q) == Some((value, tail))
  }

  /** No line ends, angle brackets or NULs. */
  predicate NothingRaw(text: string)
  {
    && '<' !in text && '>' !in text && '\n' !in text && '\r' !in text
    && NUL !in text && LS !in text && PS !in text
  }

  lemma HexSnoc(s: string, c: char)
    requires AllHex(s) && IsHex(c)
    ensures AllHex(s + [c]) && HexNumber(s + [c]) == HexNumber(s) * 16 + HexValue(c)
  {
    assert (s + [c])[..|s|] == s;
  }

  lemma HexTwo(a: char, b: char)
    requires IsHex(a) && IsHex(b)
    ensures AllHex([a, b]) && HexNumber([a, b]) == HexValue(a) * 16 + HexValue(b)
  {
    HexSnoc("", a);
    HexSnoc([a], b);
    assert "" + [a] == [a] && [a] + [b] == [a, b];
  }

  lemma HexFour(a: char, b: char, c: char, d: char)
    requires IsHex(a) && IsHex(b) && IsHex(c) && IsHex(d)
    ensures AllHex([a, b, c, d])
    ensures HexNumber([a, b, c, d]) == (HexNumber([a, b]) * 16 + HexValue(c)) * 16 + HexValue(d)
  {
    HexTwo(a, b);
    HexSnoc([a, b], c);
    HexSnoc([a, b] + [c], d);
    assert [a, b] + [c] + [d] == [a, b, c, d];
  }

  lemma EscapesRead(c: char, tail: string)
    requires JsEscapeChar(c) != [c]
    ensures ReadEscape(JsEscapeChar(c) + tail) == Some((c, |JsEscapeChar(c)|))
  {
    var e := JsEscapeChar(c);
    var s := e + tail;
    assert s[0] == e[0] && s[1] == e[1];
    if |e| == 4 {
      assert s[2..4] == [e[2], e[3]];
      HexTwo(e[2], e[3]);
    } else if |e| == 6 {
      assert s[2..6] == [e[2], e[3], e[4], e[5]];
      HexTwo(e[2], e[3]);
      HexFour(e[2], e[3], e[4], e[5]);
    }
  }

  lemma CharReads(c: char, tail: string, quote: char)
    requires IsQuote(quote)
    ensures var s := JsEscapeChar(c) + tail;
            s[0] != quote && ReadChar(s) == Some((c, |JsEscapeChar(c)|)) && s[|JsEscapeChar(c)|..] == tail
  {
    if JsEscapeChar(c) != [c] {
      EscapesRead(c, tail);
    }
  }

  lemma {:induction false} JsRoundTrip(s: string, quote: char, tail: string)
    requires IsQuote(quote)
    ensures ReadLiteral(JsEscape(s) + [quote] + tail, quote) == Some((s, tail))
  {
    if s == "" {
      assert JsEscape(s) + [quote] + tail == [quote] + tail;
    } else {
      var c, rest := s[0], s[1..];
      var after := JsEscape(rest) + [quote] + tail;
      assert JsEscape(s) + [quote] + tail == JsEscapeChar(c) + after;
      CharReads(c, after, quote);
      JsRoundTrip(rest, quote, tail);
      assert [c] + rest == s;
    }
  }

  lemma JsEscapeIsLiteral(s: string)
    ensures IsLiteralOf(JsEscape(s), s)
  {
    forall q, tail | IsQuote(q) ensures ReadLiteral(JsEscape(s) + [q] + tail, q) == Some((s, tail)) {
      JsRoundTrip(s, q, tail);
    }
  }

  lemma CharNotRaw(c: char)
    ensures NothingRaw(JsEscapeChar(c))
  {
  }

  lemma {:induction false} JsNothingRaw(s: string)
    ensures NothingRaw(JsEscape(s))
  {
    if s != "" {
      CharNotRaw(s[0]);
      JsNothingRaw(s[1..]);
    }
  }

  // ----- HTML -----

  function Replace(s: string, c: char, with: string): string
  {
    if s == "" then "" else (if s[0] == c then with else [s[0]]) + Replace(s[1..], c, with)
  }

  function HtmlEscape(s: string): string
  {
    AfterAmp(Replace(s, '&', "&amp;"))
  }

  function AfterAmp(s: string): string
  {
    AfterLess(Replace(s, '<', "&lt;"))
  }

  function AfterLess(s: string): string
  {
    AfterGreater(Replace(s, '>', "&gt;"))
  }

  function AfterGreater(s: string): string
  {
    Replace(Replace(s, '\"', "&quot;"), '\'', "&#x27;")
  }

  /** The character reference for a character that needs one. */
  function Reference(c: char): (r: string)
    ensures r != ""
  {
    if c == '&' then "&amp;"
    else if c == '<' then "&lt;"
    else if c == '>' then "&gt;"
    else if c == '\"' then "&quot;"
    else if c == '\'' then "&#x27;"
    else [c]
  }

  function OnePass(s: string): string
  {
    if s == "" then "" else Reference(s[0]) + OnePass(s[1..])
  }

  lemma {:induction false} ReplaceConcat(a: string, b: string, c: char, with: string)
    ensures Replace(a + b, c, with) == Replace(a, c, with) + Replace(b, c, with)
  {
    if a == "" {
      assert a + b == b;
    } else {
      assert (a + b)[1..] == a[1..] + b;
      ReplaceConcat(a[1..], b, c, with);
    }
  }

  lemma {:induction false} ReplaceNothing(s: string, c: char, with: string)
    requires c !in s
    ensures Replace(s, c, with) == s
  {
    if s != "" {
      ReplaceNothing(s[1..], c, with);
    }
  }

  lemma HtmlEscapeConcat(a: string, b: string)
    ensures HtmlEscape(a + b) == HtmlEscape(a) + HtmlEscape(b)
  {
    ReplaceConcat(a, b, '&', "&amp;");
    var a1, b1 := Replace(a, '&', "&amp;"), Replace(b, '&', "&amp;");
    ReplaceConcat(a1, b1, '<', "&lt;");
    var a2, b2 := Replace(a1, '<', "&lt;"), Replace(b1, '<', "&lt;");
    ReplaceConcat(a2, b2, '>', "&gt;");
    var a3, b3 := Replace(a2, '>', "&gt;"), Replace(b2, '>', "&gt;");
    ReplaceConcat(a3, b3, '\"', "&quot;");
    ReplaceConcat(Replace(a3, '\"', "&quot;"), Replace(b3, '\"', "&quot;"), '\'', "&#x27;");
  }

  lemma PassOne(s: string, special: char, with: string)
    requires special !in s || s == [special]
    ensures Replace(s, special, with) == if s == [special] then with else s
  {
    if s == [special] {
      assert s[1..] == "";
    } else {
      ReplaceNothing(s, special, with);
    }
  }

  predicate NoSpecials(s: string)
  {
    '<' !in s && '>' !in s && '\"' !in s && '\'' !in s
  }

  lemma PassesKeep(s: string)
    requires NoSpecials(s)
    ensures AfterAmp(s) == AfterLess(s) == AfterGreater(s) == s
    ensures Replace(s, '\'', "&#x27;") == s
  {
    ReplaceNothing(s, '<', "&lt;");
    ReplaceNothing(s, '>', "&gt;");
    ReplaceNothing(s, '\"', "&quot;");
    ReplaceNothing(s, '\'', "&#x27;");
  }

  lemma ReferenceClean(c: char)
    ensures NoSpecials(Reference(c))
  {
  }

  /** No later replacement touches what an earlier one wrote. */
  lemma HtmlEscapeOne(c: char)
    ensures HtmlEscape([c]) == Reference(c)
  {
    ReferenceClean(c);
    PassesKeep(Reference(c));
    PassOne([c], '&', "&amp;");
    if c != '&' {
      PassOne([c], '<', "&lt;");
    }
    if c != '&' && c != '<' {
      PassOne([c], '>', "&gt;");
    }
    if c != '&' && c != '<' && c != '>' {
      PassOne([c], '\"', "&quot;");
      PassOne([c], '\'', "&#x27;");
    }
  }

  /** Five passes over the whole string do what one pass would. */
  lemma {:induction false} FivePassesAreOne(s: string)
    ensures HtmlEscape(s) == OnePass(s)
  {
    if s != "" {
      assert s == [s[0]] + s[1..];
      HtmlEscapeConcat([s[0]], s[1..]);
      HtmlEscapeOne(s[0]);
      FivePassesAreOne(s[1..]);
    }
  }

  /** The character a reference at the start stands for, and the reference's length. */
  function ReadReference(s: string): (r: Option<(char, nat)>)
    ensures r.Some? ==> 0 < r.value.1 <= |s|
  {
    if "&amp;" <= s then Some(('&', 5))
    else if "&lt;" <= s then Some(('<', 4))
    else if "&gt;" <= s then Some(('>', 4))
    else if "&quot;" <= s then Some(('\"', 6))
    else if "&#x27;" <= s then Some(('\'', 6))
    else None
  }

  /** Decoding the five references; any other text stands for itself. */
  function HtmlDecode(s: string): string
    decreases |s|
  {
    if s == "" then ""
    else
      var r := ReadReference(s);
      if r.Some? then [r.value.0] + HtmlDecode(s[r.value.1..]) else [s[0]] + HtmlDecode(s[1..])
  }

  lemma ReferenceReads(c: char, tail: string)
    ensures var s := Reference(c) + tail;
            ReadReference(s) == if Reference(c) == [c] then None else Some((c, |Reference(c)|))
  {
    var r := Reference(c);
    var s := r + tail;
    assert r <= s;
    assert s[0] == r[0];
    if |r| > 1 {
      assert s[1] == r[1];
    }
  }

  lemma DecodeReference(c: char, tail: string)
    ensures HtmlDecode(Reference(c) + tail) == [c] + HtmlDecode(tail)
  {
    ReferenceReads(c, tail);
    assert (Reference(c) + tail)[|Reference(c)|..] == tail;
  }

  lemma {:induction false} HtmlRoundTrip(s: string)
    ensures HtmlDecode(HtmlEscape(s)) == s
  {
    FivePassesAreOne(s);
    if s != "" {
      DecodeReference(s[0], OnePass(s[1..]));
      FivePassesAreOne(s[1..]);
      HtmlRoundTrip(s[1..]);
    }
  }

  predicate BeginsReference(s: string)
  {
    "&amp;" <= s || "&lt;" <= s || "&gt;" <= s || "&quot;" <= s || "&#x27;" <= s
  }

  lemma ReferenceBegins(c: char, tail: string)
    ensures Reference(c)[0] == '&' ==> BeginsReference(Reference(c) + tail)
    ensures forall i :: 0 < i < |Reference(c)| ==> Reference(c)[i] != '&'
  {
    assert Reference(c) <= Reference(c) + tail;
  }

  /** Every ampersand of a text begins one of the five references. */
  predicate OnlyReferences(s: string)
  {
    s != "" ==> (s[0] == '&' ==> BeginsReference(s)) && OnlyReferences(s[1..])
  }

  lemma {:induction false} NoAmpersand(s: string, tail: string)
    requires '&' !in s && OnlyReferences(tail)
    ensures OnlyReferences(s + tail)
  {
    if s == "" {
      assert s + tail == tail;
    } else {
      assert (s + tail)[1..] == s[1..] + tail;
      NoAmpersand(s[1..], tail);
    }
  }

  lemma {:induction false} OnePassClean(s: string)
    ensures NoSpecials(OnePass(s)) && OnlyReferences(OnePass(s))
  {
    if s != "" {
      var r, rest := Reference(s[0]), OnePass(s[1..]);
      OnePassClean(s[1..]);
      ReferenceClean(s[0]);
      ReferenceBegins(s[0], rest);
      assert (r + rest)[1..] == r[1..] + rest;
      NoAmpersand(r[1..], rest);
    }
  }

  /** The escaped text opens no tag, closes no attribute, and every ampersand in it
      begins one of the five references. */
  lemma HtmlNothingRaw(s: string)
    ensures NoSpecials(HtmlEscape(s)) && OnlyReferences(HtmlEscape(s))
  {
    FivePassesAreOne(s);
    OnePassClean(s);
  }
}
