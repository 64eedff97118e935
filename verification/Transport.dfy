/** Gateway endpoints: reading a base URL into the candidates to probe, and printing
    a candidate as a URL again. */
module Transport {
  import opened Text

  datatype Scheme = Grpcs | Grpc | Wss | Ws

  function SchemeName(s: Scheme): string
  {
    match s
    case Grpcs => "grpcs"
    case Grpc => "grpc"
    case Wss => "wss"
    case Ws => "ws"
  }

  function DefaultPort(s: Scheme): nat
  {
    if s.Grpcs? || s.Wss? then 443 else 80
  }

  predicate IsPort(n: nat)
  {
    n < 0x1_0000
  }

  datatype Candidate = Candidate(scheme: Scheme, host: string, port: nat, url: string)

  /** The part of a URL after `://`: the port is left out when it is the default one. */
  function Printed(host: string, port: nat, default: nat): string
  {
    if port == default then host else host + ":" + Decimal(port)
  }

  function NewCandidate(scheme: Scheme, host: string, port: nat): Candidate
  {
    Candidate(scheme, host, port, SchemeName(scheme) + "://" + Printed(host, port, DefaultPort(scheme)))
  }

  function ProbeUrl(c: Candidate): string
  {
    (if c.scheme.Grpcs? || c.scheme.Wss? then "https" else "http") + "://" + Printed(c.host, c.port,
        DefaultPort(c.scheme))
  }

  // ----- string functions of the standard library -----

  function TrimSlashes(s: string): (r: string)
    ensures r <= s && (r != "" ==> r[|r| - 1] != '/')
    ensures forall i :: |r| <= i < |s| ==> s[i] == '/'
  {
    if s != "" && s[|s| - 1] == '/' then TrimSlashes(s[..|s| - 1]) else s
  }

  /** Index of the first occurrence of a text. */
  function FindText(s: string, text: string): (i: Option<nat>)
    ensures i.Some? ==> i.value + |text| <= |s| && s[i.value..i.value + |text|] == text
    ensures i.Some? ==> forall c :: c in text ==> c in s
  {
    if |s| < |text| then None
    else if text <= s then Some(0)
    else if s == "" then None
    else
      var rest := FindText(s[1..], text);
      if rest.Some? then
        assert s[1..][rest.value..rest.value + |text|] == s[rest.value + 1..rest.value + 1 + |text|];
        Some(rest.value + 1)
      else None
  }

  function CountOf(s: string, c: char): (n: nat)
    ensures n == 0 <==> c !in s
  {
    if s == "" then 0 else (if s[0] == c then 1 else 0) + CountOf(s[1..], c)
  }

  function LastIndexOf(s: string, c: char): (i: Option<nat>)
    ensures i.None? <==> c !in s
    ensures i.Some? ==> i.value < |s| && s[i.value] == c && c !in s[i.value + 1..]
  {
    if s == "" then None
    else if s[|s| - 1] == c then Some(|s| - 1)
    else
      var i := LastIndexOf(s[..|s| - 1], c);
      assert s == s[..|s| - 1] + [s[|s| - 1]];
      i
  }

  predicate AllDigits(s: string)
  {
    forall i :: 0 <= i < |s| ==> IsDigit(s[i])
  }

  /** An unsigned 16-bit numeral; a leading plus sign is accepted. */
  function ParseU16(s: string): (n: Option<nat>)
    ensures n.Some? ==> IsPort(n.value)
  {
    var digits := if s != "" && s[0] == '+' then s[1..] else s;
    if digits == "" || !AllDigits(digits) then None
    else
      var n := DigitsValue(digits);
      if n < 0x1_0000 then Some(n) else None
  }

  ghost predicate Numeral(s: string, n: nat)
  {
    exists d :: (s == d || s == "+" + d) && d != "" && AllDigits(d) && DigitsValue(d) == n
  }

  /** The numerals that read as a port: digits with a value below 65536, after a plus
      sign or none. */
  lemma ParseU16Iff(s: string, n: nat)
    ensures ParseU16(s) == Some(n) <==> IsPort(n) && Numeral(s, n)
  {
    var digits := if s != "" && s[0] == '+' then s[1..] else s;
    assert s == digits || s == "+" + digits;
    if d :| (s == d || s == "+" + d) && d != "" && AllDigits(d) && DigitsValue(d) == n {
      assert IsDigit(d[0]);
      assert s == "+" + d ==> s[1..] == d;
      assert d == digits;
    }
  }

  lemma PrintedPortParses(port: nat)
    requires IsPort(port)
    ensures ParseU16(Decimal(port)) == Some(port)
  {
    DecimalRoundTrip(port);
    assert AllDigits(Decimal(port));
  }

  // ----- host and port -----

  function ParseHostPort(input: string, default: nat): (r: (string, nat))
    requires IsPort(default)
    ensures r.0 <= input && IsPort(r.1)
  {
    var authority := input[..IndexOf(input, '/')];
    if Bracketed(authority) then ParseBracketed(authority, default) else ParsePlain(authority, default)
  }

  function ParseBracketed(authority: string, default: nat): (r: (string, nat))
    requires IsPort(default) && Bracketed(authority)
    ensures r.0 <= authority && IsPort(r.1)
  {
    var close := IndexOf(authority, ']');
    var rest := authority[close + 1..];
    var port := if StartsWith(rest, ":") then ParseU16(rest[1..]) else None;
    (authority[..close + 1], if port.Some? then port.value else default)
  }

  function ParsePlain(authority: string, default: nat): (r: (string, nat))
    requires IsPort(default)
    ensures r.0 <= authority && IsPort(r.1)
  {
    if CountOf(authority, ':') > 1 then (authority, default)
    else
      var colon := LastIndexOf(authority, ':');
      var port := if colon.Some? then ParseU16(authority[colon.value + 1..]) else None;
      if port.Some? then (authority[..colon.value], port.value) else (authority, default)
  }

  /** A host read as a bracketed address, because it opens a bracket and closes one. */
  predicate Bracketed(host: string)
  {
    StartsWith(host, "[") && ']' in host
  }

  predicate ClosesAtEnd(host: string)
  {
    host != "" && IndexOf(host, ']') == |host| - 1
  }

  /** The text after the only colon reads as a port. */
  predicate EndsInPort(host: string)
  {
    CountOf(host, ':') == 1 && ParseU16(host[IndexOf(host, ':') + 1..]).Some?
  }

  /** Hosts that can be printed with any port. */
  predicate GoodHost(host: string)
  {
    '/' !in host && if Bracketed(host) then ClosesAtEnd(host) else ':' !in host
  }

  /** Hosts that can be printed with this port. */
  predicate Printable(host: string, port: nat, default: nat)
  {
    if port == default
    then '/' !in host && if Bracketed(host) then ClosesAtEnd(host) else !EndsInPort(host)
    else GoodHost(host)
  }

  lemma {:induction false} CountConcat(a: string, b: string, c: char)
    ensures CountOf(a + b, c) == CountOf(a, c) + CountOf(b, c)
  {
    if a == "" {
      assert a + b == b;
    } else {
      assert (a + b)[1..] == a[1..] + b;
      CountConcat(a[1..], b, c);
    }
  }

  /** Where the first `c` is known, IndexOf finds it. */
  lemma FirstAt(s: string, c: char, i: nat)
    requires i < |s| && s[i] == c && c !in s[..i]
    ensures IndexOf(s, c) == i
  {
    assert forall k :: 0 <= k < i ==> s[..i][k] != c;
  }

  lemma NoneAfter(s: string, c: char, i: nat)
    requires i <= |s| && c !in s[i..]
    ensures forall j :: i <= j < |s| ==> s[j] != c
  {
    assert forall j :: i <= j < |s| ==> s[j] == s[i..][j - i];
  }

  lemma LastAt(s: string, c: char, i: nat)
    requires i < |s| && s[i] == c && c !in s[i + 1..]
    ensures LastIndexOf(s, c) == Some(i)
  {
    var k := LastIndexOf(s, c).value;
    NoneAfter(s, c, i + 1);
    NoneAfter(s, c, k + 1);
  }

  lemma CountOne(c: char)
    ensures CountOf([c], c) == 1
  {
    assert [c][1..] == "";
  }

  lemma OnlyColon(s: string)
    requires CountOf(s, ':') == 1
    ensures LastIndexOf(s, ':') == Some(IndexOf(s, ':'))
  {
    var i := IndexOf(s, ':');
    assert ':' in s;
    var rest := s[i + 1..];
    assert s == s[..i] + ([':'] + rest);
    CountConcat(s[..i], [':'] + rest, ':');
    CountConcat([':'], rest, ':');
    CountOne(':');
    LastAt(s, ':', i);
  }

  /** Without a slash the whole input is the authority. */
  lemma WholeAuthority(input: string)
    requires '/' !in input
    ensures input[..IndexOf(input, '/')] == input
  {
  }

  lemma SlashIsLost(host: string, input: string, default: nat)
    requires IsPort(default) && '/' in host
    ensures ParseHostPort(input, default).0 != host
  {
    var r := ParseHostPort(input, default).0;
    var cut := IndexOf(input, '/');
    assert r <= input[..cut];
    assert forall i :: 0 <= i < |r| ==> r[i] == input[..cut][i] == input[i];
  }

  lemma BracketedDefaultPort(host: string, default: nat)
    requires IsPort(default) && Bracketed(host)
    ensures ParseBracketed(host, default) == (host, default) <==> ClosesAtEnd(host)
  {
    var close := IndexOf(host, ']');
    assert |host[..close + 1]| == close + 1;
    assert close == |host| - 1 ==> host[..close + 1] == host && host[close + 1..] == "";
  }

  lemma PlainDefaultPort(host: string, default: nat)
    requires IsPort(default)
    ensures ParsePlain(host, default) == (host, default) <==> !EndsInPort(host)
  {
    if CountOf(host, ':') == 1 {
      OnlyColon(host);
    }
  }

  lemma SameClose(host: string, tail: string)
    requires Bracketed(host)
    ensures Bracketed(host + tail) && IndexOf(host + tail, ']') == IndexOf(host, ']')
  {
    var text, close := host + tail, IndexOf(host, ']');
    assert text[close] == ']' && text[0] == host[0];
    assert text[..close] == host[..close];
    FirstAt(text, ']', close);
  }

  lemma BracketedPortRead(host: string, text: string, digits: string, default: nat)
    requires IsPort(default) && Bracketed(text) && IndexOf(text, ']') == |host| - 1
    requires text == host + (":" + digits)
    ensures ParseBracketed(text, default) ==
              (host, if ParseU16(digits).Some? then ParseU16(digits).value else default)
  {
    var rest := ":" + digits;
    assert text[..|host|] == host && text[|host|..] == rest;
    assert rest[1..] == digits;
  }

  lemma BracketedOtherPort(host: string, port: nat, default: nat)
    requires IsPort(port) && IsPort(default) && Bracketed(host)
    ensures var text := host + ":" + Decimal(port);
            Bracketed(text) && (ParseBracketed(text, default) == (host, port) <==> ClosesAtEnd(host))
  {
    var digits := Decimal(port);
    var text := host + (":" + digits);
    assert host + ":" + digits == text;
    SameClose(host, ":" + digits);
    if ClosesAtEnd(host) {
      BracketedPortRead(host, text, digits, default);
      PrintedPortParses(port);
    } else {
      BracketedShorter(host, text, default);
    }
  }

  lemma BracketedShorter(host: string, text: string, default: nat)
    requires IsPort(default) && Bracketed(text) && IndexOf(text, ']') != |host| - 1
    ensures ParseBracketed(text, default).0 != host
  {
  }

  lemma ColonsOfPrinted(host: string, port: nat)
    ensures CountOf(host + ":" + Decimal(port), ':') == CountOf(host, ':') + 1
  {
    CountConcat(host + ":", Decimal(port), ':');
    CountConcat(host, ":", ':');
    CountOne(':');
  }

  lemma PlainOtherPort(host: string, port: nat, default: nat)
    requires IsPort(port) && IsPort(default)
    ensures ParsePlain(host + ":" + Decimal(port), default) == (host, port) <==> ':' !in host
  {
    var text := host + ":" + Decimal(port);
    ColonsOfPrinted(host, port);
    assert |text| > |host|;
    if ':' !in host {
      PrintedPortParses(port);
      assert text[|host| + 1..] == Decimal(port) && text[..|host|] == host;
      LastAt(text, ':', |host|);
    }
  }

  lemma SameBrackets(host: string, port: nat)
    ensures Bracketed(host + ":" + Decimal(port)) <==> Bracketed(host)
  {
    var text := host + ":" + Decimal(port);
    assert ']' in text <==> ']' in host;
    assert host != "" ==> text[0] == host[0];
    assert StartsWith(host, "[") ==> host[0] == '[';
    assert StartsWith(text, "[") ==> text[0] == '[';
  }

  lemma DefaultPortRoundTrip(host: string, default: nat)
    requires IsPort(default)
    ensures ParseHostPort(host, default) == (host, default) <==> Printable(host, default, default)
  {
    if '/' in host {
      SlashIsLost(host, host, default);
    } else {
      WholeAuthority(host);
      if Bracketed(host) {
        BracketedDefaultPort(host, default);
      } else {
        PlainDefaultPort(host, default);
      }
    }
  }

  lemma OtherPortRoundTrip(host: string, port: nat, default: nat)
    requires IsPort(port) && IsPort(default) && port != default
    ensures ParseHostPort(Printed(host, port, default), default) == (host, port) <==> GoodHost(host)
  {
    var text := host + ":" + Decimal(port);
    if '/' in host {
      SlashIsLost(host, text, default);
    } else {
      assert '/' !in text;
      WholeAuthority(text);
      SameBrackets(host, port);
      if Bracketed(host) {
        BracketedOtherPort(host, port, default);
      } else {
        PlainOtherPort(host, port, default);
      }
    }
  }

  /** A printed authority reads back as the same host and port exactly when the
      host is printable with that port. */
  lemma AuthorityRoundTrip(host: string, port: nat, default: nat)
    requires IsPort(port) && IsPort(default)
    ensures ParseHostPort(Printed(host, port, default), default) == (host, port) <==> Printable(host, port, default)
  {
    if port == default {
      DefaultPortRoundTrip(host, default);
    } else {
      OtherPortRoundTrip(host, port, default);
    }
  }

  ghost predicate ReadsBack(host: string, default: nat, port: nat)
    requires IsPort(default)
  {
    ParseHostPort(Printed(host, port, default), default) == (host, port)
  }

  /** The hosts that round-trip with every port. */
  lemma GoodHostsRoundTrip(host: string, default: nat)
    requires IsPort(default)
    ensures (forall port :: IsPort(port) ==> ReadsBack(host, default, port)) <==> GoodHost(host)
  {
    forall port | IsPort(port) ensures ReadsBack(host, default, port) <==> Printable(host, port, default) {
      AuthorityRoundTrip(host, port, default);
    }
    var other := if default == 0 then 1 else 0;
    assert ReadsBack(host, default, other) <==> GoodHost(host);
    assert GoodHost(host) ==> Printable(host, default, default);
  }

  // ----- candidates -----

  function StripPrefix(s: string, prefix: string): (rest: Option<string>)
    ensures rest.Some? ==> s == prefix + rest.value
  {
    if StartsWith(s, prefix) then Some(s[|prefix|..]) else None
  }

  function AfterScheme(s: string): string
  {
    var i := FindText(s, "://");
    if i.Some? then s[i.value + 3..] else s
  }

  /** Whether the URL asks for TLS, and what follows its scheme. */
  function SplitScheme(trimmed: string): (bool, string)
  {
    var https, http := StripPrefix(trimmed, "https://"), StripPrefix(trimmed, "http://");
    if https.Some? then (true, https.value)
    else if http.Some? then (false, http.value)
    else (true, AfterScheme(trimmed))
  }

  function BuildCandidates(base: string): (cs: seq<Candidate>)
    ensures |cs| == 2
  {
    var (tls, rest) := SplitScheme(TrimSlashes(Trim(base)));
    var (host, port) := ParseHostPort(rest, if tls then 443 else 80);
    [NewCandidate(if tls then Grpcs else Grpc, "connectors-" + host, port),
     NewCandidate(if tls then Wss else Ws, host, port)]
  }

  function FallbackCandidate(base: string): Candidate
  {
    var trimmed := TrimSlashes(Trim(base));
    var https, http := StripPrefix(trimmed, "https://"), StripPrefix(trimmed, "http://");
    var (scheme, rest, default) :=
      if https.Some? then (Wss, https.value, 443)
      else if http.Some? then (Ws, http.value, 80)
      else (Wss, AfterScheme(trimmed), 443);
    var (host, port) := ParseHostPort(rest, default);
    NewCandidate(scheme, host, port)
  }

  lemma FallbackIsLast(base: string)
    ensures FallbackCandidate(base) == BuildCandidates(base)[1]
  {
  }

  /** Nothing at the end of the printed URL is taken for padding. */
  predicate NothingTrimmed(host: string, port: nat, default: nat)
  {
    port != default || (host != "" && !IsSpace(host[|host| - 1]))
  }

  predicate IsWebSocket(c: Candidate)
  {
    (c.scheme.Wss? || c.scheme.Ws?) && IsPort(c.port) && c == NewCandidate(c.scheme, c.host, c.port)
  }

  lemma UntrimmedUrl(url: string)
    requires url != "" && !IsSpace(url[0]) && !IsSpace(url[|url| - 1]) && url[|url| - 1] != '/'
    ensures TrimSlashes(Trim(url)) == url
  {
    assert TrimStart(url) == url;
    assert TrimEnd(url) == url;
  }

  lemma SplitPrinted(tls: bool, rest: string)
    ensures SplitScheme(SchemePrefix(tls) + rest) == (tls, rest)
  {
    var url := SchemePrefix(tls) + rest;
    assert url[4] == SchemePrefix(tls)[4];
    assert url[|SchemePrefix(tls)|..] == rest;
  }

  /** The scheme prefix decides which branch a URL takes. */
  lemma BuildFromUrl(base: string, tls: bool, rest: string)
    requires TrimSlashes(Trim(base)) == SchemePrefix(tls) + rest
    ensures var (host, port) := ParseHostPort(rest, if tls then 443 else 80);
            BuildCandidates(base)[1] == NewCandidate(if tls then Wss else Ws, host, port)
  {
    SplitPrinted(tls, rest);
  }

  function SchemePrefix(tls: bool): string
  {
    if tls then "https://" else "http://"
  }

  /** When padding reaches into the scheme, only the scheme and its colon are left. */
  lemma SchemeOnly(url: string, tls: bool, trimmed: string)
    requires SchemePrefix(tls) <= url && trimmed < url && |trimmed| < |SchemePrefix(tls)|
    requires trimmed != "" ==> trimmed[|trimmed| - 1] != '/'
    requires IsSpace(url[|trimmed|]) || url[|trimmed|] == '/'
    ensures trimmed == if tls then "https:" else "http:"
  {
    var n, colon := |trimmed|, if tls then 5 else 4;
    assert url[n] == SchemePrefix(tls)[n];
    assert n > colon;
    assert trimmed[n - 1] == url[n - 1] == SchemePrefix(tls)[n - 1];
    assert n == colon + 1;
    assert trimmed == SchemePrefix(tls)[..n];
  }

  lemma Trimmings(url: string)
    requires url != "" && !IsSpace(url[0])
    ensures var t := TrimSlashes(Trim(url));
            && t <= url && (t != "" ==> t[|t| - 1] != '/')
            && (|t| < |url| ==> IsSpace(url[|t|]) || url[|t|] == '/')
            && (IsSpace(url[|url| - 1]) || url[|url| - 1] == '/' ==> |t| < |url|)
  {
    assert TrimStart(url) == url;
    var s := TrimEnd(url);
    var t := TrimSlashes(s);
    assert |t| < |s| ==> s[|t|] == url[|t|];
    assert t == url ==> s == url;
  }

  lemma NoScheme(s: string)
    requires '/' !in s
    ensures AfterScheme(s) == s
  {
    assert "://"[1] == '/';
  }

  /** A colon with nothing after it is part of the host. */
  lemma TrailingColon(name: string, default: nat)
    requires IsPort(default) && ':' !in name && '/' !in name && ']' !in name
    ensures ParseHostPort(name + ":", default) == (name + ":", default)
  {
    var s := name + ":";
    CountConcat(name, ":", ':');
    CountOne(':');
    LastAt(s, ':', |name|);
    WholeAuthority(s);
    assert s[|name| + 1..] == "";
  }

  lemma SchemeOnlyIsHost(tls: bool)
    ensures var s := if tls then "https:" else "http:"; AfterScheme(s) == s && ParseHostPort(s, 443) == (s, 443)
  {
    var name := if tls then "https" else "http";
    assert (if tls then "https:" else "http:") == name + ":";
    NoScheme(name + ":");
    TrailingColon(name, 443);
  }

  lemma SchemeOnlyBuilds(base: string, tls: bool)
    requires TrimSlashes(Trim(base)) == if tls then "https:" else "http:"
    ensures BuildCandidates(base)[1] == NewCandidate(Wss, if tls then "https:" else "http:", 443)
  {
    SchemeOnlyIsHost(tls);
  }

  lemma ShorterHost(url: string, tls: bool, host: string)
    requires url == SchemePrefix(tls) + host
    requires var t := TrimSlashes(Trim(url)); t < url && |t| >= |SchemePrefix(tls)|
    ensures |BuildCandidates(url)[1].host| < |host|
  {
    var t := TrimSlashes(Trim(url));
    var rest := t[|SchemePrefix(tls)|..];
    assert t == SchemePrefix(tls) + rest;
    BuildFromUrl(url, tls, rest);
  }

  /** A URL that loses padding reads as another host, or as none at all. */
  lemma TrimmedUrlDiffers(host: string, tls: bool)
    requires host == "" || IsSpace(host[|host| - 1]) || host[|host| - 1] == '/'
    ensures BuildCandidates(SchemePrefix(tls) + host)[1].host != host ||
            BuildCandidates(SchemePrefix(tls) + host)[1].scheme != if tls then Wss else Ws
  {
    var url := SchemePrefix(tls) + host;
    assert url[|url| - 1] == if host == "" then '/' else host[|host| - 1];
    Trimmings(url);
    var trimmed := TrimSlashes(Trim(url));
    if |trimmed| >= |SchemePrefix(tls)| {
      ShorterHost(url, tls, host);
    } else {
      SchemeOnly(url, tls, trimmed);
      SchemeOnlyBuilds(url, tls);
    }
  }

  predicate Padded(host: string)
  {
    host == "" || IsSpace(host[|host| - 1]) || host[|host| - 1] == '/'
  }

  lemma RebuildOfUntrimmed(c: Candidate)
    requires IsWebSocket(c) && (c.port == DefaultPort(c.scheme) ==> !Padded(c.host))
    ensures var (host, port) := ParseHostPort(Printed(c.host, c.port, DefaultPort(c.scheme)), DefaultPort(c.scheme));
            BuildCandidates(ProbeUrl(c))[1] == NewCandidate(c.scheme, host, port)
  {
    var printed := Printed(c.host, c.port, DefaultPort(c.scheme));
    var url := ProbeUrl(c);
    assert url == SchemePrefix(c.scheme.Wss?) + printed;
    assert printed != "" && url[|url| - 1] == printed[|printed| - 1];
    if c.port != DefaultPort(c.scheme) {
      var digits := Decimal(c.port);
      assert printed[|printed| - 1] == digits[|digits| - 1];
    }
    UntrimmedUrl(url);
    BuildFromUrl(url, c.scheme.Wss?, printed);
  }

  lemma RebuiltIsSame(c: Candidate)
    requires IsWebSocket(c)
    ensures var (host, port) := ParseHostPort(Printed(c.host, c.port, DefaultPort(c.scheme)), DefaultPort(c.scheme));
            NewCandidate(c.scheme, host, port) == c <==> (host, port) == (c.host, c.port)
  {
    var (host, port) := ParseHostPort(Printed(c.host, c.port, DefaultPort(c.scheme)), DefaultPort(c.scheme));
    assert NewCandidate(c.scheme, host, port).host == host && NewCandidate(c.scheme, host, port).port == port;
  }

  lemma PaddedIsExcluded(host: string, default: nat)
    requires Padded(host)
    ensures !Printable(host, default, default) || !NothingTrimmed(host, default, default)
  {
    assert host != "" ==> host[|host| - 1] in host;
  }

  lemma RebuildOfPadded(c: Candidate)
    requires IsWebSocket(c) && c.port == DefaultPort(c.scheme) && Padded(c.host)
    ensures BuildCandidates(ProbeUrl(c))[1] != c
  {
    var url := SchemePrefix(c.scheme.Wss?) + c.host;
    assert ProbeUrl(c) == url;
    TrimmedUrlDiffers(c.host, c.scheme.Wss?);
    var built := BuildCandidates(url)[1];
    assert built.host != c.host || built.scheme != c.scheme;
  }

  /** Rebuilding the candidates from a WebSocket candidate's probe URL ends in that
      candidate exactly when its host is printable and nothing of it is trimmed. */
  lemma RebuildExact(c: Candidate)
    requires IsWebSocket(c)
    ensures var default := DefaultPort(c.scheme);
            (BuildCandidates(ProbeUrl(c))[1] == c) ==
            (Printable(c.host, c.port, default) && NothingTrimmed(c.host, c.port, default))
  {
    var default := DefaultPort(c.scheme);
    if c.port == default && Padded(c.host) {
      RebuildOfPadded(c);
      PaddedIsExcluded(c.host, default);
    } else {
      RebuildOfUntrimmed(c);
      RebuiltIsSame(c);
      AuthorityRoundTrip(c.host, c.port, default);
      assert NothingTrimmed(c.host, c.port, default);
    }
  }

  lemma BracketedIsPrintable(authority: string, default: nat)
    requires IsPort(default) && Bracketed(authority)
    ensures var host := ParseBracketed(authority, default).0; Bracketed(host) && ClosesAtEnd(host)
  {
    var close := IndexOf(authority, ']');
    var host := authority[..close + 1];
    assert host[..close] == authority[..close] && host[close] == ']' && host[0] == authority[0];
    FirstAt(host, ']', close);
  }

  lemma PrefixNotBracketed(authority: string, host: string)
    requires !Bracketed(authority) && host <= authority
    ensures !Bracketed(host)
  {
    assert forall x :: x in host ==> x in authority;
    assert host != "" ==> host[0] == authority[0];
  }

  lemma PlainIsPrintable(authority: string, default: nat)
    requires IsPort(default) && !Bracketed(authority)
    ensures var (host, port) := ParsePlain(authority, default);
            !Bracketed(host) && (if port == default then !EndsInPort(host) else ':' !in host)
  {
    PrefixNotBracketed(authority, ParsePlain(authority, default).0);
    if CountOf(authority, ':') == 1 {
      OnlyColon(authority);
      var colon := IndexOf(authority, ':');
      assert ':' !in authority[..colon];
    }
  }

  lemma ParsedIsPrintable(input: string, default: nat)
    requires IsPort(default)
    ensures var (host, port) := ParseHostPort(input, default); Printable(host, port, default)
  {
    var authority := input[..IndexOf(input, '/')];
    assert '/' !in authority;
    assert forall x :: x in ParseHostPort(input, default).0 ==> x in authority;
    if Bracketed(authority) {
      BracketedIsPrintable(authority, default);
    } else {
      PlainIsPrintable(authority, default);
    }
  }

  /** For every base URL, building again from the WebSocket candidate it gives
      yields that candidate again, unless its host is empty or ends in padding;
      and the fallback, which is coded separately, is that candidate throughout. */
  lemma RebuildFromAnyBase(base: string)
    ensures var c := BuildCandidates(base)[1];
            && FallbackCandidate(base) == c
            && (BuildCandidates(ProbeUrl(c))[1] == c <==> NothingTrimmed(c.host, c.port, DefaultPort(c.scheme)))
            && (FallbackCandidate(ProbeUrl(c)) == c <==> NothingTrimmed(c.host, c.port, DefaultPort(c.scheme)))
  {
    var c := BuildCandidates(base)[1];
    ParsedIsPrintable(SplitScheme(TrimSlashes(Trim(base))).1, DefaultPort(c.scheme));
    RebuildExact(c);
    FallbackIsLast(base);
    FallbackIsLast(ProbeUrl(c));
  }

  /** A host without colons or slashes may still not read back, with any port. */
  lemma ColonFreeIsNotEnough(port: nat, default: nat)
    requires IsPort(port) && IsPort(default)
    ensures var host := "[a]b";
            ':' !in host && '/' !in host && ParseHostPort(Printed(host, port, default), default) != (host, port)
  {
    var host := "[a]b";
    AuthorityRoundTrip(host, port, default);
    assert host[0] == '[' && host[2] == ']';
    assert host[..2] == "[a";
    FirstAt(host, ']', 2);
  }

  /** The empty base URL gives a candidate that is not rebuilt. */
  lemma EmptyBaseIsNotRebuilt()
    ensures var c := BuildCandidates("")[1]; c.host == "" && BuildCandidates(ProbeUrl(c))[1] != c
  {
    NoScheme("");
    WholeAuthority("");
    RebuildFromAnyBase("");
  }

  // ----- what is built, and what it prints -----

  /** The four names tell the schemes apart, and the secure ones end in an `s` more. */
  lemma SchemeNames(a: Scheme, b: Scheme)
    ensures SchemeName(a) == SchemeName(b) ==> a == b
    ensures SchemeName(Grpcs) == SchemeName(Grpc) + "s" && SchemeName(Wss) == SchemeName(Ws) + "s"
    ensures ':' !in SchemeName(a) && SchemeName(a) != ""
  {
    assert SchemeName(a)[0] == if a.Grpcs? || a.Grpc? then 'g' else 'w';
    assert SchemeName(b)[0] == if b.Grpcs? || b.Grpc? then 'g' else 'w';
  }

  lemma {:induction false} FirstSeparator(name: string, rest: string)
    requires ':' !in name
    ensures FindText(name + "://" + rest, "://") == Some(|name|)
    ensures AfterScheme(name + "://" + rest) == rest
  {
    var s := name + "://" + rest;
    if name == "" {
      assert "://" <= s;
    } else {
      assert s[0] == name[0] && "://"[0] == ':';
      assert s[1..] == name[1..] + "://" + rest;
      FirstSeparator(name[1..], rest);
    }
    assert s[|name| + 3..] == rest;
  }

  /** A candidate's URL reads back: its scheme by name, and its host and port exactly
      where the host is printable. The probe URL has the same text after its scheme. */
  lemma UrlRoundTrip(scheme: Scheme, host: string, port: nat)
    requires IsPort(port)
    ensures var c := NewCandidate(scheme, host, port);
            && FindText(c.url, "://") == Some(|SchemeName(scheme)|) && SchemeName(scheme) <= c.url
            && (ParseHostPort(AfterScheme(c.url), DefaultPort(scheme)) == (host, port) <==>
                Printable(host, port, DefaultPort(scheme)))
            && AfterScheme(ProbeUrl(c)) == AfterScheme(c.url)
  {
    var c, printed := NewCandidate(scheme, host, port), Printed(host, port, DefaultPort(scheme));
    SchemeNames(scheme, scheme);
    FirstSeparator(SchemeName(scheme), printed);
    assert ProbeUrl(c) == (if scheme.Grpcs? || scheme.Wss? then "https" else "http") + "://" + printed;
    FirstSeparator(if scheme.Grpcs? || scheme.Wss? then "https" else "http", printed);
    AuthorityRoundTrip(host, port, DefaultPort(scheme));
  }

  lemma PlainHttpIff(trimmed: string)
    ensures SplitScheme(trimmed).0 <==> !("http://" <= trimmed)
  {
    assert "https://"[4] == 's' && "http://"[4] == ':';
    assert "https://" <= trimmed ==> trimmed[4] == "https://"[4];
    assert "http://" <= trimmed ==> trimmed[4] == "http://"[4];
  }

  predicate Secure(s: Scheme)
  {
    s.Grpcs? || s.Wss?
  }

  lemma ProbeScheme(c: Candidate)
    ensures SchemePrefix(Secure(c.scheme)) <= ProbeUrl(c)
  {
    assert ProbeUrl(c) == SchemePrefix(Secure(c.scheme)) + Printed(c.host, c.port, DefaultPort(c.scheme));
  }

  lemma AfterUrl(scheme: Scheme, host: string, port: nat)
    ensures AfterScheme(NewCandidate(scheme, host, port).url) == Printed(host, port, DefaultPort(scheme))
  {
    SchemeNames(scheme, scheme);
    FirstSeparator(SchemeName(scheme), Printed(host, port, DefaultPort(scheme)));
  }

  lemma PrintedAfter(front: string, host: string, port: nat, default: nat)
    ensures Printed(front + host, port, default) == front + Printed(host, port, default)
  {
    var digits := Decimal(port);
    assert front + host + ":" + digits == front + (host + ":" + digits);
  }

  lemma PairUrls(tls: bool, host: string, port: nat)
    ensures AfterScheme(NewCandidate(if tls then Grpcs else Grpc, "connectors-" + host, port).url) ==
              "connectors-" + AfterScheme(NewCandidate(if tls then Wss else Ws, host, port).url)
  {
    AfterUrl(if tls then Grpcs else Grpc, "connectors-" + host, port);
    AfterUrl(if tls then Wss else Ws, host, port);
    PrintedAfter("connectors-", host, port, if tls then 443 else 80);
  }

  lemma CandidateUrls(base: string)
    ensures AfterScheme(BuildCandidates(base)[0].url) == "connectors-" + AfterScheme(BuildCandidates(base)[1].url)
  {
    var second := BuildCandidates(base)[1];
    PairUrls(second.scheme.Wss?, second.host, second.port);
  }

  /** The two candidates of any base URL: TLS for both, unless the base says `http`;
      gRPC first, on the host with `connectors-` before it, then WebSocket on the host
      itself; the same port; and probes by the same HTTP scheme. */
  lemma CandidatePair(base: string)
    ensures var first, second := BuildCandidates(base)[0], BuildCandidates(base)[1];
            var tls := !("http://" <= TrimSlashes(Trim(base)));
            && first.scheme == (if tls then Grpcs else Grpc) && second.scheme == (if tls then Wss else Ws)
            && first.host == "connectors-" + second.host && first.port == second.port
            && first == NewCandidate(first.scheme, first.host, first.port)
            && second == NewCandidate(second.scheme, second.host, second.port)
            && SchemePrefix(tls) <= ProbeUrl(first) && SchemePrefix(tls) <= ProbeUrl(second)
            && AfterScheme(first.url) == "connectors-" + AfterScheme(second.url)
  {
    CandidateUrls(base);
    PlainHttpIff(TrimSlashes(Trim(base)));
    ProbeScheme(BuildCandidates(base)[0]);
    ProbeScheme(BuildCandidates(base)[1]);
  }

  /** A path after the authority is dropped. */
  lemma PathIsDropped(authority: string, tail: string, default: nat)
    requires IsPort(default) && '/' !in authority && (tail == "" || tail[0] == '/')
    ensures ParseHostPort(authority + tail, default) == ParseHostPort(authority, default)
  {
    var s := authority + tail;
    if tail == "" {
      assert s == authority;
    } else {
      assert s[|authority|] == '/' && s[..|authority|] == authority;
      FirstAt(s, '/', |authority|);
      WholeAuthority(authority);
    }
  }

  lemma PrintedHasNoSlash(host: string, port: nat, default: nat)
    requires '/' !in host
    ensures '/' !in Printed(host, port, default)
  {
  }

  lemma PrefixFound(s: string, p: string)
    requires ':' !in p
    ensures p + "://" <= s ==> FindText(s, "://") == Some(|p|) && s[..|p|] == p
  {
    if p + "://" <= s {
      var rest := s[|p| + 3..];
      assert s == p + "://" + rest;
      FirstSeparator(p, rest);
    }
  }

  lemma IsPrefixOfBase(name: string, rest: string, p: string)
    requires ':' !in name && ':' !in p
    ensures p + "://" <= name + "://" + rest <==> p == name
  {
    var s := name + "://" + rest;
    FirstSeparator(name, rest);
    PrefixFound(s, p);
    assert s[..|name|] == name && s[..|name| + 3] == name + "://";
  }

  lemma SchemeOfBase(name: string, rest: string)
    requires ':' !in name
    ensures SplitScheme(name + "://" + rest) == (name != "http", rest)
  {
    FirstSeparator(name, rest);
    IsPrefixOfBase(name, rest, "https");
    IsPrefixOfBase(name, rest, "http");
    assert "https" + "://" == "https://" && "http" + "://" == "http://";
    assert (name + "://" + rest)[|name| + 3..] == rest;
  }

  /** A base URL of any scheme, with any path after it, gives the host and the port it
      names, where nothing of it is padding. */
  lemma BaseNamesHost(name: string, host: string, port: nat, tail: string)
    requires IsPort(port) && ':' !in name && (tail == "" || tail[0] == '/')
    requires var default := if name == "http" then 80 else 443;
             var base := name + "://" + Printed(host, port, default) + tail;
             && Printable(host, port, default) && !IsSpace(base[0])
             && !IsSpace(base[|base| - 1]) && base[|base| - 1] != '/'
    ensures var default := if name == "http" then 80 else 443;
            var c := BuildCandidates(name + "://" + Printed(host, port, default) + tail)[1];
            (c.host, c.port) == (host, port)
  {
    var default := if name == "http" then 80 else 443;
    var authority := Printed(host, port, default);
    var base := name + "://" + authority + tail;
    UntrimmedUrl(base);
    assert base == name + "://" + (authority + tail);
    SchemeOfBase(name, authority + tail);
    PrintableHasNoSlash(host, port, default);
    PrintedHasNoSlash(host, port, default);
    PathIsDropped(authority, tail, default);
    AuthorityRoundTrip(host, port, default);
  }

  lemma PrintableHasNoSlash(host: string, port: nat, default: nat)
    requires Printable(host, port, default)
    ensures '/' !in host
  {
  }

  /** So does a base without a scheme, which is taken for one with TLS. */
  lemma BareBaseNamesHost(host: string, port: nat, tail: string)
    requires IsPort(port) && (tail == "" || tail[0] == '/')
    requires var base := Printed(host, port, 443) + tail;
             && Printable(host, port, 443) && base != "" && FindText(base, "://").None?
             && !IsSpace(base[0]) && !IsSpace(base[|base| - 1]) && base[|base| - 1] != '/'
    ensures BuildCandidates(Printed(host, port, 443) + tail)[1] == NewCandidate(Wss, host, port)
  {
    var authority := Printed(host, port, 443);
    var base := authority + tail;
    UntrimmedUrl(base);
    NoSeparator(base);
    PrintableHasNoSlash(host, port, 443);
    PrintedHasNoSlash(host, port, 443);
    PathIsDropped(authority, tail, 443);
    AuthorityRoundTrip(host, port, 443);
  }

  lemma NoSeparator(s: string)
    requires FindText(s, "://").None?
    ensures SplitScheme(s) == (true, s)
  {
    PrefixFound(s, "https");
    PrefixFound(s, "http");
    assert "https" + "://" == "https://" && "http" + "://" == "http://";
  }
}
