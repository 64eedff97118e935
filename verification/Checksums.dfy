/** Deciding whether a downloaded asset matches its release's published checksums. */
module Checksums {
  import opened Text

  datatype Outcome = Verified | Failed(message: string) | NotFound

  /** A file name given a hash by one line of a checksum list. */
  datatype Entry = Entry(hash: string, name: string)

  /** Lines of a text: a line end is a newline with the carriage return before it. */
  function Lines(text: string): seq<string>
    decreases |text|
  {
    var i := IndexOf(text, '\n');
    if text == "" then []
    else if i == |text| then [text]
    else [StripReturn(text[..i])] + Lines(text[i + 1..])
  }

  function StripReturn(line: string): string
  {
    if line != "" && line[|line| - 1] == '\r' then line[..|line| - 1] else line
  }

  /** Length of the leading part without white space. */
  function TokenLength(s: string): (n: nat)
    ensures n <= |s| && (n < |s| ==> IsSpace(s[n]))
    ensures forall i :: 0 <= i < n ==> !IsSpace(s[i])
  {
    if s == "" || IsSpace(s[0]) then 0 else 1 + TokenLength(s[1..])
  }

  function TrimStars(s: string): (r: string)
    ensures r != "" ==> r[0] != '*'
    ensures s == "" || s[0] != '*' ==> r == s
  {
    if s != "" && s[0] == '*' then TrimStars(s[1..]) else s
  }

  function ReadLine(line: string): Option<Entry>
  {
    var n := TokenLength(line);
    if n == |line| then None else Some(Entry(line[..n], TrimStars(Trim(line[n + 1..]))))
  }

  predicate Names(line: string, asset: string)
  {
    ReadLine(line).Some? && ReadLine(line).value.name == asset
  }

  function HashOf(line: string): string
    requires ReadLine(line).Some?
  {
    ReadLine(line).value.hash
  }

  function Judge(expected: string, actual: string): Outcome
  {
    if actual == expected then Verified
    else Failed("SHA256 mismatch: expected " + expected + ", got " + actual)
  }

  /** First white-space separated token, empty when there is none. */
  function FirstToken(text: string): string
  {
    var t := TrimStart(text);
    t[..TokenLength(t)]
  }

  ghost predicate NamedBefore(lines: seq<string>, asset: string, i: nat)
    requires i <= |lines|
  {
    exists j :: 0 <= j < i && Names(lines[j], asset)
  }

  ghost predicate FirstNaming(lines: seq<string>, asset: string, i: nat)
  {
    i < |lines| && Names(lines[i], asset) && !NamedBefore(lines, asset, i)
  }

  function LinesOf(sums: Option<string>): seq<string>
  {
    if sums.Some? then Lines(sums.value) else []
  }

  function SidecarHash(sidecar: Option<string>): string
  {
    if sidecar.Some? then FirstToken(sidecar.value) else ""
  }

  /** The rule: the first line that names the asset decides; only when no line does,
      the side-car decides; and with neither there is no verdict. */
  ghost predicate Decides(sums: Option<string>, sidecar: Option<string>, asset: string, actual: string, r: Outcome)
  {
    var lines, hash := LinesOf(sums), SidecarHash(sidecar);
    && (forall i: nat :: FirstNaming(lines, asset, i) ==> r == Judge(HashOf(lines[i]), actual))
    && (!NamedBefore(lines, asset, |lines|) ==> r == if hash == "" then NotFound else Judge(hash, actual))
  }

  lemma OneFirst(lines: seq<string>, asset: string)
    ensures forall i: nat, j: nat :: FirstNaming(lines, asset, i) && FirstNaming(lines, asset, j) ==> i == j
    ensures forall i: nat :: FirstNaming(lines, asset, i) ==> NamedBefore(lines, asset, |lines|)
  {
  }

  lemma DecidedByLine(sums: Option<string>, sidecar: Option<string>, asset: string, actual: string, i: nat)
    requires FirstNaming(LinesOf(sums), asset, i)
    ensures Decides(sums, sidecar, asset, actual, Judge(HashOf(LinesOf(sums)[i]), actual))
  {
    OneFirst(LinesOf(sums), asset);
  }

  lemma DecidedBySidecar(sums: Option<string>, sidecar: Option<string>, asset: string, actual: string)
    requires !NamedBefore(LinesOf(sums), asset, |LinesOf(sums)|)
    ensures var hash := SidecarHash(sidecar);
            Decides(sums, sidecar, asset, actual, if hash == "" then NotFound else Judge(hash, actual))
  {
    OneFirst(LinesOf(sums), asset);
  }

  method MatchChecksums(sums: Option<string>, sidecar: Option<string>, asset: string, actual: string)
    returns (r: Outcome)
    ensures Decides(sums, sidecar, asset, actual, r)
  {
    var lines := LinesOf(sums);
    for i := 0 to |lines|
      invariant !NamedBefore(lines, asset, i)
    {
      var entry := ReadLine(lines[i]);
      if entry.Some? && entry.value.name == asset {
        DecidedByLine(sums, sidecar, asset, actual, i);
        r := Judge(entry.value.hash, actual);
        return;
      }
    }
    DecidedBySidecar(sums, sidecar, asset, actual);
    if sidecar.Some? {
      var expected := FirstToken(sidecar.value);
      if expected != "" {
        return Judge(expected, actual);
      }
    }
    return NotFound;
  }

  predicate InstallAllowed(checksum: Outcome)
  {
    checksum == Verified
  }

  lemma {:induction false} SomeFirst(lines: seq<string>, asset: string, n: nat)
    requires n <= |lines| && NamedBefore(lines, asset, n)
    ensures exists i: nat :: FirstNaming(lines, asset, i)
    decreases n
  {
    if NamedBefore(lines, asset, n - 1) {
      SomeFirst(lines, asset, n - 1);
    } else {
      assert FirstNaming(lines, asset, n - 1);
    }
  }

  /** The rule leaves no choice: it admits one outcome, and an asset is installed
      exactly when the first line naming it has the actual hash, or no line names it
      and the side-car's first token is that hash. */
  lemma InstalledExactlyWhen(sums: Option<string>, sidecar: Option<string>, asset: string, actual: string, r: Outcome)
    requires Decides(sums, sidecar, asset, actual, r)
    ensures var lines := LinesOf(sums);
            InstallAllowed(r) <==>
            if NamedBefore(lines, asset, |lines|)
            then exists i: nat :: FirstNaming(lines, asset, i) && HashOf(lines[i]) == actual
            else SidecarHash(sidecar) == actual != ""
    ensures forall other :: Decides(sums, sidecar, asset, actual, other) ==> other == r
  {
    var lines := LinesOf(sums);
    if NamedBefore(lines, asset, |lines|) {
      SomeFirst(lines, asset, |lines|);
      var i: nat :| FirstNaming(lines, asset, i);
      assert r == Judge(HashOf(lines[i]), actual);
      OneFirst(lines, asset);
    }
  }

  /** A mismatching line is final, whatever follows it and whatever the side-car says. */
  lemma MismatchIsFinal(head: seq<string>, line: string, asset: string, actual: string, sums: Option<string>,
                        sidecar: Option<string>, r: Outcome)
    requires head + [line] <= LinesOf(sums) && !NamedBefore(head, asset, |head|)
    requires Names(line, asset) && HashOf(line) != actual && Decides(sums, sidecar, asset, actual, r)
    ensures r.Failed?
  {
    var lines := LinesOf(sums);
    assert lines[|head|] == line;
    assert forall j :: 0 <= j < |head| ==> lines[j] == head[j];
    assert FirstNaming(lines, asset, |head|);
  }

  // ----- the first token of a side-car -----

  predicate AllSpaces(s: string)
  {
    forall i :: 0 <= i < |s| ==> IsSpace(s[i])
  }

  predicate NoSpaces(s: string)
  {
    forall i :: 0 <= i < |s| ==> !IsSpace(s[i])
  }

  /** `text` is white space, then the token, then its end; without a token it is all white space. */
  predicate Tokenized(text: string, pad: string, token: string, tail: string)
  {
    && text == pad + token + tail && AllSpaces(pad) && NoSpaces(token)
    && (tail != "" ==> IsSpace(tail[0])) && (token == "" ==> tail == "")
  }

  lemma {:induction false} TrimStartSplits(s: string) returns (pad: string)
    ensures s == pad + TrimStart(s) && AllSpaces(pad)
  {
    pad := "";
    if s != "" && IsSpace(s[0]) {
      pad := TrimStartSplits(s[1..]);
      pad := [s[0]] + pad;
    }
  }

  lemma {:induction false} TrimStartDrops(pad: string, rest: string)
    requires AllSpaces(pad) && (rest != "" ==> !IsSpace(rest[0]))
    ensures TrimStart(pad + rest) == rest
  {
    if pad == "" {
      assert pad + rest == rest;
    } else {
      assert (pad + rest)[1..] == pad[1..] + rest;
      TrimStartDrops(pad[1..], rest);
    }
  }

  lemma {:induction false} WholeToken(s: string)
    requires NoSpaces(s)
    ensures TokenLength(s) == |s|
  {
    if s != "" {
      WholeToken(s[1..]);
    }
  }

  lemma TokenOf(text: string, pad: string, token: string, tail: string)
    requires Tokenized(text, pad, token, tail)
    ensures FirstToken(text) == token
  {
    assert text == pad + (token + tail);
    TrimStartDrops(pad, token + tail);
    if tail == "" {
      assert token + tail == token;
      WholeToken(token);
    } else {
      TokenStops(token, tail);
    }
  }

  lemma TokenLengthIsClean(s: string)
    ensures NoSpaces(s[..TokenLength(s)])
    ensures s[TokenLength(s)..] != "" ==> IsSpace(s[TokenLength(s)..][0])
  {
  }

  /** A trimmed text is its token and what follows it. */
  lemma TrimmedSplits(rest: string)
    requires rest == "" || !IsSpace(rest[0])
    ensures var n := TokenLength(rest);
            rest == rest[..n] + rest[n..] && (rest[..n] == "" ==> rest[n..] == "")
  {
    TokenLengthIsClean(rest);
  }

  lemma Regroup(pad: string, token: string, tail: string)
    ensures pad + (token + tail) == pad + token + tail
  {
  }

  lemma TokenIsThere(text: string) returns (pad: string, tail: string)
    ensures Tokenized(text, pad, FirstToken(text), tail)
  {
    pad := TrimStartSplits(text);
    var rest := TrimStart(text);
    tail := rest[TokenLength(rest)..];
    TokenLengthIsClean(rest);
    TrimmedSplits(rest);
    Regroup(pad, FirstToken(text), tail);
  }

  /** The side-car's hash is the first stretch of text without white space. */
  lemma FirstTokenIff(text: string, token: string)
    ensures FirstToken(text) == token <==> exists pad, tail :: Tokenized(text, pad, token, tail)
  {
    var pad, tail := TokenIsThere(text);
    if p, t :| Tokenized(text, p, token, t) {
      TokenOf(text, p, token, t);
    }
  }

  // ----- lists as sha256sum prints them -----

  /** What stands between the hash and the name: one space, or the two characters of
      sha256sum's text or binary mode. */
  datatype Mark = Single | TextMode | BinaryMode

  /** A line of a list, ended by a newline or by a carriage return and a newline. */
  datatype Listed = Listed(hash: string, mark: Mark, name: string, crlf: bool)

  function MarkText(mark: Mark): (t: string)
    ensures t != "" && t[0] == ' '
  {
    match mark
    case Single => " "
    case TextMode => "  "
    case BinaryMode => " *"
  }

  predicate Printable(e: Listed)
  {
    && NoSpaces(e.hash)
    && '\n' !in e.name
    && (e.name != "" ==> !IsSpace(e.name[0]) && !IsSpace(e.name[|e.name| - 1]) && e.name[0] != '*')
  }

  function PrintLine(e: Listed): string
  {
    e.hash + MarkText(e.mark) + e.name
  }

  function PrintList(es: seq<Listed>): string
  {
    if es == [] then ""
    else PrintLine(es[0]) + (if es[0].crlf then "\r\n" else "\n") + PrintList(es[1..])
  }

  lemma {:induction false} TokenStops(a: string, b: string)
    requires NoSpaces(a) && b != "" && IsSpace(b[0])
    ensures TokenLength(a + b) == |a|
  {
    if a == "" {
      assert a + b == b;
    } else {
      assert (a + b)[1..] == a[1..] + b;
      TokenStops(a[1..], b);
    }
  }

  lemma TrimName(name: string, mark: Mark)
    requires name != "" ==> !IsSpace(name[0]) && !IsSpace(name[|name| - 1]) && name[0] != '*'
    ensures TrimStars(Trim(MarkText(mark)[1..] + name)) == name
  {
    var rest := MarkText(mark)[1..];
    var s := rest + name;
    match mark
    case Single =>
      assert s == name;
      assert TrimStart(s) == s && TrimEnd(s) == s;
    case TextMode =>
      assert s[1..] == name;
      assert TrimStart(s) == name && TrimEnd(name) == name;
    case BinaryMode =>
      assert s[1..] == name;
      assert TrimStart(s) == s && TrimEnd(s) == s;
  }

  lemma LineSplit(hash: string, tail: string)
    requires NoSpaces(hash) && tail != "" && IsSpace(tail[0])
    ensures ReadLine(hash + tail) == Some(Entry(hash, TrimStars(Trim(tail[1..]))))
  {
    TokenStops(hash, tail);
    assert (hash + tail)[|hash| + 1..] == tail[1..] && (hash + tail)[..|hash|] == hash;
  }

  /** A printed line reads back as its entry. */
  lemma LineRoundTrip(e: Listed)
    requires Printable(e)
    ensures ReadLine(PrintLine(e)) == Some(Entry(e.hash, e.name))
  {
    var tail := MarkText(e.mark) + e.name;
    assert PrintLine(e) == e.hash + tail && tail[1..] == MarkText(e.mark)[1..] + e.name;
    LineSplit(e.hash, tail);
    TrimName(e.name, e.mark);
  }

  lemma PrintedIsOneLine(e: Listed)
    requires Printable(e)
    ensures var line := PrintLine(e); '\n' !in line && line != "" && line[|line| - 1] != '\r'
  {
    var line, mark := PrintLine(e), MarkText(e.mark);
    assert forall i :: 0 <= i < |e.hash| ==> !IsSpace(e.hash[i]);
    assert '\n' !in e.hash && '\n' !in mark;
    assert line[|line| - 1] == if e.name == "" then mark[|mark| - 1] else e.name[|e.name| - 1];
  }

  lemma FirstLine(line: string, rest: string)
    requires '\n' !in line
    ensures Lines(line + "\n" + rest) == [StripReturn(line)] + Lines(rest)
  {
    var text := line + "\n" + rest;
    assert text[|line|] == '\n' && text[..|line|] == line && text[|line| + 1..] == rest;
    assert IndexOf(text, '\n') == |line| by {
      assert forall i :: 0 <= i < |line| ==> text[i] == line[i];
    }
  }

  /** Either line end is taken off. */
  lemma LinesCons(line: string, crlf: bool, rest: string)
    requires '\n' !in line && line != "" && line[|line| - 1] != '\r'
    ensures Lines(line + (if crlf then "\r\n" else "\n") + rest) == [line] + Lines(rest)
  {
    if crlf {
      assert line + "\r\n" + rest == (line + "\r") + "\n" + rest;
      FirstLine(line + "\r", rest);
      assert (line + "\r")[..|line|] == line;
    } else {
      FirstLine(line, rest);
    }
  }

  /** A printed list reads back line by line. */
  lemma {:induction false} ListRoundTrip(es: seq<Listed>)
    requires forall i :: 0 <= i < |es| ==> Printable(es[i])
    ensures var lines := Lines(PrintList(es));
            && |lines| == |es|
            && forall i :: 0 <= i < |es| ==> ReadLine(lines[i]) == Some(Entry(es[i].hash, es[i].name))
  {
    if es != [] {
      LineRoundTrip(es[0]);
      ListRoundTrip(es[1..]);
      ListCons(es);
    }
  }

  lemma ListCons(es: seq<Listed>)
    requires es != [] && Printable(es[0])
    ensures Lines(PrintList(es)) == [PrintLine(es[0])] + Lines(PrintList(es[1..]))
  {
    PrintedIsOneLine(es[0]);
    LinesCons(PrintLine(es[0]), es[0].crlf, PrintList(es[1..]));
  }

  ghost predicate FirstListed(es: seq<Listed>, asset: string, i: nat)
  {
    i < |es| && es[i].name == asset && forall j :: 0 <= j < i ==> es[j].name != asset
  }

  /** The decision for a list in sha256sum's format, by its entries. */
  lemma ListedDecision(es: seq<Listed>, sidecar: Option<string>, asset: string, actual: string, r: Outcome)
    requires forall i :: 0 <= i < |es| ==> Printable(es[i])
    requires Decides(Some(PrintList(es)), sidecar, asset, actual, r)
    ensures forall i: nat :: FirstListed(es, asset, i) ==> r == Judge(es[i].hash, actual)
    ensures (forall i :: 0 <= i < |es| ==> es[i].name != asset) ==>
              r == if SidecarHash(sidecar) == "" then NotFound else Judge(SidecarHash(sidecar), actual)
  {
    var lines := LinesOf(Some(PrintList(es)));
    ListRoundTrip(es);
    NamedAlike(lines, es, asset);
  }

  lemma NamedAlike(lines: seq<string>, es: seq<Listed>, asset: string)
    requires |lines| == |es|
    requires forall i :: 0 <= i < |es| ==> ReadLine(lines[i]) == Some(Entry(es[i].hash, es[i].name))
    ensures forall i: nat :: FirstListed(es, asset, i) ==>
              FirstNaming(lines, asset, i) && HashOf(lines[i]) == es[i].hash
    ensures (forall i :: 0 <= i < |es| ==> es[i].name != asset) ==> !NamedBefore(lines, asset, |lines|)
  {
    assert forall i :: 0 <= i < |es| ==> (Names(lines[i], asset) <==> es[i].name == asset);
  }

  // ----- lists that do not end in a newline -----

  lemma ListConsTail(es: seq<Listed>, tail: string)
    requires es != [] && Printable(es[0])
    ensures Lines(PrintList(es) + tail) == [PrintLine(es[0])] + Lines(PrintList(es[1..]) + tail)
  {
    var line, end := PrintLine(es[0]), if es[0].crlf then "\r\n" else "\n";
    assert PrintList(es) + tail == line + end + (PrintList(es[1..]) + tail);
    PrintedIsOneLine(es[0]);
    LinesCons(line, es[0].crlf, PrintList(es[1..]) + tail);
  }

  lemma OneMoreLine(line: string, a: seq<string>, b: seq<string>)
    ensures [line] + (a + b) == [line] + a + b
  {
  }

  lemma {:induction false} LinesOfTail(es: seq<Listed>, tail: string)
    requires forall i :: 0 <= i < |es| ==> Printable(es[i])
    ensures Lines(PrintList(es) + tail) == Lines(PrintList(es)) + Lines(tail)
  {
    if es == [] {
      NothingBefore(tail);
    } else {
      ListConsTail(es, tail);
      ListCons(es);
      LinesOfTail(es[1..], tail);
      OneMoreLine(PrintLine(es[0]), Lines(PrintList(es[1..])), Lines(tail));
    }
  }

  lemma NothingBefore(tail: string)
    ensures Lines(PrintList([]) + tail) == Lines(PrintList([])) + Lines(tail)
  {
    assert PrintList([]) + tail == tail;
    assert Lines("") == [];
  }

  /** The last line counts, also without a line end. */
  lemma UnendedLine(es: seq<Listed>, last: Listed)
    requires (forall i :: 0 <= i < |es| ==> Printable(es[i])) && Printable(last)
    ensures Lines(PrintList(es) + PrintLine(last)) == Lines(PrintList(es)) + [PrintLine(last)]
  {
    PrintedIsOneLine(last);
    LinesOfTail(es, PrintLine(last));
  }

  /** A line gives a hash to a name exactly when there is white space in it. */
  lemma ReadLineIff(line: string)
    ensures ReadLine(line).Some? <==> !NoSpaces(line)
  {
    if NoSpaces(line) {
      WholeToken(line);
    }
  }
}
