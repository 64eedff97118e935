/** Pass 1 and pass 2 of the bundle extractors: which entries of an archive are
    staged, where, and which archives are refused. A zip and a tar archive are
    held to the same containment contract. */
module BundleExtract {
  import opened Text
  import opened FileTree

  // ----- names and refusals -----

  datatype Why =
    | AbsolutePath | ParentComponent | DriveLetter | ThroughLink | OutsideStage | NoMode | NoTarget
    | LinkOutsideBundle | LinkNotStaged | Unsupported | IoFailed | BinaryNotFound

  datatype Verdict = Proceed | Refuse(why: Why)

  /** `Path::components`: empty and `.` components drop out, except a leading `.` */
  function Components(path: string): seq<string>
  {
    var parts := Split(path, '/');
    var kept := Filter(Filter(parts, ""), ".");
    if parts[0] == "." then ["."] + kept else kept
  }

  function RefuseUnsafeRelPath(path: string): Verdict
  {
    if IsAbsolute(path) then Refuse(AbsolutePath)
    else if ".." in Components(path) then Refuse(ParentComponent)
    else Proceed
  }

  predicate IsLetter(c: char)
  {
    'a' <= c <= 'z' || 'A' <= c <= 'Z'
  }

  predicate HasDriveLetter(name: string)
  {
    |name| >= 2 && IsLetter(name[0]) && name[1] == ':'
  }

  function RefuseUnsafePosixRel(name: string): Verdict
  {
    if IsAbsolute(name) then Refuse(AbsolutePath)
    else if HasDriveLetter(name) then Refuse(DriveLetter)
    else if ".." in Split(name, '/') then Refuse(ParentComponent)
    else Proceed
  }

  /** Strictly below `prefix`, component by component; the empty prefix holds everything. */
  predicate PathWithin(p: seq<string>, prefix: seq<string>)
  {
    prefix == [] || prefix < p
  }

  predicate ZipStrWithin(name: string, prefix: string)
  {
    prefix == "" || (|name| > |prefix| && StartsWith(name, prefix) && name[|prefix|] == '/')
  }

  function Slashed(name: string): (s: string)
    ensures |s| == |name|
    ensures forall i :: 0 <= i < |name| ==> s[i] == if name[i] == '\\' then '/' else name[i]
  {
    if name == "" then "" else [if name[0] == '\\' then '/' else name[0]] + Slashed(name[1..])
  }

  // ----- archives -----

  /** A failure of the host during one entry. `RemoveFault` is the one the
      extractors ignore. */
  datatype Fault = NoFault | ReadFault | MkdirFault | RemoveFault | WriteFault

  datatype TarKind =
    | Directory
    | Regular(content: Bytes)
    | SymlinkTo(target: Option<string>)
    | HardLinkTo(referent: Option<string>)
    | OtherKind

  datatype TarEntry = TarEntry(path: string, mode: Option<nat>, kind: TarKind, fault: Fault)

  datatype ZipKind = ZipDir | ZipFile(content: Bytes, unixMode: Option<nat>) | ZipSymlink(target: string)

  datatype ZipEntry = ZipEntry(name: string, kind: ZipKind, fault: Fault)

  /** Where an entry goes: nowhere, nowhere with the whole archive refused, or
      to a path of plain components below the staging root. */
  datatype Place = Skip | Refused(why: Why) | Target(rel: seq<string>)

  function Landing(rel: seq<string>): Place
  {
    if rel == [] then Skip
    else if Filter(rel, ".") == [] then Refused(OutsideStage)
    else Target(Filter(rel, "."))
  }

  /** The source repeats the name check on the stripped path; it cannot fail
      there, because the stripped path is a suffix of the checked one. */
  function TarPlace(path: string, prefix: seq<string>): Place
  {
    var verdict := RefuseUnsafeRelPath(path);
    if verdict.Refuse? then Refused(verdict.why)
    else if !PathWithin(Components(path), prefix) then Skip
    else Landing(Components(path)[|prefix|..])
  }

  function ZipPlace(name: string, prefix: string): Place
  {
    var n := Slashed(name);
    var verdict := RefuseUnsafePosixRel(n);
    if verdict.Refuse? then Refused(verdict.why)
    else if !ZipStrWithin(n, prefix) then Skip
    else Landing(Filter(Split(if prefix == "" then n else n[|prefix| + 1..], '/'), ""))
  }

  predicate PlainName(c: string)
  {
    c != "" && c != "." && c != ".." && '/' !in c
  }

  predicate PlainPath(rel: seq<string>)
  {
    forall c :: c in rel ==> PlainName(c)
  }

  lemma TargetIsPlain(path: string, prefix: seq<string>)
    ensures var r := TarPlace(path, prefix); r.Target? ==> r.rel != [] && PlainPath(r.rel)
  {
    SplitPartsClean(path, '/');
    var comps := Components(path);
    assert forall c :: c in comps ==> c != "" && '/' !in c;
    if |prefix| <= |comps| {
      assert forall c :: c in comps[|prefix|..] ==> c in comps;
    }
  }

  lemma ZipTargetIsPlain(name: string, prefix: string)
    ensures var r := ZipPlace(name, prefix); r.Target? ==> r.rel != [] && PlainPath(r.rel)
  {
    var n := Slashed(name);
    if !RefuseUnsafePosixRel(n).Refuse? && ZipStrWithin(n, prefix) {
      var tail := if prefix == "" then n else n[|prefix| + 1..];
      SplitPartsClean(tail, '/');
      if prefix != "" {
        assert n == prefix + ['/'] + tail;
        SplitTail(prefix, tail, '/');
      }
    }
  }

  /** The parts after a separator are parts of the whole string. */
  lemma {:induction false} SplitTail(a: string, b: string, sep: char)
    ensures forall c :: c in Split(b, sep) ==> c in Split(a + [sep] + b, sep)
  {
    var s := a + [sep] + b;
    if a == "" {
      SplitPiece(a, b, sep);
    } else if sep !in a {
      SplitPiece(a, b, sep);
    } else {
      var i := IndexOf(a, sep);
      SplitPiece(a[..i], a[i + 1..] + [sep] + b, sep);
      assert s == a[..i] + [sep] + (a[i + 1..] + [sep] + b);
      SplitTail(a[i + 1..], b, sep);
    }
  }

  // ----- staging one entry -----

  datatype Staging = Staging(fs: Fs, verdict: Verdict)

  /** Any of the directories from the staging root down to `rel` is a link. */
  predicate LinkOnPath(fs: Fs, root: Path, rel: seq<string>)
    decreases |rel|
  {
    IsLink(fs, root, rel) || (rel != [] && LinkOnPath(fs, root, rel[..|rel| - 1]))
  }

  function Parent(rel: seq<string>): seq<string>
  {
    if rel == [] then [] else rel[..|rel| - 1]
  }

  /** Make the parents of `rel`, then clear a file or link that is in the way;
      a failing removal is ignored. */
  function ClearSpot(fs: Fs, root: Path, rel: seq<string>, fault: Fault): Done
  {
    var up := MkdirAll(fs, root, Parent(rel));
    if fault.MkdirFault? then Done(fs, false)
    else if !up.ok || fault.RemoveFault? then up
    else Done(RemoveFile(up.fs, root, rel), true)
  }

  function StageFile(fs: Fs, root: Path, rel: seq<string>, content: Bytes, mode: Option<nat>, fault: Fault): Staging
  {
    var spot := ClearSpot(fs, root, rel, fault);
    if !spot.ok || fault.WriteFault? then Staging(spot.fs, Refuse(IoFailed))
    else
      var w := WriteFile(spot.fs, root, rel, content);
      if !w.ok then Staging(w.fs, Refuse(IoFailed))
      else Staging(if mode.Some? then Chmod(w.fs, root, rel, mode.value % 0x1000) else w.fs, Proceed)
  }

  function StageLink(fs: Fs, root: Path, rel: seq<string>, target: Option<string>, fault: Fault): Staging
  {
    var spot := ClearSpot(fs, root, rel, fault);
    if !spot.ok then Staging(spot.fs, Refuse(IoFailed))
    else if target.None? then Staging(spot.fs, Refuse(NoTarget))
    else if RefuseUnsafePosixRel(target.value).Refuse? then Staging(spot.fs, RefuseUnsafePosixRel(target.value))
    else
      var l := MakeSymlink(spot.fs, root, rel, target.value);
      Staging(l.fs, if l.ok && !fault.WriteFault? then Proceed else Refuse(IoFailed))
  }

  function StageHardLink(fs: Fs, root: Path, rel: seq<string>, referent: Option<string>, prefix: seq<string>,
                         fault: Fault): Staging
  {
    if referent.None? then Staging(fs, Refuse(NoTarget))
    else if RefuseUnsafePosixRel(referent.value).Refuse? then Staging(fs, RefuseUnsafePosixRel(referent.value))
    else
      var comps := Components(referent.value);
      if !PathWithin(comps, prefix) then Staging(fs, Refuse(LinkOutsideBundle))
      else
        var from := comps[|prefix|..];
        if !Exists(fs, root, from) then Staging(fs, Refuse(LinkNotStaged))
        else
          var spot := ClearSpot(fs, root, rel, fault);
          if !spot.ok then Staging(spot.fs, Refuse(IoFailed))
          else
            var l := HardLink(spot.fs, root, from, rel);
            Staging(l.fs, if l.ok && !fault.WriteFault? then Proceed else Refuse(IoFailed))
  }

  function StageDir(fs: Fs, root: Path, rel: seq<string>, mode: nat, fault: Fault): Staging
  {
    var d := MkdirAll(fs, root, rel);
    if fault.MkdirFault? then Staging(fs, Refuse(IoFailed))
    else if !d.ok then Staging(d.fs, Refuse(IoFailed))
    else Staging(Chmod(d.fs, root, rel, mode % 0x1000), Proceed)
  }

  /** What a placed tar entry does, by its kind. */
  function StageKind(fs: Fs, root: Path, e: TarEntry, rel: seq<string>, prefix: seq<string>): Staging
    requires e.mode.Some?
  {
    match e.kind
    case Directory => StageDir(fs, root, rel, e.mode.value, e.fault)
    case Regular(content) => StageFile(fs, root, rel, content, e.mode, e.fault)
    case SymlinkTo(target) => StageLink(fs, root, rel, target, e.fault)
    case HardLinkTo(referent) => StageHardLink(fs, root, rel, referent, prefix, e.fault)
    case OtherKind => Staging(fs, Refuse(Unsupported))
  }

  function TarStep(fs: Fs, root: Path, e: TarEntry, prefix: seq<string>): Staging
  {
    if e.fault.ReadFault? then Staging(fs, Refuse(IoFailed))
    else match TarPlace(e.path, prefix)
      case Skip => Staging(fs, Proceed)
      case Refused(why) => Staging(fs, Refuse(why))
      case Target(rel) =>
        if LinkOnPath(fs, root, Parent(rel)) then Staging(fs, Refuse(ThroughLink))
        else if e.mode.None? then Staging(fs, Refuse(NoMode))
        else StageKind(fs, root, e, rel, prefix)
  }

  function ZipStep(fs: Fs, root: Path, e: ZipEntry, prefix: string): Staging
  {
    if e.fault.ReadFault? then Staging(fs, Refuse(IoFailed))
    else if e.kind.ZipDir? then Staging(fs, Proceed)
    else match ZipPlace(e.name, prefix)
      case Skip => Staging(fs, Proceed)
      case Refused(why) => Staging(fs, Refuse(why))
      case Target(rel) =>
        if LinkOnPath(fs, root, Parent(rel)) then Staging(fs, Refuse(ThroughLink))
        else match e.kind
          case ZipFile(content, mode) => StageFile(fs, root, rel, content, mode, e.fault)
          case ZipSymlink(target) => StageLink(fs, root, rel, Some(target), e.fault)
  }

  /** Pass 2: the first refusal ends it. */
  function TarRun(fs: Fs, root: Path, entries: seq<TarEntry>, prefix: seq<string>): Staging
    decreases |entries|
  {
    if entries == [] then Staging(fs, Proceed)
    else
      var s := TarStep(fs, root, entries[0], prefix);
      if s.verdict.Refuse? then s else TarRun(s.fs, root, entries[1..], prefix)
  }

  function ZipRun(fs: Fs, root: Path, entries: seq<ZipEntry>, prefix: string): Staging
    decreases |entries|
  {
    if entries == [] then Staging(fs, Proceed)
    else
      var s := ZipStep(fs, root, entries[0], prefix);
      if s.verdict.Refuse? then s else ZipRun(s.fs, root, entries[1..], prefix)
  }

  // ----- pass 1: the directory of the binary -----

  datatype Search<T> = Found(prefix: T) | Stop(why: Why)

  function TarPrefix(entries: seq<TarEntry>, binary: string): Search<seq<string>>
  {
    if entries == [] then Stop(BinaryNotFound)
    else
      var e := entries[0];
      var comps := Components(e.path);
      if e.fault.ReadFault? then Stop(IoFailed)
      else if RefuseUnsafeRelPath(e.path).Refuse? then Stop(RefuseUnsafeRelPath(e.path).why)
      else if e.kind.Regular? && comps != [] && comps[|comps| - 1] != "." && comps[|comps| - 1] == binary
      then Found(comps[..|comps| - 1])
      else TarPrefix(entries[1..], binary)
  }

  /** The last '/'-separated part of a name, and what stands before it. */
  function BaseName(name: string): string
  {
    var parts := Split(name, '/');
    parts[|parts| - 1]
  }

  function DirName(name: string): string
  {
    var parts := Split(name, '/');
    Join(parts[..|parts| - 1], '/')
  }

  function ZipPrefix(entries: seq<ZipEntry>, binary: string): Search<string>
  {
    if entries == [] then Stop(BinaryNotFound)
    else
      var e := entries[0];
      var n := Slashed(e.name);
      if e.fault.ReadFault? then Stop(IoFailed)
      else if !e.kind.ZipFile? then ZipPrefix(entries[1..], binary)
      else if RefuseUnsafePosixRel(n).Refuse? then Stop(RefuseUnsafePosixRel(n).why)
      else if BaseName(n) == binary || BaseName(n) == binary + ".exe" then Found(DirName(n))
      else ZipPrefix(entries[1..], binary)
  }
}
