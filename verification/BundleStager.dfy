/** The extraction loops as the program runs them, updating the tree in place. */
module BundleStager {
  import opened Text
  import opened FileTree
  import opened BundleExtract
  import opened BundleContainment

  class Stager {
    var fs: Fs
    const root: Path

    constructor (fs: Fs, root: Path)
      ensures this.fs == fs && this.root == root
    {
      this.fs := fs;
      this.root := root;
    }

    /** The directory walk from the target's parent up to the staging root. */
    method EnsureNoSymlinkAncestor(rel: seq<string>) returns (clear: bool)
      requires rel != []
      ensures clear <==> !LinkOnPath(fs, root, Parent(rel))
    {
      var cur := Parent(rel);
      while true
        invariant LinkOnPath(fs, root, Parent(rel)) <==> LinkOnPath(fs, root, cur)
        decreases |cur|
      {
        if IsLink(fs, root, cur) {
          return false;
        }
        if cur == [] {
          return true;
        }
        cur := cur[..|cur| - 1];
      }
    }

    method ClearTarget(rel: seq<string>, fault: Fault) returns (ok: bool)
      modifies this
      ensures Done(fs, ok) == ClearSpot(old(fs), root, rel, fault)
    {
      if fault.MkdirFault? {
        return false;
      }
      var up := MkdirAll(fs, root, Parent(rel));
      fs := up.fs;
      if up.ok && !fault.RemoveFault? {
        fs := RemoveFile(fs, root, rel);
      }
      return up.ok;
    }

    method PutFile(rel: seq<string>, content: Bytes, mode: Option<nat>, fault: Fault) returns (v: Verdict)
      modifies this
      ensures Staging(fs, v) == StageFile(old(fs), root, rel, content, mode, fault)
    {
      var ok := ClearTarget(rel, fault);
      if !ok || fault.WriteFault? {
        return Refuse(IoFailed);
      }
      var w := WriteFile(fs, root, rel, content);
      fs := w.fs;
      if !w.ok {
        return Refuse(IoFailed);
      }
      if mode.Some? {
        fs := Chmod(fs, root, rel, mode.value % 0x1000);
      }
      return Proceed;
    }

    method PutLink(rel: seq<string>, target: Option<string>, fault: Fault) returns (v: Verdict)
      modifies this
      ensures Staging(fs, v) == StageLink(old(fs), root, rel, target, fault)
    {
      var ok := ClearTarget(rel, fault);
      if !ok {
        return Refuse(IoFailed);
      }
      if target.None? {
        return Refuse(NoTarget);
      }
      v := RefuseUnsafePosixRel(target.value);
      if v.Refuse? {
        return;
      }
      var l := MakeSymlink(fs, root, rel, target.value);
      fs := l.fs;
      v := if l.ok && !fault.WriteFault? then Proceed else Refuse(IoFailed);
    }

    method PutHardLink(rel: seq<string>, referent: Option<string>, prefix: seq<string>, fault: Fault)
      returns (v: Verdict)
      modifies this
      ensures Staging(fs, v) == StageHardLink(old(fs), root, rel, referent, prefix, fault)
    {
      if referent.None? {
        return Refuse(NoTarget);
      }
      v := RefuseUnsafePosixRel(referent.value);
      if v.Refuse? {
        return;
      }
      var comps := Components(referent.value);
      if !PathWithin(comps, prefix) {
        return Refuse(LinkOutsideBundle);
      }
      var from := comps[|prefix|..];
      if !Exists(fs, root, from) {
        return Refuse(LinkNotStaged);
      }
      var ok := ClearTarget(rel, fault);
      if !ok {
        return Refuse(IoFailed);
      }
      var l := HardLink(fs, root, from, rel);
      fs := l.fs;
      v := if l.ok && !fault.WriteFault? then Proceed else Refuse(IoFailed);
    }

    method PutDir(rel: seq<string>, mode: nat, fault: Fault) returns (v: Verdict)
      modifies this
      ensures Staging(fs, v) == StageDir(old(fs), root, rel, mode, fault)
    {
      if fault.MkdirFault? {
        return Refuse(IoFailed);
      }
      var d := MkdirAll(fs, root, rel);
      fs := d.fs;
      if !d.ok {
        return Refuse(IoFailed);
      }
      fs := Chmod(fs, root, rel, mode % 0x1000);
      return Proceed;
    }

    method ExtractTarEntry(e: TarEntry, prefix: seq<string>) returns (v: Verdict)
      modifies this
      ensures Staging(fs, v) == TarStep(old(fs), root, e, prefix)
    {
      if e.fault.ReadFault? {
        return Refuse(IoFailed);
      }
      match TarPlace(e.path, prefix)
      case Skip =>
        return Proceed;
      case Refused(why) =>
        return Refuse(why);
      case Target(rel) =>
        TargetIsPlain(e.path, prefix);
        var clear := EnsureNoSymlinkAncestor(rel);
        if !clear {
          return Refuse(ThroughLink);
        }
        if e.mode.None? {
          return Refuse(NoMode);
        }
        match e.kind
        case Directory => v := PutDir(rel, e.mode.value, e.fault);
        case Regular(content) => v := PutFile(rel, content, e.mode, e.fault);
        case SymlinkTo(target) => v := PutLink(rel, target, e.fault);
        case HardLinkTo(referent) => v := PutHardLink(rel, referent, prefix, e.fault);
        case OtherKind => return Refuse(Unsupported);
    }

    /** Pass 2 of the tar extractor. */
    method ExtractTarInto(entries: seq<TarEntry>, prefix: seq<string>) returns (v: Verdict)
      modifies this
      ensures Staging(fs, v) == TarRun(old(fs), root, entries, prefix)
      ensures old(Staged(fs, root)) ==> Staged(fs, root) && Untouched(old(fs), fs, root)
    {
      var i := 0;
      while i < |entries|
        invariant 0 <= i <= |entries|
        invariant TarRun(old(fs), root, entries, prefix) == TarRun(fs, root, entries[i..], prefix)
      {
        assert entries[i..][1..] == entries[i + 1..];
        v := ExtractTarEntry(entries[i], prefix);
        if v.Refuse? {
          if old(Staged(fs, root)) { TarRunContained(old(fs), root, entries, prefix); }
          return;
        }
        i := i + 1;
      }
      v := Proceed;
      if old(Staged(fs, root)) { TarRunContained(old(fs), root, entries, prefix); }
    }

    method ExtractZipEntry(e: ZipEntry, prefix: string) returns (v: Verdict)
      modifies this
      ensures Staging(fs, v) == ZipStep(old(fs), root, e, prefix)
    {
      if e.fault.ReadFault? {
        return Refuse(IoFailed);
      }
      if e.kind.ZipDir? {
        return Proceed;
      }
      match ZipPlace(e.name, prefix)
      case Skip =>
        return Proceed;
      case Refused(why) =>
        return Refuse(why);
      case Target(rel) =>
        ZipTargetIsPlain(e.name, prefix);
        var clear := EnsureNoSymlinkAncestor(rel);
        if !clear {
          return Refuse(ThroughLink);
        }
        match e.kind
        case ZipFile(content, mode) => v := PutFile(rel, content, mode, e.fault);
        case ZipSymlink(target) => v := PutLink(rel, Some(target), e.fault);
    }

    /** Pass 2 of the zip extractor. */
    method ExtractZipInto(entries: seq<ZipEntry>, prefix: string) returns (v: Verdict)
      modifies this
      ensures Staging(fs, v) == ZipRun(old(fs), root, entries, prefix)
      ensures old(Staged(fs, root)) ==> Staged(fs, root) && Untouched(old(fs), fs, root)
    {
      var i := 0;
      while i < |entries|
        invariant 0 <= i <= |entries|
        invariant ZipRun(old(fs), root, entries, prefix) == ZipRun(fs, root, entries[i..], prefix)
      {
        assert entries[i..][1..] == entries[i + 1..];
        v := ExtractZipEntry(entries[i], prefix);
        if v.Refuse? {
          if old(Staged(fs, root)) { ZipRunContained(old(fs), root, entries, prefix); }
          return;
        }
        i := i + 1;
      }
      v := Proceed;
      if old(Staged(fs, root)) { ZipRunContained(old(fs), root, entries, prefix); }
    }
  }
}
