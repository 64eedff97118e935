/** Containment: whatever the archive and whatever the host refuses, pass 2
    touches nothing outside the staging root, through links or shared inodes. */
module BundleContainment {
  import opened Text
  import opened FileTree
  import opened BundleExtract

  ghost predicate Contained(fs: Fs, s: Staging, root: Path)
  {
    Staged(s.fs, root) && Untouched(fs, s.fs, root)
  }

  /** An empty, freshly made staging directory meets the invariant. */
  lemma FreshStage(fs: Fs, root: Path)
    requires WellFormed(fs) && IsDirAt(fs, root)
    requires forall p :: p in fs.nodes && root <= p ==> p == root
    ensures Staged(fs, root)
  {
  }

  lemma AcceptedTargetIsSafe(name: string)
    ensures RefuseUnsafePosixRel(name) == Proceed <==> SafeTarget(name) && !HasDriveLetter(name)
  {
  }

  lemma ComponentsKeepDotDot(name: string)
    ensures ".." in Components(name) <==> ".." in Split(name, '/')
  {
  }

  lemma ClearSpotContained(fs: Fs, root: Path, rel: seq<string>, fault: Fault)
    requires Staged(fs, root) && ".." !in rel
    ensures var r := ClearSpot(fs, root, rel, fault); Staged(r.fs, root) && Untouched(fs, r.fs, root)
  {
    MkdirAllContained(fs, root, Parent(rel));
    RemoveFileContained(MkdirAll(fs, root, Parent(rel)).fs, root, rel);
  }

  lemma StageFileContained(fs: Fs, root: Path, rel: seq<string>, content: Bytes, mode: Option<nat>, fault: Fault)
    requires Staged(fs, root) && ".." !in rel
    ensures Contained(fs, StageFile(fs, root, rel, content, mode, fault), root)
  {
    ClearSpotContained(fs, root, rel, fault);
    var spot := ClearSpot(fs, root, rel, fault).fs;
    WriteFileContained(spot, root, rel, content);
    var w := WriteFile(spot, root, rel, content).fs;
    UntouchedTransitive(fs, spot, w, root);
    if mode.Some? {
      ChmodContained(w, root, rel, mode.value % 0x1000);
      UntouchedTransitive(fs, w, Chmod(w, root, rel, mode.value % 0x1000), root);
    }
  }

  lemma StageLinkContained(fs: Fs, root: Path, rel: seq<string>, target: Option<string>, fault: Fault)
    requires Staged(fs, root) && ".." !in rel
    ensures Contained(fs, StageLink(fs, root, rel, target, fault), root)
  {
    ClearSpotContained(fs, root, rel, fault);
    if target.Some? && RefuseUnsafePosixRel(target.value) == Proceed {
      AcceptedTargetIsSafe(target.value);
      MakeSymlinkContained(ClearSpot(fs, root, rel, fault).fs, root, rel, target.value);
    }
  }

  lemma ReferentIsPlain(referent: string, prefix: seq<string>)
    requires RefuseUnsafePosixRel(referent) == Proceed && PathWithin(Components(referent), prefix)
    ensures ".." !in Components(referent)[|prefix|..]
  {
    ComponentsKeepDotDot(referent);
  }

  lemma LinkedContained(fs: Fs, root: Path, spot: Fs, from: seq<string>, rel: seq<string>)
    requires Staged(spot, root) && Untouched(fs, spot, root) && ".." !in from && ".." !in rel
    ensures var l := HardLink(spot, root, from, rel).fs; Staged(l, root) && Untouched(fs, l, root)
  {
    HardLinkContained(spot, root, from, rel);
    UntouchedTransitive(fs, spot, HardLink(spot, root, from, rel).fs, root);
  }

  lemma StageHardLinkContained(fs: Fs, root: Path, rel: seq<string>, referent: Option<string>, prefix: seq<string>,
                               fault: Fault)
    requires Staged(fs, root) && ".." !in rel
    ensures Contained(fs, StageHardLink(fs, root, rel, referent, prefix, fault), root)
  {
    ClearSpotContained(fs, root, rel, fault);
    if referent.Some? && RefuseUnsafePosixRel(referent.value) == Proceed
       && PathWithin(Components(referent.value), prefix) {
      ReferentIsPlain(referent.value, prefix);
      var from := Components(referent.value)[|prefix|..];
      LinkedContained(fs, root, ClearSpot(fs, root, rel, fault).fs, from, rel);
    }
  }

  lemma StageDirContained(fs: Fs, root: Path, rel: seq<string>, mode: nat, fault: Fault)
    requires Staged(fs, root) && ".." !in rel
    ensures Contained(fs, StageDir(fs, root, rel, mode, fault), root)
  {
    MkdirAllContained(fs, root, rel);
    ChmodContained(MkdirAll(fs, root, rel).fs, root, rel, mode % 0x1000);
  }

  lemma StageKindContained(fs: Fs, root: Path, e: TarEntry, rel: seq<string>, prefix: seq<string>)
    requires Staged(fs, root) && ".." !in rel && e.mode.Some?
    ensures Contained(fs, StageKind(fs, root, e, rel, prefix), root)
  {
    match e.kind
    case Directory => StageDirContained(fs, root, rel, e.mode.value, e.fault);
    case Regular(content) => StageFileContained(fs, root, rel, content, e.mode, e.fault);
    case SymlinkTo(target) => StageLinkContained(fs, root, rel, target, e.fault);
    case HardLinkTo(referent) => StageHardLinkContained(fs, root, rel, referent, prefix, e.fault);
    case OtherKind =>
  }

  lemma TarStepContained(fs: Fs, root: Path, e: TarEntry, prefix: seq<string>)
    requires Staged(fs, root)
    ensures Contained(fs, TarStep(fs, root, e, prefix), root)
  {
    var s := TarStep(fs, root, e, prefix);
    if s.fs != fs {
      var rel := TarPlace(e.path, prefix).rel;
      TargetIsPlain(e.path, prefix);
      StageKindContained(fs, root, e, rel, prefix);
      assert s == StageKind(fs, root, e, rel, prefix);
    } else {
      assert Untouched(fs, s.fs, root);
    }
  }

  lemma ZipStepContained(fs: Fs, root: Path, e: ZipEntry, prefix: string)
    requires Staged(fs, root)
    ensures Contained(fs, ZipStep(fs, root, e, prefix), root)
  {
    var place := ZipPlace(e.name, prefix);
    if place.Target? {
      ZipTargetIsPlain(e.name, prefix);
      match e.kind
      case ZipDir =>
      case ZipFile(content, mode) => StageFileContained(fs, root, place.rel, content, mode, e.fault);
      case ZipSymlink(target) => StageLinkContained(fs, root, place.rel, Some(target), e.fault);
    }
  }

  /** For every archive: nothing outside the staging root changes, refused or not. */
  lemma {:induction false} TarRunContained(fs: Fs, root: Path, entries: seq<TarEntry>, prefix: seq<string>)
    requires Staged(fs, root)
    ensures Contained(fs, TarRun(fs, root, entries, prefix), root)
    decreases |entries|
  {
    if entries != [] {
      TarStepContained(fs, root, entries[0], prefix);
      var s := TarStep(fs, root, entries[0], prefix);
      if s.verdict == Proceed {
        TarRunContained(s.fs, root, entries[1..], prefix);
        UntouchedTransitive(fs, s.fs, TarRun(s.fs, root, entries[1..], prefix).fs, root);
      }
    }
  }

  lemma {:induction false} ZipRunContained(fs: Fs, root: Path, entries: seq<ZipEntry>, prefix: string)
    requires Staged(fs, root)
    ensures Contained(fs, ZipRun(fs, root, entries, prefix), root)
    decreases |entries|
  {
    if entries != [] {
      ZipStepContained(fs, root, entries[0], prefix);
      var s := ZipStep(fs, root, entries[0], prefix);
      if s.verdict == Proceed {
        ZipRunContained(s.fs, root, entries[1..], prefix);
        UntouchedTransitive(fs, s.fs, ZipRun(s.fs, root, entries[1..], prefix).fs, root);
      }
    }
  }

  // ----- no entry is written through a link -----

  /** Walking one component further from where a plain path leads. */
  lemma {:induction false} WalkSnoc(fs: Fs, cur: Path, a: seq<string>, c: string, hops: nat)
    requires a != [] && PlainPath(a) && PlainName(c)
    requires var r := Walk(fs, cur, a, false, hops);
             r.At? ==> r.path !in fs.nodes || !fs.nodes[r.path].Symlink?
    ensures var r, w := Walk(fs, cur, a, false, hops), Walk(fs, cur, a + [c], false, hops);
            w.At? ==> r.At? && IsDirAt(fs, r.path) && w == At(r.path + [c])
    decreases hops, |a|, 0
  {
    var p := cur + [a[0]];
    assert a[0] in a;
    assert (a + [c])[1..] == a[1..] + [c];
    if |a| == 1 {
      assert a[1..] + [c] == [c];
    } else if p in fs.nodes {
      match fs.nodes[p]
      case Dir(_) =>
        assert forall x :: x in a[1..] ==> x in a;
        WalkSnoc(fs, p, a[1..], c, hops);
      case File(_) =>
      case Symlink(t) =>
        if hops > 0 {
          WalkThroughLink(fs, if IsAbsolute(t) then [] else cur, Split(t, '/'), a[1..], c, hops - 1);
        }
    }
  }

  /** The same below a link in the middle of the path, whose expansion is not plain. */
  lemma {:induction false} WalkThroughLink(fs: Fs, cur: Path, t: seq<string>, a: seq<string>, c: string, hops: nat)
    requires a != [] && PlainPath(a) && PlainName(c)
    requires var r := Walk(fs, cur, t + a, false, hops);
             r.At? ==> r.path !in fs.nodes || !fs.nodes[r.path].Symlink?
    ensures var r, w := Walk(fs, cur, t + a, false, hops), Walk(fs, cur, t + (a + [c]), false, hops);
            w.At? ==> r.At? && IsDirAt(fs, r.path) && w == At(r.path + [c])
    decreases hops, |t| + |a|, 1
  {
    if t == [] {
      assert t + a == a && t + (a + [c]) == a + [c];
      WalkSnoc(fs, cur, a, c, hops);
    } else {
      var p := cur + [t[0]];
      assert (t + a)[1..] == t[1..] + a && (t + (a + [c]))[1..] == t[1..] + (a + [c]);
      if t[0] == "" || t[0] == "." {
        WalkThroughLink(fs, cur, t[1..], a, c, hops);
      } else if t[0] == ".." {
        WalkThroughLink(fs, if cur == [] then [] else cur[..|cur| - 1], t[1..], a, c, hops);
      } else if p in fs.nodes {
        match fs.nodes[p]
        case Dir(_) => WalkThroughLink(fs, p, t[1..], a, c, hops);
        case File(_) =>
        case Symlink(u) =>
          if hops > 0 {
            var e := Split(u, '/');
            assert e + (t[1..] + a) == (e + t[1..]) + a && e + (t[1..] + (a + [c])) == (e + t[1..]) + (a + [c]);
            WalkThroughLink(fs, if IsAbsolute(u) then [] else cur, e + t[1..], a, c, hops - 1);
          }
      }
    }
  }

  /** Once no directory on its path is a link, a name is looked up at exactly
      the place it spells, or nowhere. */
  lemma {:induction false} NoWriteThrough(fs: Fs, root: Path, rel: seq<string>)
    requires PlainPath(rel) && rel != []
    requires !LinkOnPath(fs, root, Parent(rel))
    ensures var r := Locate(fs, root, rel); r.At? ==> r.path == root + rel
    decreases |rel|
  {
    var parent, c := Parent(rel), rel[|rel| - 1];
    assert rel == parent + [c] && c in rel;
    if parent == [] {
      assert rel == [c];
    } else {
      assert forall x :: x in parent ==> x in rel;
      NoWriteThrough(fs, root, parent);
      assert !IsLink(fs, root, parent);
      WalkSnoc(fs, root, parent, c, MAX_LINK_HOPS);
      assert root + parent + [c] == root + rel;
    }
  }
}
