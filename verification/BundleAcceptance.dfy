/** Which archives the extractors accept, entry by entry: what makes them refuse one,
    which entries are passed over, and what pass 1 takes for the binary. */
module BundleAcceptance {
  import opened Text
  import opened FileTree
  import opened BundleExtract
  import opened BundleContainment
  import opened BundleContent
  import opened BundleAgreement

  // ----- names -----

  lemma {:induction false} FilterKeeps(parts: seq<string>, drop: string, x: string)
    requires x != drop
    ensures x in Filter(parts, drop) <==> x in parts
  {
  }

  /** A tar name is let through exactly when it is relative and free of `..`. */
  lemma RelPathAcceptedIff(path: string)
    ensures RefuseUnsafeRelPath(path) == Proceed <==> SafeTarget(path)
  {
    FilterKeeps(Split(path, '/'), "", "..");
    FilterKeeps(Filter(Split(path, '/'), ""), ".", "..");
  }

  // ----- a violation refuses the whole archive -----

  /** What an entry says that pass 2 does not refuse: names and link targets that are
      safe, a kind that is known, and no call that failed (removing what is in the
      way may fail). Entries outside the bundle only need a safe name. */
  predicate TarSound(e: TarEntry, prefix: seq<string>)
  {
    && !e.fault.ReadFault? && SafeTarget(e.path)
    && (TarPlace(e.path, prefix).Target? ==>
          && e.mode.Some? && !e.fault.MkdirFault? && (e.fault.WriteFault? ==> e.kind.Directory?)
          && match e.kind
             case Directory => true
             case Regular(_) => true
             case SymlinkTo(target) => target.Some? && SafeTarget(target.value) && !HasDriveLetter(target.value)
             case HardLinkTo(referent) =>
               && referent.Some? && SafeTarget(referent.value) && !HasDriveLetter(referent.value)
               && PathWithin(Components(referent.value), prefix)
             case OtherKind => false)
  }

  predicate ZipSound(e: ZipEntry, prefix: string)
  {
    && !e.fault.ReadFault?
    && (!e.kind.ZipDir? ==> SafeTarget(Slashed(e.name)) && !HasDriveLetter(Slashed(e.name)))
    && (!e.kind.ZipDir? && ZipPlace(e.name, prefix).Target? ==>
          && !e.fault.MkdirFault? && !e.fault.WriteFault?
          && (e.kind.ZipSymlink? ==> SafeTarget(e.kind.target) && !HasDriveLetter(e.kind.target)))
  }

  lemma KindSound(fs: Fs, root: Path, e: TarEntry, rel: seq<string>, prefix: seq<string>)
    requires e.mode.Some? && StageKind(fs, root, e, rel, prefix).verdict == Proceed && TarPlace(e.path, prefix).Target?
    requires !e.fault.ReadFault? && SafeTarget(e.path)
    ensures TarSound(e, prefix)
  {
    match e.kind
    case Directory =>
    case Regular(_) =>
    case SymlinkTo(target) => if target.Some? { AcceptedTargetIsSafe(target.value); }
    case HardLinkTo(referent) => if referent.Some? { AcceptedTargetIsSafe(referent.value); }
    case OtherKind =>
  }

  lemma TarStepSound(fs: Fs, root: Path, e: TarEntry, prefix: seq<string>)
    requires TarStep(fs, root, e, prefix).verdict == Proceed
    ensures TarSound(e, prefix)
  {
    RelPathAcceptedIff(e.path);
    var place := TarPlace(e.path, prefix);
    if place.Target? {
      KindSound(fs, root, e, place.rel, prefix);
    }
  }

  /** Fail closed: a run that is completed met no violation, in any entry. */
  lemma {:induction false} TarFailsClosed(fs: Fs, root: Path, entries: seq<TarEntry>, prefix: seq<string>)
    requires TarRun(fs, root, entries, prefix).verdict == Proceed
    ensures forall e :: e in entries ==> TarSound(e, prefix)
    decreases |entries|
  {
    if entries != [] {
      TarStepSound(fs, root, entries[0], prefix);
      TarFailsClosed(TarStep(fs, root, entries[0], prefix).fs, root, entries[1..], prefix);
      assert forall e :: e in entries <==> e == entries[0] || e in entries[1..];
    }
  }

  lemma ZipStepSound(fs: Fs, root: Path, e: ZipEntry, prefix: string)
    requires ZipStep(fs, root, e, prefix).verdict == Proceed
    ensures ZipSound(e, prefix)
  {
    if !e.kind.ZipDir? {
      AcceptedTargetIsSafe(Slashed(e.name));
      if e.kind.ZipSymlink? {
        AcceptedTargetIsSafe(e.kind.target);
      }
    }
  }

  lemma {:induction false} ZipFailsClosed(fs: Fs, root: Path, entries: seq<ZipEntry>, prefix: string)
    requires ZipRun(fs, root, entries, prefix).verdict == Proceed
    ensures forall e :: e in entries ==> ZipSound(e, prefix)
    decreases |entries|
  {
    if entries != [] {
      ZipStepSound(fs, root, entries[0], prefix);
      ZipFailsClosed(ZipStep(fs, root, entries[0], prefix).fs, root, entries[1..], prefix);
      assert forall e :: e in entries <==> e == entries[0] || e in entries[1..];
    }
  }

  // ----- zip directory entries -----

  function WithoutDirs(entries: seq<ZipEntry>): (kept: seq<ZipEntry>)
    ensures |kept| <= |entries|
    ensures forall e :: e in kept <==> e in entries && !e.kind.ZipDir?
  {
    if entries == [] then []
    else if entries[0].kind.ZipDir? then WithoutDirs(entries[1..])
    else [entries[0]] + WithoutDirs(entries[1..])
  }

  /** A directory entry that the archive reader cannot return stops the run like any other. */
  predicate DirsReadable(entries: seq<ZipEntry>)
  {
    forall i :: 0 <= i < |entries| && entries[i].kind.ZipDir? ==> !entries[i].fault.ReadFault?
  }

  lemma DirStep(fs: Fs, root: Path, e: ZipEntry, prefix: string)
    requires e.kind.ZipDir? && !e.fault.ReadFault?
    ensures ZipStep(fs, root, e, prefix) == Staging(fs, Proceed)
  {
  }

  /** Directory entries of any name change nothing: the archive is accepted, and
      staged, as it would be without them. */
  lemma {:induction false} ZipSkipsDirs(fs: Fs, root: Path, entries: seq<ZipEntry>, prefix: string)
    requires DirsReadable(entries)
    ensures ZipRun(fs, root, entries, prefix) == ZipRun(fs, root, WithoutDirs(entries), prefix)
    decreases |entries|
  {
    if entries != [] {
      var e, rest := entries[0], entries[1..];
      if e.kind.ZipDir? {
        DirStep(fs, root, e, prefix);
        ZipSkipsDirs(fs, root, rest, prefix);
      } else {
        var s := ZipStep(fs, root, e, prefix);
        ZipSkipsDirs(s.fs, root, rest, prefix);
        assert WithoutDirs(entries)[0] == e && WithoutDirs(entries)[1..] == WithoutDirs(rest);
      }
    }
  }

  lemma DirPrefix(entries: seq<ZipEntry>, binary: string)
    requires entries != [] && entries[0].kind.ZipDir? && !entries[0].fault.ReadFault?
    ensures ZipPrefix(entries, binary) == ZipPrefix(entries[1..], binary)
  {
  }

  lemma SamePrefix(e: ZipEntry, a: seq<ZipEntry>, b: seq<ZipEntry>, binary: string)
    requires ZipPrefix(a, binary) == ZipPrefix(b, binary)
    ensures ZipPrefix([e] + a, binary) == ZipPrefix([e] + b, binary)
  {
    assert ([e] + a)[1..] == a && ([e] + b)[1..] == b;
  }

  /** Pass 1 passes over them too. */
  lemma {:induction false} ZipPrefixSkipsDirs(entries: seq<ZipEntry>, binary: string)
    requires DirsReadable(entries)
    ensures ZipPrefix(entries, binary) == ZipPrefix(WithoutDirs(entries), binary)
  {
    if entries != [] {
      var e, rest := entries[0], entries[1..];
      ZipPrefixSkipsDirs(rest, binary);
      if e.kind.ZipDir? {
        DirPrefix(entries, binary);
      } else {
        assert entries == [e] + rest;
        SamePrefix(e, rest, WithoutDirs(rest), binary);
      }
    }
  }

  /** The zip extractor stages the fold of the archive's files and links, whatever
      directory entries stand between them. */
  lemma ZipRefinesFold(fs: Fs, root: Path, entries: seq<ZipEntry>, items: seq<Item>, prefix: seq<string>)
    requires DirsReadable(entries) && WithoutDirs(entries) == ZipOf(items)
    requires Represents(fs, root, map[], {}) && ConflictFree(TarOf(items), prefix)
    requires PlainPath(prefix) && forall i :: i in items ==> Portable(i.names)
    ensures var s := ZipRun(fs, root, entries, Join(prefix, '/'));
            && s.verdict == Proceed
            && Represents(s.fs, root, BundlePieces(TarOf(items), prefix), BundleDirs(TarOf(items), prefix))
  {
    ZipSkipsDirs(fs, root, entries, Join(prefix, '/'));
    ExtractionRefinesFold(fs, root, TarOf(items), prefix);
    RunsAgree(fs, root, items, prefix);
  }

  // ----- what pass 1 takes for the binary, in any archive -----

  /** Entry `i` is the first that pass 1 of tar takes: a regular file of that name,
      with every name up to it safe. */
  ghost predicate FirstTarBinary(entries: seq<TarEntry>, binary: string, i: nat)
  {
    && i < |entries| && IsBinaryEntry(entries[i], binary)
    && (forall j :: 0 <= j <= i ==> !entries[j].fault.ReadFault? && SafeTarget(entries[j].path))
    && forall j :: 0 <= j < i ==> !IsBinaryEntry(entries[j], binary)
  }

  lemma TarShift(entries: seq<TarEntry>, binary: string, i: nat)
    requires entries != []
    ensures FirstTarBinary(entries, binary, i + 1) <==>
              && !entries[0].fault.ReadFault? && SafeTarget(entries[0].path) && !IsBinaryEntry(entries[0], binary)
              && FirstTarBinary(entries[1..], binary, i)
  {
    var rest := entries[1..];
    assert forall j :: 0 <= j < |rest| ==> rest[j] == entries[j + 1];
    assert forall j :: 0 < j < |entries| ==> entries[j] == rest[j - 1];
  }

  lemma TarPrefixHead(entries: seq<TarEntry>, binary: string)
    requires entries != []
    ensures var e := entries[0];
            if e.fault.ReadFault? || !SafeTarget(e.path) then TarPrefix(entries, binary).Stop?
            else if IsBinaryEntry(e, binary) then TarPrefix(entries, binary) == Found(Parent(Components(e.path)))
            else TarPrefix(entries, binary) == TarPrefix(entries[1..], binary)
  {
    RelPathAcceptedIff(entries[0].path);
  }

  lemma TarPrefixAtHead(entries: seq<TarEntry>, binary: string)
    requires FirstTarBinary(entries, binary, 0)
    ensures TarPrefix(entries, binary) == Found(Parent(Components(entries[0].path)))
  {
    TarPrefixHead(entries, binary);
  }

  /** Only regular files count; directories, links and other files are passed over,
      but not an unsafe name. */
  lemma {:induction false} TarPrefixFound(entries: seq<TarEntry>, binary: string, i: nat)
    requires FirstTarBinary(entries, binary, i)
    ensures TarPrefix(entries, binary) == Found(Parent(Components(entries[i].path)))
    decreases |entries|
  {
    if i == 0 {
      TarPrefixAtHead(entries, binary);
    } else {
      TarPrefixHead(entries, binary);
      assert entries[1..][i - 1] == entries[i];
      TarShift(entries, binary, i - 1);
      TarPrefixFound(entries[1..], binary, i - 1);
    }
  }

  lemma {:induction false} TarPrefixIff(entries: seq<TarEntry>, binary: string)
    ensures TarPrefix(entries, binary).Found? <==> exists i: nat :: FirstTarBinary(entries, binary, i)
    decreases |entries|
  {
    if i: nat :| FirstTarBinary(entries, binary, i) {
      TarPrefixFound(entries, binary, i);
    }
    if entries != [] && TarPrefix(entries, binary).Found? {
      TarPrefixHead(entries, binary);
      if IsBinaryEntry(entries[0], binary) {
        assert FirstTarBinary(entries, binary, 0);
      } else {
        TarPrefixIff(entries[1..], binary);
        var k: nat :| FirstTarBinary(entries[1..], binary, k);
        TarShift(entries, binary, k);
      }
    }
  }

  predicate IsZipBinary(e: ZipEntry, binary: string)
  {
    e.kind.ZipFile? && (BaseName(Slashed(e.name)) == binary || BaseName(Slashed(e.name)) == binary + ".exe")
  }

  predicate ZipReadable(e: ZipEntry)
  {
    && !e.fault.ReadFault?
    && (e.kind.ZipFile? ==> SafeTarget(Slashed(e.name)) && !HasDriveLetter(Slashed(e.name)))
  }

  ghost predicate FirstZipBinary(entries: seq<ZipEntry>, binary: string, i: nat)
  {
    && i < |entries| && IsZipBinary(entries[i], binary)
    && (forall j :: 0 <= j <= i ==> ZipReadable(entries[j]))
    && forall j :: 0 <= j < i ==> !IsZipBinary(entries[j], binary)
  }

  lemma ZipShift(entries: seq<ZipEntry>, binary: string, i: nat)
    requires entries != []
    ensures FirstZipBinary(entries, binary, i + 1) <==>
              && ZipReadable(entries[0]) && !IsZipBinary(entries[0], binary)
              && FirstZipBinary(entries[1..], binary, i)
  {
    var rest := entries[1..];
    assert forall j :: 0 <= j < |rest| ==> rest[j] == entries[j + 1];
    assert forall j :: 0 < j < |entries| ==> entries[j] == rest[j - 1];
  }

  lemma ZipPrefixHead(entries: seq<ZipEntry>, binary: string)
    requires entries != []
    ensures var e := entries[0];
            if !ZipReadable(e) then ZipPrefix(entries, binary).Stop?
            else if IsZipBinary(e, binary) then ZipPrefix(entries, binary) == Found(DirName(Slashed(e.name)))
            else ZipPrefix(entries, binary) == ZipPrefix(entries[1..], binary)
  {
    AcceptedTargetIsSafe(Slashed(entries[0].name));
  }

  /** Of zip, a file of either name; links and directories are passed over, whatever
      their names. */
  lemma {:induction false} ZipPrefixFound(entries: seq<ZipEntry>, binary: string, i: nat)
    requires FirstZipBinary(entries, binary, i)
    ensures ZipPrefix(entries, binary) == Found(DirName(Slashed(entries[i].name)))
    decreases |entries|
  {
    ZipPrefixHead(entries, binary);
    if i > 0 {
      ZipShift(entries, binary, i - 1);
      ZipPrefixFound(entries[1..], binary, i - 1);
    }
  }

  lemma {:induction false} ZipPrefixIff(entries: seq<ZipEntry>, binary: string)
    ensures ZipPrefix(entries, binary).Found? <==> exists i: nat :: FirstZipBinary(entries, binary, i)
    decreases |entries|
  {
    if i: nat :| FirstZipBinary(entries, binary, i) {
      ZipPrefixFound(entries, binary, i);
    }
    if entries != [] && ZipPrefix(entries, binary).Found? {
      ZipPrefixHead(entries, binary);
      if IsZipBinary(entries[0], binary) {
        assert FirstZipBinary(entries, binary, 0);
      } else {
        ZipPrefixIff(entries[1..], binary);
        var k: nat :| FirstZipBinary(entries[1..], binary, k);
        ZipShift(entries, binary, k);
      }
    }
  }

  lemma {:induction false} JoinSplit(s: string, sep: char)
    ensures Join(Split(s, sep), sep) == s
  {
    if s != "" {
      JoinSplit(s[1..], sep);
      var rest := Split(s[1..], sep);
      if s[0] == sep {
        assert ([""] + rest)[1..] == rest;
      } else {
        assert ([[s[0]] + rest[0]] + rest[1..])[1..] == rest[1..];
      }
    }
  }

  /** A zip name is its directory, a slash and its last part, or only the last part. */
  lemma NameSplits(name: string)
    ensures '/' !in BaseName(name)
    ensures name == if '/' in name then DirName(name) + "/" + BaseName(name) else BaseName(name)
    ensures '/' !in name ==> DirName(name) == ""
  {
    var parts := Split(name, '/');
    var front, last := parts[..|parts| - 1], parts[|parts| - 1];
    SplitPartsClean(name, '/');
    assert last in parts;
    JoinSplit(name, '/');
    if front == [] {
      assert parts == [last];
    } else {
      assert parts == front + [last];
      JoinAppend(front, [last]);
      assert name[|Join(front, '/')|] == '/';
    }
    if '/' !in name {
      SplitWhole(name, '/');
    }
  }

  // ----- names that begin with `./` -----

  lemma DottedComponents(names: seq<string>)
    requires Portable(names)
    ensures Components("./" + Join(names, '/')) == ["."] + names
    ensures RefuseUnsafeRelPath("./" + Join(names, '/')) == Proceed
  {
    var n := Join(names, '/');
    assert "./" + n == "." + ['/'] + n;
    SplitPiece(".", n, '/');
    JoinedParts(names);
    FilterNothing(names, "");
    FilterNothing(names, ".");
    assert Split("./" + n, '/') == ["."] + names && (["."] + names)[1..] == names;
  }

  lemma DottedWithin(names: seq<string>, prefix: seq<string>)
    ensures PathWithin(["."] + names, ["."] + prefix) <==> names != [] && PathWithin(names, prefix)
    ensures PathWithin(names, prefix) && names != [] ==> (["."] + names)[|["."] + prefix|..] == names[|prefix|..]
  {
    var all, pre := ["."] + names, ["."] + prefix;
    assert all[1..] == names && pre[1..] == prefix;
    if pre < all {
      assert prefix == all[1..|pre|] == names[..|prefix|];
    }
    if prefix <= names {
      assert all[..|pre|] == ["."] + names[..|prefix|] == pre;
    }
  }

  /** An archive made of `./` names is staged as the same archive without them, also
      when the binary's own directory was written with one. */
  lemma TarDotIsIgnored(names: seq<string>, prefix: seq<string>)
    requires Portable(names) && PlainPath(prefix)
    ensures TarPlace("./" + Join(names, '/'), ["."] + prefix) == TarPlace(Join(names, '/'), prefix)
    ensures TarPlace("./" + Join(names, '/'), []) == Target(names)
  {
    DottedComponents(names);
    PortableAccepted(names);
    DottedWithin(names, prefix);
    FilterNothing(names, ".");
    var all := ["."] + names;
    assert all[1..] == names && all[0..] == all;
    assert Filter(all, ".") == names;
  }

  /** The entry `./` for the archive's own root is passed over where the binary's
      directory was written with a dot, and refuses an archive where it was not. */
  lemma RootEntry(fs: Fs, root: Path, e: TarEntry)
    requires e.path == "./" && e.fault.NoFault?
    ensures TarStep(fs, root, e, ["."]) == Staging(fs, Proceed)
    ensures TarStep(fs, root, e, []) == Staging(fs, Refuse(OutsideStage))
  {
    assert "./" == "." + ['/'] + "";
    SplitPiece(".", "", '/');
    var parts := [".", ""];
    assert Split("./", '/') == parts;
    assert parts[1..] == [""] && [""][1..] == [];
    assert Filter(parts, "") == ["."] && Filter(["."], ".") == [];
    assert Components("./") == ["."];
    assert ["."][0..] == ["."];
  }
}
