/** What a completed pass 2 has staged: the binary that pass 1 found, and, for
    archives without conflicts, exactly the last content of each path. */
module BundleContent {
  import opened Text
  import opened FileTree
  import opened BundleExtract
  import opened BundleContainment

  // ----- the binary is staged as a plain entry -----

  ghost predicate LeafAt(fs: Fs, p: Path)
  {
    p in fs.nodes && !fs.nodes[p].Dir?
  }

  /** Entries other than `spot` are still there and still (not) directories. */
  ghost predicate KeepsKinds(fs: Fs, fs': Fs, spot: Path)
  {
    forall p :: p in fs.nodes && p != spot ==> p in fs'.nodes && (fs.nodes[p].Dir? <==> fs'.nodes[p].Dir?)
  }

  /** Only directories were added. */
  ghost predicate AddsDirs(fs: Fs, fs': Fs)
  {
    && (forall p :: p in fs.nodes ==> p in fs'.nodes && fs.nodes[p] == fs'.nodes[p])
    && (forall p :: p in fs'.nodes && p !in fs.nodes ==> fs'.nodes[p].Dir?)
    && fs.inodes == fs'.inodes && fs.nextIno == fs'.nextIno
  }

  lemma {:induction false} MkdirAllAddsDirs(fs: Fs, root: Path, rel: seq<string>)
    ensures AddsDirs(fs, MkdirAll(fs, root, rel).fs)
    decreases |rel|
  {
    if Mkdir(fs, root, rel).NoParent? && rel != [] {
      MkdirAllAddsDirs(fs, root, rel[..|rel| - 1]);
    }
  }

  /** A path below real directories is looked up at the place it spells. */
  lemma {:induction false} WalkDirs(fs: Fs, root: Path, rel: seq<string>, k: nat, follow: bool, hops: nat)
    requires PlainPath(rel) && k < |rel|
    requires forall j :: k <= j < |rel| ==> IsDirAt(fs, root + rel[..j])
    ensures Walk(fs, root + rel[..k], rel[k..], follow, hops) ==
              Walk(fs, root + rel[..|rel| - 1], rel[|rel| - 1..], follow, hops)
    decreases |rel| - k
  {
    if k < |rel| - 1 {
      assert rel[k] in rel;
      assert root + rel[..k] + [rel[k]] == root + rel[..k + 1];
      assert rel[k..][1..] == rel[k + 1..];
      WalkDirs(fs, root, rel, k + 1, follow, hops);
    }
  }

  lemma {:induction false} DirsAbove(fs: Fs, root: Path, rel: seq<string>, j: nat)
    requires Rooted(fs, root) && root + rel in fs.nodes && j < |rel|
    ensures IsDirAt(fs, root + rel[..j])
    decreases |rel| - j
  {
    assert root + rel[..|rel| - 1] + [rel[|rel| - 1]] == root + rel;
    if j < |rel| - 1 {
      assert IsDirAt(fs, root + rel[..|rel| - 1]);
      DirsAbove(fs, root, rel[..|rel| - 1], j);
      assert rel[..|rel| - 1][..j] == rel[..j];
    }
  }

  ghost predicate NoNewLink(fs: Fs, fs': Fs)
  {
    forall p :: p in fs'.nodes && fs'.nodes[p].Symlink? ==> p in fs.nodes && fs.nodes[p].Symlink?
  }

  lemma LinkWasThere(fs: Fs, fs': Fs, root: Path, rel: seq<string>)
    requires Rooted(fs, root) && IsDirAt(fs, root) && NoNewLink(fs, fs') && PlainPath(rel) && rel != []
    requires !LinkOnPath(fs', root, Parent(rel))
    ensures IsLink(fs', root, rel) ==> IsLink(fs, root, rel)
  {
    NoWriteThrough(fs', root, rel);
    if IsLink(fs', root, rel) {
      assert root + rel in fs.nodes;
      forall j | 0 <= j < |rel| ensures IsDirAt(fs, root + rel[..j]) { DirsAbove(fs, root, rel, j); }
      WalkDirs(fs, root, rel, 0, false, MAX_LINK_HOPS);
      assert root + rel[..0] == root && rel[0..] == rel;
      assert rel[|rel| - 1] in rel;
      assert root + rel[..|rel| - 1] + [rel[|rel| - 1]] == root + rel;
    }
  }

  lemma {:induction false} NoNewLinks(fs: Fs, fs': Fs, root: Path, rel: seq<string>)
    requires Rooted(fs, root) && IsDirAt(fs, root) && NoNewLink(fs, fs') && PlainPath(rel)
    requires !LinkOnPath(fs, root, rel)
    ensures !LinkOnPath(fs', root, rel)
    decreases |rel|
  {
    if rel != [] {
      assert forall x :: x in Parent(rel) ==> x in rel;
      NoNewLinks(fs, fs', root, Parent(rel));
      LinkWasThere(fs, fs', root, rel);
    }
  }

  /** After the spot is cleared, only the spot itself can be gone. */
  lemma ClearSpotKeeps(fs: Fs, root: Path, rel: seq<string>, fault: Fault)
    requires Staged(fs, root) && PlainPath(rel) && rel != [] && !LinkOnPath(fs, root, Parent(rel))
    ensures var r := ClearSpot(fs, root, rel, fault).fs;
            && KeepsKinds(fs, r, root + rel)
            && var l := Locate(r, root, rel); l.At? ==> l.path == root + rel
  {
    var up := MkdirAll(fs, root, Parent(rel)).fs;
    MkdirAllAddsDirs(fs, root, Parent(rel));
    assert forall x :: x in Parent(rel) ==> x in rel;
    NoNewLinks(fs, up, root, Parent(rel));
    NoWriteThrough(up, root, rel);
    NoWriteThrough(fs, root, rel);
    var r := RemoveFile(up, root, rel);
    NoNewLinks(fs, r, root, Parent(rel));
    NoWriteThrough(r, root, rel);
  }

  lemma WriteFileKeeps(fs: Fs, root: Path, rel: seq<string>, content: Bytes, spot: Path)
    ensures KeepsKinds(fs, WriteFile(fs, root, rel, content).fs, spot)
  {
  }

  lemma ChmodKeeps(fs: Fs, root: Path, rel: seq<string>, mode: nat, spot: Path)
    ensures KeepsKinds(fs, Chmod(fs, root, rel, mode), spot)
    ensures LeafAt(fs, spot) ==> LeafAt(Chmod(fs, root, rel, mode), spot)
  {
  }

  lemma WrittenIsLeaf(spot: Fs, root: Path, b: string, content: Bytes)
    requires PlainName(b) && IsDirAt(spot, root)
    requires var l := Locate(spot, root, [b]); l.At? ==> l.path == root + [b]
    requires WriteFile(spot, root, [b], content).ok
    ensures LeafAt(WriteFile(spot, root, [b], content).fs, root + [b])
  {
    assert IsDirAt(spot, root + [b]) ==> Walk(spot, root + [b], [], true, MAX_LINK_HOPS) == Resolve(spot, root, [b]);
  }

  lemma KindAtLeaf(fs: Fs, root: Path, e: TarEntry, prefix: seq<string>, b: string)
    requires Staged(fs, root) && PlainName(b) && e.mode.Some? && !LinkOnPath(fs, root, [])
    requires StageKind(fs, root, e, [b], prefix).verdict == Proceed
    requires e.kind.Directory? ==> LeafAt(fs, root + [b])
    ensures LeafAt(StageKind(fs, root, e, [b], prefix).fs, root + [b])
  {
    var rel := [b];
    assert Parent(rel) == [];
    ClearSpotKeeps(fs, root, rel, e.fault);
    var spot := ClearSpot(fs, root, rel, e.fault).fs;
    match e.kind
    case Directory =>
      MkdirAllAddsDirs(fs, root, rel);
      ChmodKeeps(MkdirAll(fs, root, rel).fs, root, rel, e.mode.value % 0x1000, root + rel);
    case Regular(content) =>
      WrittenIsLeaf(spot, root, b, content);
      ChmodKeeps(WriteFile(spot, root, rel, content).fs, root, rel, e.mode.value % 0x1000, root + rel);
    case SymlinkTo(target) =>
    case HardLinkTo(referent) =>
    case OtherKind =>
  }

  /** An entry staged at `b` leaves a file or a link there. */
  lemma StagedAtLeaf(fs: Fs, root: Path, e: TarEntry, prefix: seq<string>, b: string)
    requires Staged(fs, root) && PlainName(b)
    requires TarPlace(e.path, prefix) == Target([b])
    requires TarStep(fs, root, e, prefix).verdict == Proceed
    requires e.kind.Directory? ==> LeafAt(fs, root + [b])
    ensures LeafAt(TarStep(fs, root, e, prefix).fs, root + [b])
  {
    assert Parent([b]) == [];
    KindAtLeaf(fs, root, e, prefix, b);
  }

  lemma KindElsewhere(fs: Fs, root: Path, e: TarEntry, rel: seq<string>, prefix: seq<string>, at: Path)
    requires Staged(fs, root) && PlainPath(rel) && rel != [] && e.mode.Some? && !LinkOnPath(fs, root, Parent(rel))
    requires LeafAt(fs, at) && at != root + rel
    ensures LeafAt(StageKind(fs, root, e, rel, prefix).fs, at)
  {
    ClearSpotKeeps(fs, root, rel, e.fault);
    var spot := ClearSpot(fs, root, rel, e.fault).fs;
    assert LeafAt(spot, at);
    match e.kind
    case Directory =>
      MkdirAllAddsDirs(fs, root, rel);
      ChmodKeeps(MkdirAll(fs, root, rel).fs, root, rel, e.mode.value % 0x1000, at);
    case Regular(content) =>
      var w := WriteFile(spot, root, rel, content).fs;
      WriteFileKeeps(spot, root, rel, content, root + rel);
      ChmodKeeps(w, root, rel, e.mode.value % 0x1000, at);
    case SymlinkTo(target) =>
    case HardLinkTo(referent) =>
    case OtherKind =>
  }

  /** No entry staged elsewhere disturbs a file or link at the top level. */
  lemma StagedElsewhere(fs: Fs, root: Path, e: TarEntry, prefix: seq<string>, b: string)
    requires Staged(fs, root) && PlainName(b) && LeafAt(fs, root + [b])
    requires TarPlace(e.path, prefix) != Target([b])
    ensures LeafAt(TarStep(fs, root, e, prefix).fs, root + [b])
  {
    var place := TarPlace(e.path, prefix);
    if place.Target? && !LinkOnPath(fs, root, Parent(place.rel)) && e.mode.Some? {
      TargetIsPlain(e.path, prefix);
      assert (root + place.rel)[|root|..] == place.rel && (root + [b])[|root|..] == [b];
      KindElsewhere(fs, root, e, place.rel, prefix, root + [b]);
    }
  }

  lemma {:induction false} LeafStays(fs: Fs, root: Path, entries: seq<TarEntry>, prefix: seq<string>, b: string)
    requires Staged(fs, root) && PlainName(b) && LeafAt(fs, root + [b])
    requires TarRun(fs, root, entries, prefix).verdict == Proceed
    ensures LeafAt(TarRun(fs, root, entries, prefix).fs, root + [b])
    decreases |entries|
  {
    if entries != [] {
      var e := entries[0];
      TarStepContained(fs, root, e, prefix);
      if TarPlace(e.path, prefix) == Target([b]) {
        StagedAtLeaf(fs, root, e, prefix, b);
      } else {
        StagedElsewhere(fs, root, e, prefix, b);
      }
      LeafStays(TarStep(fs, root, e, prefix).fs, root, entries[1..], prefix, b);
    }
  }

  lemma BinaryPlace(path: string, binary: string)
    requires RefuseUnsafeRelPath(path) == Proceed
    requires var comps := Components(path); comps != [] && comps[|comps| - 1] != "." && comps[|comps| - 1] == binary
    ensures PlainName(binary)
    ensures var comps := Components(path); TarPlace(path, comps[..|comps| - 1]) == Target([binary])
  {
    SplitPartsClean(path, '/');
    var comps := Components(path);
    assert binary in comps;
    var prefix := comps[..|comps| - 1];
    assert comps == prefix + [binary];
    assert prefix < comps;
    assert comps[|prefix|..] == [binary];
    FilterNothing([binary], ".");
  }

  predicate IsBinaryEntry(e: TarEntry, binary: string)
  {
    var comps := Components(e.path);
    e.kind.Regular? && comps != [] && comps[|comps| - 1] != "." && comps[|comps| - 1] == binary
  }

  /** When pass 1 found the binary and pass 2 completed, the staging root holds
      an entry of that name that is not a directory. */
  lemma {:induction false} BinaryStaged(fs: Fs, root: Path, entries: seq<TarEntry>, binary: string)
    requires Staged(fs, root)
    requires TarPrefix(entries, binary).Found?
    requires TarRun(fs, root, entries, TarPrefix(entries, binary).prefix).verdict == Proceed
    ensures LeafAt(TarRun(fs, root, entries, TarPrefix(entries, binary).prefix).fs, root + [binary])
    decreases |entries|
  {
    var e, prefix := entries[0], TarPrefix(entries, binary).prefix;
    TarStepContained(fs, root, e, prefix);
    var fs' := TarStep(fs, root, e, prefix).fs;
    if IsBinaryEntry(e, binary) {
      BinaryPlace(e.path, binary);
      StagedAtLeaf(fs, root, e, prefix, binary);
      LeafStays(fs', root, entries[1..], prefix, binary);
    } else {
      BinaryStaged(fs', root, entries[1..], binary);
    }
  }

  // ----- archives without conflicts: the last content of each path -----

  /** What a path holds that is not a directory. */
  datatype Piece = FilePiece(content: Bytes) | LinkPiece(target: string)

  type Pieces = map<seq<string>, Piece>

  function ProperPrefixes(rel: seq<string>): set<seq<string>>
  {
    set k | 0 < k < |rel| :: rel[..k]
  }

  function Prefixes(rel: seq<string>): set<seq<string>>
  {
    set k | 0 < k <= |rel| :: rel[..k]
  }

  /** The staged path of a hard link's referent. */
  function Referent(e: TarEntry, prefix: seq<string>): seq<string>
    requires e.kind.HardLinkTo? && e.kind.referent.Some?
  {
    var comps := Components(e.kind.referent.value);
    if PathWithin(comps, prefix) then comps[|prefix|..] else []
  }

  /** What one entry puts at its path; a hard link repeats what its referent holds. */
  function PieceOf(e: TarEntry, prefix: seq<string>, before: Pieces): Option<Piece>
  {
    match e.kind
    case Regular(content) => Some(FilePiece(content))
    case SymlinkTo(Some(target)) => Some(LinkPiece(target))
    case HardLinkTo(Some(_)) => if Referent(e, prefix) in before then Some(before[Referent(e, prefix)]) else None
    case _ => None
  }

  /** The bundle's files and links: what was last put at each path below the prefix. */
  function BundlePieces(entries: seq<TarEntry>, prefix: seq<string>): Pieces
  {
    if entries == [] then map[]
    else
      var before, e := BundlePieces(entries[..|entries| - 1], prefix), entries[|entries| - 1];
      var place, piece := TarPlace(e.path, prefix), PieceOf(e, prefix, before);
      if place.Target? && piece.Some? then before[place.rel := piece.value] else before
  }

  /** The directories of the bundle: those listed, and those above any listed path. */
  function BundleDirs(entries: seq<TarEntry>, prefix: seq<string>): set<seq<string>>
  {
    if entries == [] then {}
    else
      var before, e := BundleDirs(entries[..|entries| - 1], prefix), entries[|entries| - 1];
      var place := TarPlace(e.path, prefix);
      if !place.Target? then before
      else before + (if e.kind.Directory? then Prefixes(place.rel) else ProperPrefixes(place.rel))
  }

  /** An entry that is not refused for what it says itself. */
  predicate Ordinary(e: TarEntry, prefix: seq<string>)
  {
    && e.fault.NoFault? && e.mode.Some? && !TarPlace(e.path, prefix).Refused?
    && match e.kind
       case Directory => true
       case Regular(_) => true
       case SymlinkTo(target) => target.Some? && RefuseUnsafePosixRel(target.value) == Proceed
       case HardLinkTo(referent) =>
         && referent.Some? && RefuseUnsafePosixRel(referent.value) == Proceed
         && PathWithin(Components(referent.value), prefix)
       case OtherKind => false
  }

  /** `from` is a link to a file that is staged, by a plain path from where it stands. */
  predicate Leads(pieces: Pieces, from: seq<string>)
  {
    && from in pieces && pieces[from].LinkPiece?
    && var q := Split(pieces[from].target, '/');
       PlainPath(q) && Parent(from) + q in pieces && pieces[Parent(from) + q].FilePiece?
  }

  predicate CanLinkTo(pieces: Pieces, from: seq<string>)
  {
    PlainPath(from) && from in pieces && (pieces[from].FilePiece? || Leads(pieces, from))
  }

  /** A hard link refers to a file, or to a link to one, that is staged by then at another path. */
  predicate Linkable(e: TarEntry, prefix: seq<string>, before: Pieces)
  {
    e.kind.HardLinkTo? && e.kind.referent.Some? && TarPlace(e.path, prefix).Target? ==>
      CanLinkTo(before, Referent(e, prefix)) && Referent(e, prefix) != TarPlace(e.path, prefix).rel
  }

  /** Every hard link can be made when its turn comes. */
  predicate AllLinkable(entries: seq<TarEntry>, prefix: seq<string>)
  {
    entries != [] ==>
      var before, e := entries[..|entries| - 1], entries[|entries| - 1];
      AllLinkable(before, prefix) && Linkable(e, prefix, BundlePieces(before, prefix))
  }

  /** No entry is refused, no path is both a directory and a file or link, and each
      hard link can be made when its turn comes. */
  predicate ConflictFree(entries: seq<TarEntry>, prefix: seq<string>)
  {
    && (forall e :: e in entries ==> Ordinary(e, prefix))
    && BundlePieces(entries, prefix).Keys !! BundleDirs(entries, prefix)
    && AllLinkable(entries, prefix)
  }

  ghost predicate PieceAt(fs: Fs, p: Path, piece: Piece)
  {
    && p in fs.nodes
    && match piece
       case FilePiece(content) =>
         fs.nodes[p].File? && fs.nodes[p].ino in fs.inodes && fs.inodes[fs.nodes[p].ino].content == content
       case LinkPiece(target) => fs.nodes[p] == Symlink(target)
  }

  /** Below `root` the tree holds exactly these files and links and these directories. */
  ghost predicate Represents(fs: Fs, root: Path, pieces: Pieces, dirs: set<seq<string>>)
  {
    && Staged(fs, root)
    && pieces.Keys !! dirs
    && (forall rel :: rel != [] ==> (root + rel in fs.nodes <==> rel in pieces || rel in dirs))
    && (forall rel :: rel in dirs ==> rel != [] && IsDirAt(fs, root + rel))
    && (forall rel :: rel in pieces ==> rel != [] && PieceAt(fs, root + rel, pieces[rel]))
  }

  /** A fresh staging directory holds nothing. */
  lemma FreshStageIsEmpty(fs: Fs, root: Path)
    requires WellFormed(fs) && IsDirAt(fs, root)
    requires forall p :: p in fs.nodes && root <= p ==> p == root
    ensures Represents(fs, root, map[], {})
  {
    FreshStage(fs, root);
    forall rel: seq<string> | rel != [] ensures root + rel !in fs.nodes {
      assert |root + rel| > |root|;
    }
  }

  lemma LookupBelowDir(fs: Fs, root: Path, rel: seq<string>, follow: bool)
    requires Rooted(fs, root) && IsDirAt(fs, root) && PlainPath(rel) && rel != []
    requires IsDirAt(fs, root + Parent(rel))
    requires follow && root + rel in fs.nodes ==> !fs.nodes[root + rel].Symlink?
    ensures Walk(fs, root, rel, follow, MAX_LINK_HOPS) == At(root + rel)
    ensures ParentIsDir(fs, root + rel)
  {
    forall j | 0 <= j < |rel| ensures IsDirAt(fs, root + rel[..j]) {
      if j < |Parent(rel)| {
        DirsAbove(fs, root, Parent(rel), j);
        assert Parent(rel)[..j] == rel[..j];
      }
    }
    WalkDirs(fs, root, rel, 0, follow, MAX_LINK_HOPS);
    assert root + rel[..0] == root && rel[0..] == rel;
    assert rel[|rel| - 1] in rel;
    assert root + rel[..|rel| - 1] + [rel[|rel| - 1]] == root + rel;
    assert (root + rel)[..|root + rel| - 1] == root + Parent(rel);
  }

  lemma {:induction false} LookupMissing(fs: Fs, root: Path, rel: seq<string>, k: nat,
                                         pieces: Pieces, dirs: set<seq<string>>)
    requires Represents(fs, root, pieces, dirs) && PlainPath(rel) && k < |rel| - 1
    requires root + Parent(rel) !in fs.nodes
    requires forall j :: 0 < j <= |rel| ==> rel[..j] !in pieces
    ensures Walk(fs, root + rel[..k], rel[k..], false, MAX_LINK_HOPS) == NotFound
    decreases |rel| - k
  {
    assert rel[k] in rel;
    assert root + rel[..k] + [rel[k]] == root + rel[..k + 1];
    assert rel[k..][1..] == rel[k + 1..];
    if root + rel[..k + 1] in fs.nodes {
      assert rel[..k + 1] in dirs;
      if k + 1 < |rel| - 1 {
        LookupMissing(fs, root, rel, k + 1, pieces, dirs);
      }
    }
  }

  /** A new directory at a free spot. */
  lemma MadeRepresents(fs: Fs, fs': Fs, root: Path, rel: seq<string>, mode: nat, pieces: Pieces, dirs: set<seq<string>>)
    requires Represents(fs, root, pieces, dirs) && rel != [] && rel !in pieces
    requires Staged(fs', root) && fs' == fs.(nodes := fs.nodes[root + rel := Dir(mode)]) && root + rel !in fs.nodes
    ensures Represents(fs', root, pieces, dirs + {rel})
  {
    forall q | q != [] ensures root + q in fs'.nodes <==> q in pieces || q in dirs + {rel} {
      assert (root + q)[|root|..] == q && (root + rel)[|root|..] == rel;
    }
    forall q | q in pieces ensures PieceAt(fs', root + q, pieces[q]) {
      assert PieceAt(fs, root + q, pieces[q]);
    }
  }

  lemma MkdirBuilds(fs: Fs, root: Path, rel: seq<string>, pieces: Pieces, dirs: set<seq<string>>)
    requires Represents(fs, root, pieces, dirs) && PlainPath(rel) && rel != []
    requires Parent(rel) == [] || Parent(rel) in dirs
    requires rel !in pieces
    ensures rel in dirs ==> Mkdir(fs, root, rel) == Blocked && IsDir(fs, root, rel)
    ensures rel !in dirs ==>
              Mkdir(fs, root, rel).Made? && Represents(Mkdir(fs, root, rel).fs, root, pieces, dirs + {rel})
  {
    assert root + [] == root;
    LookupBelowDir(fs, root, rel, false);
    LookupBelowDir(fs, root, rel, true);
    if rel !in dirs {
      MkdirContained(fs, root, rel);
      MadeRepresents(fs, Mkdir(fs, root, rel).fs, root, rel, NEW_DIR_MODE, pieces, dirs);
    }
  }

  lemma PrefixesSplit(rel: seq<string>)
    requires rel != []
    ensures rel in Prefixes(rel) && Prefixes(rel) == Prefixes(Parent(rel)) + {rel} && rel !in Prefixes(Parent(rel))
    ensures Parent(rel) != [] ==> Parent(rel) in Prefixes(rel)
  {
    var parent := Parent(rel);
    assert rel[..|rel|] == rel;
    assert forall j :: 0 < j <= |rel| ==> rel[..j] in Prefixes(rel);
    assert forall j :: 0 < j <= |parent| ==> parent[..j] == rel[..j];
  }

  /** The parent is already a directory: one more is made below it. */
  lemma MkdirAllInParent(fs: Fs, root: Path, rel: seq<string>, pieces: Pieces, dirs: set<seq<string>>)
    requires Represents(fs, root, pieces, dirs) && PlainPath(rel) && rel != []
    requires Prefixes(rel) !! pieces.Keys && IsDirAt(fs, root + Parent(rel))
    ensures MkdirAll(fs, root, rel).ok
    ensures Represents(MkdirAll(fs, root, rel).fs, root, pieces, dirs + Prefixes(rel))
  {
    PrefixesSplit(rel);
    MkdirBuilds(fs, root, rel, pieces, dirs);
    PrefixesPresent(fs, root, Parent(rel), pieces, dirs);
    assert dirs + Prefixes(rel) == dirs + {rel};
    assert rel in dirs ==> dirs + {rel} == dirs;
  }

  lemma NoParentYet(fs: Fs, root: Path, rel: seq<string>, pieces: Pieces, dirs: set<seq<string>>)
    requires Represents(fs, root, pieces, dirs) && PlainPath(rel) && rel != []
    requires Prefixes(rel) !! pieces.Keys && !IsDirAt(fs, root + Parent(rel))
    ensures Mkdir(fs, root, rel).NoParent? && root + rel !in fs.nodes
  {
    assert root + [] == root;
    PrefixesSplit(rel);
    LookupMissing(fs, root, rel, 0, pieces, dirs);
    assert root + rel[..0] == root && rel[0..] == rel;
    if root + rel in fs.nodes { DirsAbove(fs, root, rel, |rel| - 1); }
  }

  lemma {:induction false} MkdirAllBuilds(fs: Fs, root: Path, rel: seq<string>,
                                          pieces: Pieces, dirs: set<seq<string>>)
    requires Represents(fs, root, pieces, dirs) && PlainPath(rel)
    requires Prefixes(rel) !! pieces.Keys
    ensures MkdirAll(fs, root, rel).ok
    ensures Represents(MkdirAll(fs, root, rel).fs, root, pieces, dirs + Prefixes(rel))
    decreases |rel|
  {
    assert root + [] == root;
    if rel == [] {
      assert dirs + Prefixes(rel) == dirs;
    } else if IsDirAt(fs, root + Parent(rel)) {
      MkdirAllInParent(fs, root, rel, pieces, dirs);
    } else {
      var parent := Parent(rel);
      PrefixesSplit(rel);
      assert forall x :: x in parent ==> x in rel;
      NoParentYet(fs, root, rel, pieces, dirs);
      MkdirAllBuilds(fs, root, parent, pieces, dirs);
      var up := MkdirAll(fs, root, parent).fs;
      MkdirBuilds(up, root, rel, pieces, dirs + Prefixes(parent));
      assert dirs + Prefixes(parent) + {rel} == dirs + Prefixes(rel);
    }
  }

  lemma PrefixesPresent(fs: Fs, root: Path, rel: seq<string>, pieces: Pieces, dirs: set<seq<string>>)
    requires Represents(fs, root, pieces, dirs) && IsDirAt(fs, root + rel)
    ensures Prefixes(rel) <= dirs
  {
    forall k | 0 < k <= |rel| ensures rel[..k] in dirs {
      if k < |rel| { DirsAbove(fs, root, rel, k); }
      assert rel[..|rel|] == rel;
    }
  }

  /** Where no prefix of a path is a file or a link, none of them is followed. */
  lemma {:induction false} NoLinkOnPath(fs: Fs, root: Path, rel: seq<string>, pieces: Pieces, dirs: set<seq<string>>)
    requires Represents(fs, root, pieces, dirs) && PlainPath(rel) && Prefixes(rel) !! pieces.Keys
    ensures !LinkOnPath(fs, root, rel)
    decreases |rel|
  {
    assert root + [] == root;
    if rel != [] {
      var parent := Parent(rel);
      PrefixesSplit(rel);
      assert forall x :: x in parent ==> x in rel;
      NoLinkOnPath(fs, root, parent, pieces, dirs);
      if IsDirAt(fs, root + parent) {
        LookupBelowDir(fs, root, rel, false);
      } else {
        NoParentYet(fs, root, rel, pieces, dirs);
      }
    }
  }

  lemma ChmodRepresents(fs: Fs, root: Path, rel: seq<string>, mode: nat,
                        pieces: Pieces, dirs: set<seq<string>>)
    requires Represents(fs, root, pieces, dirs) && PlainPath(rel)
    ensures Represents(Chmod(fs, root, rel, mode), root, pieces, dirs)
  {
    ChmodContained(fs, root, rel, mode);
  }

  lemma PrefixesOfParent(rel: seq<string>)
    requires rel != []
    ensures Prefixes(Parent(rel)) == ProperPrefixes(rel) && rel !in ProperPrefixes(rel)
    ensures Parent(rel) != [] ==> Parent(rel) in ProperPrefixes(rel)
  {
    var parent := Parent(rel);
    assert forall j :: 0 < j <= |parent| ==> parent[..j] == rel[..j];
    assert forall k :: 0 < k < |rel| ==> rel[..k] != rel;
    assert parent != [] ==> parent == rel[..|parent|];
  }

  /** Clearing the spot of a file makes the directories above it and forgets its old content. */
  lemma ClearSpotBuilds(fs: Fs, root: Path, rel: seq<string>, pieces: Pieces, dirs: set<seq<string>>)
    requires Represents(fs, root, pieces, dirs) && PlainPath(rel) && rel != []
    requires ProperPrefixes(rel) !! pieces.Keys && rel !in dirs
    ensures var spot := ClearSpot(fs, root, rel, NoFault);
            && spot.ok
            && rel !in dirs + ProperPrefixes(rel)
            && Represents(spot.fs, root, pieces - {rel}, dirs + ProperPrefixes(rel))
            && IsDirAt(spot.fs, root + Parent(rel))
  {
    var parent := Parent(rel);
    PrefixesOfParent(rel);
    assert forall x :: x in parent ==> x in rel;
    MkdirAllBuilds(fs, root, parent, pieces, dirs);
    var up := MkdirAll(fs, root, parent).fs;
    assert root + [] == root;
    assert IsDirAt(up, root + parent);
    LookupBelowDir(up, root, rel, false);
    RemoveRepresents(up, root, rel, pieces, dirs + ProperPrefixes(rel));
  }

  /** Writing to a cleared spot, and setting the mode. */
  lemma WrittenRepresents(r: Fs, root: Path, rel: seq<string>, content: Bytes, mode: nat, pieces: Pieces,
                          dirs: set<seq<string>>)
    requires Represents(r, root, pieces, dirs) && PlainPath(rel) && rel != [] && rel !in dirs && rel !in pieces
    requires IsDirAt(r, root + Parent(rel))
    ensures var w := WriteFile(r, root, rel, content);
            w.ok && Represents(Chmod(w.fs, root, rel, mode), root, pieces[rel := FilePiece(content)], dirs)
  {
    LookupBelowDir(r, root, rel, true);
    CreateRepresents(r, root, rel, content, pieces, dirs);
    ChmodRepresents(WriteFile(r, root, rel, content).fs, root, rel, mode, pieces[rel := FilePiece(content)], dirs);
  }

  lemma Replaced(pieces: Pieces, rel: seq<string>, piece: Piece)
    ensures (pieces - {rel})[rel := piece] == pieces[rel := piece]
  {
  }

  lemma FileBuilds(fs: Fs, root: Path, rel: seq<string>, content: Bytes, mode: nat,
                   pieces: Pieces, dirs: set<seq<string>>)
    requires Represents(fs, root, pieces, dirs) && PlainPath(rel) && rel != []
    requires ProperPrefixes(rel) !! pieces.Keys && rel !in dirs
    ensures var s := StageFile(fs, root, rel, content, Some(mode), NoFault);
            && s.verdict == Proceed
            && Represents(s.fs, root, pieces[rel := FilePiece(content)], dirs + ProperPrefixes(rel))
  {
    ClearSpotBuilds(fs, root, rel, pieces, dirs);
    var r := ClearSpot(fs, root, rel, NoFault).fs;
    WrittenRepresents(r, root, rel, content, mode % 0x1000, pieces - {rel}, dirs + ProperPrefixes(rel));
    Replaced(pieces, rel, FilePiece(content));
  }

  /** A symlink at a cleared spot. */
  lemma LinkedRepresents(r: Fs, root: Path, rel: seq<string>, target: string, pieces: Pieces, dirs: set<seq<string>>)
    requires Represents(r, root, pieces, dirs) && PlainPath(rel) && rel != [] && rel !in dirs && rel !in pieces
    requires IsDirAt(r, root + Parent(rel)) && SafeTarget(target)
    ensures var l := MakeSymlink(r, root, rel, target);
            l.ok && Represents(l.fs, root, pieces[rel := LinkPiece(target)], dirs)
  {
    LookupBelowDir(r, root, rel, false);
    MakeSymlinkContained(r, root, rel, target);
    PutRepresents(r, MakeSymlink(r, root, rel, target).fs, root, rel, LinkPiece(target), pieces, dirs);
  }

  lemma LinkBuilds(fs: Fs, root: Path, rel: seq<string>, target: string, pieces: Pieces, dirs: set<seq<string>>)
    requires Represents(fs, root, pieces, dirs) && PlainPath(rel) && rel != []
    requires ProperPrefixes(rel) !! pieces.Keys && rel !in dirs && RefuseUnsafePosixRel(target) == Proceed
    ensures var s := StageLink(fs, root, rel, Some(target), NoFault);
            && s.verdict == Proceed
            && Represents(s.fs, root, pieces[rel := LinkPiece(target)], dirs + ProperPrefixes(rel))
  {
    ClearSpotBuilds(fs, root, rel, pieces, dirs);
    var r := ClearSpot(fs, root, rel, NoFault).fs;
    AcceptedTargetIsSafe(target);
    LinkedRepresents(r, root, rel, target, pieces - {rel}, dirs + ProperPrefixes(rel));
    Replaced(pieces, rel, LinkPiece(target));
  }

  /** A staged entry is found where its path says. */
  lemma FoundInPlace(fs: Fs, root: Path, rel: seq<string>, pieces: Pieces, dirs: set<seq<string>>)
    requires Represents(fs, root, pieces, dirs) && PlainPath(rel) && rel in pieces
    ensures Locate(fs, root, rel) == At(root + rel)
  {
    assert PieceAt(fs, root + rel, pieces[rel]);
    DirsAbove(fs, root, rel, |rel| - 1);
    LookupBelowDir(fs, root, rel, false);
  }

  /** Following names down through directories to a file. */
  lemma FollowsToFile(fs: Fs, d: Path, q: seq<string>, hops: nat)
    requires Rooted(fs, d) && PlainPath(q) && q != [] && d + q in fs.nodes && fs.nodes[d + q].File?
    ensures Walk(fs, d, q, true, hops) == At(d + q)
  {
    forall j | 0 <= j < |q| ensures IsDirAt(fs, d + q[..j]) { DirsAbove(fs, d, q, j); }
    WalkDirs(fs, d, q, 0, true, hops);
    assert d + q[..0] == d && q[0..] == q;
    assert q[|q| - 1] in q;
    assert d + q[..|q| - 1] + [q[|q| - 1]] == d + q;
  }

  lemma LinkExists(fs: Fs, root: Path, from: seq<string>, pieces: Pieces, dirs: set<seq<string>>)
    requires Represents(fs, root, pieces, dirs) && PlainPath(from) && Leads(pieces, from)
    ensures Exists(fs, root, from)
  {
    var t, d := pieces[from].target, root + Parent(from);
    var q := Split(t, '/');
    assert PieceAt(fs, root + from, pieces[from]) && PieceAt(fs, root + (Parent(from) + q), pieces[Parent(from) + q]);
    assert d + q == root + (Parent(from) + q);
    forall j | 0 <= j < |from| ensures IsDirAt(fs, root + from[..j]) { DirsAbove(fs, root, from, j); }
    WalkDirs(fs, root, from, 0, true, MAX_LINK_HOPS);
    assert root + from[..0] == root && from[0..] == from;
    assert from[|from| - 1] in from;
    assert d + [from[|from| - 1]] == root + from;
    FollowsToFile(fs, d, q, MAX_LINK_HOPS - 1);
    assert q + [] == q;
  }

  lemma ReferentExists(fs: Fs, root: Path, from: seq<string>, pieces: Pieces, dirs: set<seq<string>>)
    requires Represents(fs, root, pieces, dirs) && CanLinkTo(pieces, from)
    ensures Exists(fs, root, from)
  {
    if pieces[from].FilePiece? {
      assert PieceAt(fs, root + from, pieces[from]);
      FollowsToFile(fs, root, from, MAX_LINK_HOPS);
    } else {
      LinkExists(fs, root, from, pieces, dirs);
    }
  }

  /** A second name for a staged file or link at a cleared spot. */
  lemma NamedAgainRepresents(r: Fs, root: Path, rel: seq<string>, from: seq<string>, pieces: Pieces,
                             dirs: set<seq<string>>)
    requires Represents(r, root, pieces, dirs) && PlainPath(rel) && rel != [] && rel !in dirs && rel !in pieces
    requires IsDirAt(r, root + Parent(rel)) && PlainPath(from) && from in pieces
    ensures var l := HardLink(r, root, from, rel);
            l.ok && Represents(l.fs, root, pieces[rel := pieces[from]], dirs)
  {
    LookupBelowDir(r, root, rel, false);
    FoundInPlace(r, root, from, pieces, dirs);
    assert PieceAt(r, root + from, pieces[from]);
    HardLinkContained(r, root, from, rel);
    PutRepresents(r, HardLink(r, root, from, rel).fs, root, rel, pieces[from], pieces, dirs);
  }

  lemma HardLinkBuilds(fs: Fs, root: Path, rel: seq<string>, referent: string, prefix: seq<string>,
                       pieces: Pieces, dirs: set<seq<string>>)
    requires Represents(fs, root, pieces, dirs) && PlainPath(rel) && rel != []
    requires ProperPrefixes(rel) !! pieces.Keys && rel !in dirs && RefuseUnsafePosixRel(referent) == Proceed
    requires PathWithin(Components(referent), prefix)
    requires var from := Components(referent)[|prefix|..]; CanLinkTo(pieces, from) && from != rel
    ensures var s, from := StageHardLink(fs, root, rel, Some(referent), prefix, NoFault),
              Components(referent)[|prefix|..];
            && s.verdict == Proceed
            && Represents(s.fs, root, pieces[rel := pieces[from]], dirs + ProperPrefixes(rel))
  {
    var from := Components(referent)[|prefix|..];
    ReferentExists(fs, root, from, pieces, dirs);
    ClearSpotBuilds(fs, root, rel, pieces, dirs);
    var r := ClearSpot(fs, root, rel, NoFault).fs;
    NamedAgainRepresents(r, root, rel, from, pieces - {rel}, dirs + ProperPrefixes(rel));
    Replaced(pieces, rel, pieces[from]);
  }

  /** One new entry that is no directory. */
  lemma PutRepresents(fs: Fs, fs': Fs, root: Path, rel: seq<string>, piece: Piece, pieces: Pieces,
                      dirs: set<seq<string>>)
    requires Represents(fs, root, pieces, dirs) && rel != [] && rel !in dirs && rel !in pieces
    requires Staged(fs', root) && fs'.nodes.Keys == fs.nodes.Keys + {root + rel} && fs'.inodes == fs.inodes
    requires (forall p :: p in fs.nodes ==> fs'.nodes[p] == fs.nodes[p]) && PieceAt(fs', root + rel, piece)
    ensures Represents(fs', root, pieces[rel := piece], dirs)
  {
    forall q | q != [] && q != rel ensures root + q != root + rel {
      assert (root + q)[|root|..] == q && (root + rel)[|root|..] == rel;
    }
    forall q | q in pieces ensures PieceAt(fs', root + q, pieces[q]) {
      assert PieceAt(fs, root + q, pieces[q]);
    }
  }

  lemma RemoveRepresents(fs: Fs, root: Path, rel: seq<string>, pieces: Pieces, dirs: set<seq<string>>)
    requires Represents(fs, root, pieces, dirs) && PlainPath(rel) && rel != [] && rel !in dirs
    requires Locate(fs, root, rel) == At(root + rel)
    ensures Represents(RemoveFile(fs, root, rel), root, pieces - {rel}, dirs)
  {
    RemoveFileContained(fs, root, rel);
    forall q | q != [] && q != rel ensures root + q != root + rel {
      assert (root + q)[|root|..] == q && (root + rel)[|root|..] == rel;
    }
  }

  lemma CreateRepresents(fs: Fs, root: Path, rel: seq<string>, content: Bytes,
                         pieces: Pieces, dirs: set<seq<string>>)
    requires Represents(fs, root, pieces, dirs) && PlainPath(rel) && rel != [] && rel !in dirs && rel !in pieces
    requires Resolve(fs, root, rel) == At(root + rel) && ParentIsDir(fs, root + rel)
    ensures var w := WriteFile(fs, root, rel, content);
            w.ok && Represents(w.fs, root, pieces[rel := FilePiece(content)], dirs)
  {
    WriteFileContained(fs, root, rel, content);
    forall q | q != [] && q != rel ensures root + q != root + rel {
      assert (root + q)[|root|..] == q && (root + rel)[|root|..] == rel;
    }
  }

  /** A run, after a first step of which only the outcome matters. */
  lemma TarRunCons(fs: Fs, root: Path, entries: seq<TarEntry>, prefix: seq<string>, first: Staging)
    requires entries != [] && first == TarStep(fs, root, entries[0], prefix)
    ensures TarRun(fs, root, entries, prefix) ==
              if first.verdict.Refuse? then first else TarRun(first.fs, root, entries[1..], prefix)
  {
  }

  lemma TarRunNothing(fs: Fs, root: Path, prefix: seq<string>)
    ensures TarRun(fs, root, [], prefix) == Staging(fs, Proceed)
  {
  }

  /** What a step that follows a run makes of its outcome. */
  function ThenStep(before: Staging, root: Path, e: TarEntry, prefix: seq<string>): Staging
  {
    if before.verdict.Refuse? then before else TarStep(before.fs, root, e, prefix)
  }

  lemma {:induction false} TarRunSnoc(fs: Fs, root: Path, entries: seq<TarEntry>, e: TarEntry, prefix: seq<string>)
    ensures TarRun(fs, root, entries + [e], prefix) == ThenStep(TarRun(fs, root, entries, prefix), root, e, prefix)
    decreases |entries|
  {
    var all := entries + [e];
    var first := TarStep(fs, root, all[0], prefix);
    TarRunCons(fs, root, all, prefix, first);
    if entries == [] {
      assert all[1..] == [];
      TarRunNothing(first.fs, root, prefix);
      TarRunNothing(fs, root, prefix);
    } else {
      assert all[1..] == entries[1..] + [e];
      TarRunCons(fs, root, entries, prefix, first);
      TarRunSnoc(first.fs, root, entries[1..], e, prefix);
    }
  }

  lemma NoLinkAbove(fs: Fs, root: Path, rel: seq<string>, pieces: Pieces, dirs: set<seq<string>>)
    requires Represents(fs, root, pieces, dirs) && PlainPath(rel) && ProperPrefixes(rel) !! pieces.Keys
    ensures !LinkOnPath(fs, root, Parent(rel))
  {
    assert forall x :: x in Parent(rel) ==> x in rel;
    assert forall j :: 0 < j <= |Parent(rel)| ==> Parent(rel)[..j] == rel[..j];
    assert Prefixes(Parent(rel)) <= ProperPrefixes(rel);
    NoLinkOnPath(fs, root, Parent(rel), pieces, dirs);
  }

  lemma StepOfPlaced(fs: Fs, root: Path, e: TarEntry, prefix: seq<string>)
    requires Ordinary(e, prefix) && TarPlace(e.path, prefix).Target?
    requires !LinkOnPath(fs, root, Parent(TarPlace(e.path, prefix).rel))
    ensures TarStep(fs, root, e, prefix) == StageKind(fs, root, e, TarPlace(e.path, prefix).rel, prefix)
  {
  }

  lemma DirBuilds(fs: Fs, root: Path, rel: seq<string>, mode: nat, pieces: Pieces, dirs: set<seq<string>>)
    requires Represents(fs, root, pieces, dirs) && PlainPath(rel) && Prefixes(rel) !! pieces.Keys
    ensures var s := StageDir(fs, root, rel, mode, NoFault);
            s.verdict == Proceed && Represents(s.fs, root, pieces, dirs + Prefixes(rel))
  {
    MkdirAllBuilds(fs, root, rel, pieces, dirs);
    ChmodRepresents(MkdirAll(fs, root, rel).fs, root, rel, mode % 0x1000, pieces, dirs + Prefixes(rel));
  }

  lemma StepBuilds(fs: Fs, root: Path, e: TarEntry, prefix: seq<string>, pieces: Pieces, dirs: set<seq<string>>)
    requires Represents(fs, root, pieces, dirs) && Ordinary(e, prefix) && TarPlace(e.path, prefix).Target?
    requires Linkable(e, prefix, pieces)
    requires var rel := TarPlace(e.path, prefix).rel;
             if e.kind.Directory? then Prefixes(rel) !! pieces.Keys
             else ProperPrefixes(rel) !! pieces.Keys && rel !in dirs
    ensures var rel, s, piece := TarPlace(e.path, prefix).rel, TarStep(fs, root, e, prefix), PieceOf(e, prefix, pieces);
            && s.verdict == Proceed
            && (if e.kind.Directory? then Represents(s.fs, root, pieces, dirs + Prefixes(rel))
                else piece.Some? && Represents(s.fs, root, pieces[rel := piece.value], dirs + ProperPrefixes(rel)))
  {
    var rel := TarPlace(e.path, prefix).rel;
    TargetIsPlain(e.path, prefix);
    assert ProperPrefixes(rel) <= Prefixes(rel);
    NoLinkAbove(fs, root, rel, pieces, dirs);
    StepOfPlaced(fs, root, e, prefix);
    match e.kind
    case Directory => DirBuilds(fs, root, rel, e.mode.value, pieces, dirs);
    case Regular(content) => FileBuilds(fs, root, rel, content, e.mode.value, pieces, dirs);
    case SymlinkTo(target) => LinkBuilds(fs, root, rel, target.value, pieces, dirs);
    case HardLinkTo(referent) => HardLinkBuilds(fs, root, rel, referent.value, prefix, pieces, dirs);
  }

  lemma ShorterConflictFree(shorter: seq<TarEntry>, e: TarEntry, prefix: seq<string>)
    requires ConflictFree(shorter + [e], prefix)
    ensures ConflictFree(shorter, prefix)
    ensures Ordinary(e, prefix) && Linkable(e, prefix, BundlePieces(shorter, prefix))
    ensures BundlePieces(shorter + [e], prefix).Keys !! BundleDirs(shorter + [e], prefix)
  {
    var all, n := shorter + [e], |shorter|;
    assert all[..n] == shorter && all[n] == e && e in all;
    assert forall x :: x in shorter ==> x in all;
  }

  /** The fold's step is the extractor's. */
  lemma FoldStep(mid: Fs, root: Path, shorter: seq<TarEntry>, e: TarEntry, prefix: seq<string>)
    requires Represents(mid, root, BundlePieces(shorter, prefix), BundleDirs(shorter, prefix))
    requires Ordinary(e, prefix) && Linkable(e, prefix, BundlePieces(shorter, prefix))
    requires BundlePieces(shorter + [e], prefix).Keys !! BundleDirs(shorter + [e], prefix)
    ensures var s := TarStep(mid, root, e, prefix);
            && s.verdict == Proceed
            && Represents(s.fs, root, BundlePieces(shorter + [e], prefix), BundleDirs(shorter + [e], prefix))
  {
    assert (shorter + [e])[..|shorter|] == shorter;
    if TarPlace(e.path, prefix).Target? {
      StepBuilds(mid, root, e, prefix, BundlePieces(shorter, prefix), BundleDirs(shorter, prefix));
    }
  }

  /** The run ends well, in exactly the fold's files, links and directories. */
  ghost predicate Refines(s: Staging, root: Path, entries: seq<TarEntry>, prefix: seq<string>)
  {
    s.verdict == Proceed && Represents(s.fs, root, BundlePieces(entries, prefix), BundleDirs(entries, prefix))
  }

  lemma RefinesNothing(fs: Fs, root: Path, prefix: seq<string>)
    requires Represents(fs, root, map[], {})
    ensures Refines(TarRun(fs, root, [], prefix), root, [], prefix)
  {
    TarRunNothing(fs, root, prefix);
  }

  lemma RefinesNext(fs: Fs, root: Path, shorter: seq<TarEntry>, e: TarEntry, prefix: seq<string>)
    requires Refines(TarRun(fs, root, shorter, prefix), root, shorter, prefix) && ConflictFree(shorter + [e], prefix)
    ensures Refines(TarRun(fs, root, shorter + [e], prefix), root, shorter + [e], prefix)
  {
    ShorterConflictFree(shorter, e, prefix);
    TarRunSnoc(fs, root, shorter, e, prefix);
    FoldStep(TarRun(fs, root, shorter, prefix).fs, root, shorter, e, prefix);
  }

  /** Extraction refines the fold: an archive without conflicts is accepted, and the
      staged tree holds exactly its files and links, as last put at each path, and
      its directories. */
  lemma {:induction false} ExtractionRefinesFold(fs: Fs, root: Path, entries: seq<TarEntry>, prefix: seq<string>)
    requires Represents(fs, root, map[], {}) && ConflictFree(entries, prefix)
    ensures Refines(TarRun(fs, root, entries, prefix), root, entries, prefix)
    decreases |entries|
  {
    if entries == [] {
      RefinesNothing(fs, root, prefix);
    } else {
      var shorter, e := entries[..|entries| - 1], entries[|entries| - 1];
      assert shorter + [e] == entries;
      ShorterConflictFree(shorter, e, prefix);
      ExtractionRefinesFold(fs, root, shorter, prefix);
      RefinesNext(fs, root, shorter, e, prefix);
    }
  }
}
