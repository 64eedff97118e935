/** Extraction and install together: from the archive's entries to the names in
    the cache directory. */
module BundlePipeline {
  import opened FileTree
  import opened BundleExtract
  import opened BundleContainment
  import opened BundleContent
  import opened BundleInstall

  function Content(fs: Fs, ino: nat): Bytes
  {
    if ino in fs.inodes then fs.inodes[ino].content else []
  }

  function LeafOf(fs: Fs, p: Path): Leaf
  {
    if p !in fs.nodes then DirLeaf
    else match fs.nodes[p]
      case Dir(_) => DirLeaf
      case File(i) => FileLeaf(Content(fs, i))
      case Symlink(t) => LinkLeaf(t)
  }

  /** Everything strictly below `dir`, by relative path. */
  function Subtree(fs: Fs, dir: Path): map<Path, Leaf>
  {
    var below := set p | p in fs.nodes && dir < p :: p[|dir|..];
    map rel | rel in below :: LeafOf(fs, dir + rel)
  }

  function EntryOf(fs: Fs, p: Path): Entry
  {
    match LeafOf(fs, p)
    case DirLeaf => DirEntry(Subtree(fs, p))
    case FileLeaf(content) => FileEntry(content)
    case LinkLeaf(t) => LinkEntry(t)
  }

  /** The names in a directory, each with what is below it. */
  function Listing(fs: Fs, root: Path): Folder
  {
    var names := set p | p in fs.nodes && root < p && |p| == |root| + 1 :: p[|root|];
    map n | n in names :: EntryOf(fs, root + [n])
  }

  lemma ListingNames(fs: Fs, root: Path, n: string)
    ensures n in Listing(fs, root) <==> root + [n] in fs.nodes
    ensures n in Listing(fs, root) ==> Listing(fs, root)[n] == EntryOf(fs, root + [n])
  {
    var names := set p | p in fs.nodes && root < p && |p| == |root| + 1 :: p[|root|];
    if root + [n] in fs.nodes {
      assert (root + [n])[|root|] == n;
    }
    if n in names {
      var p :| p in fs.nodes && root < p && |p| == |root| + 1 && p[|root|] == n;
      assert p == root + [n];
    }
  }

  lemma SubtreePaths(fs: Fs, dir: Path, rel: seq<string>)
    requires rel != []
    ensures rel in Subtree(fs, dir) <==> dir + rel in fs.nodes
    ensures rel in Subtree(fs, dir) ==> Subtree(fs, dir)[rel] == LeafOf(fs, dir + rel)
  {
    var below := set p | p in fs.nodes && dir < p :: p[|dir|..];
    if dir + rel in fs.nodes {
      assert (dir + rel)[|dir|..] == rel;
      assert rel in below;
    }
    if rel in below {
      var p :| p in fs.nodes && dir < p && p[|dir|..] == rel;
      assert p == dir + rel;
    }
  }

  function AsEntry(piece: Piece): Entry
  {
    match piece
    case FilePiece(content) => FileEntry(content)
    case LinkPiece(target) => LinkEntry(target)
  }

  function AsLeaf(piece: Piece): Leaf
  {
    match piece
    case FilePiece(content) => FileLeaf(content)
    case LinkPiece(target) => LinkLeaf(target)
  }

  /** `rel` holds this file or link in the folder. */
  predicate FolderPiece(folder: Folder, rel: seq<string>, piece: Piece)
  {
    && rel != [] && rel[0] in folder
    && (|rel| == 1 ==> folder[rel[0]] == AsEntry(piece))
    && (|rel| > 1 ==>
          && HasDir(folder, rel[0])
          && rel[1..] in folder[rel[0]].tree && folder[rel[0]].tree[rel[1..]] == AsLeaf(piece))
  }

  lemma LeafOfPiece(fs: Fs, p: Path, piece: Piece)
    requires PieceAt(fs, p, piece)
    ensures LeafOf(fs, p) == AsLeaf(piece) && EntryOf(fs, p) == AsEntry(piece)
  {
  }

  lemma StagedBelow(fs: Fs, root: Path, rel: seq<string>, piece: Piece)
    requires |rel| > 1 && IsDirAt(fs, root + [rel[0]]) && PieceAt(fs, root + rel, piece)
    ensures FolderPiece(Listing(fs, root), rel, piece)
  {
    LeafOfPiece(fs, root + rel, piece);
    ListingNames(fs, root, rel[0]);
    assert root + [rel[0]] + rel[1..] == root + rel;
    SubtreePaths(fs, root + [rel[0]], rel[1..]);
  }

  lemma StagedPiece(fs: Fs, root: Path, pieces: Pieces, dirs: set<seq<string>>, rel: seq<string>)
    requires Represents(fs, root, pieces, dirs) && rel in pieces
    ensures FolderPiece(Listing(fs, root), rel, pieces[rel])
  {
    assert PieceAt(fs, root + rel, pieces[rel]);
    if |rel| == 1 {
      assert rel == [rel[0]];
      LeafOfPiece(fs, root + rel, pieces[rel]);
      ListingNames(fs, root, rel[0]);
    } else {
      DirsAbove(fs, root, rel, 1);
      assert rel[..1] == [rel[0]];
      StagedBelow(fs, root, rel, pieces[rel]);
    }
  }

  /** The directory `n` of the folder holds the bundle's paths below it and no others. */
  ghost predicate FolderDir(folder: Folder, n: string, pieces: Pieces, dirs: set<seq<string>>)
  {
    && HasDir(folder, n)
    && forall rel :: rel != [] ==> (rel in folder[n].tree <==> [n] + rel in pieces || [n] + rel in dirs)
  }

  lemma StagedDir(fs: Fs, root: Path, pieces: Pieces, dirs: set<seq<string>>, n: string)
    requires Represents(fs, root, pieces, dirs) && [n] in dirs
    ensures FolderDir(Listing(fs, root), n, pieces, dirs)
  {
    ListingNames(fs, root, n);
    forall rel: seq<string> | rel != []
      ensures rel in Listing(fs, root)[n].tree <==> [n] + rel in pieces || [n] + rel in dirs
    {
      SubtreePaths(fs, root + [n], rel);
      assert root + [n] + rel == root + ([n] + rel);
    }
  }

  /** A binary that is staged as a link is installed as the file it leads to. */
  predicate LinkedBinary(binary: string, rel: seq<string>, piece: Piece)
  {
    |rel| == 1 && (rel[0] == binary || rel[0] == binary + ".exe") && piece.LinkPiece?
  }

  /** The cache holds the bundle: every file and link, the binary read through a link
      where it is one, and in each directory no other path. */
  ghost predicate Holds(done: Folder, binary: string, host: Host, pieces: Pieces, dirs: set<seq<string>>)
  {
    && (forall rel :: rel in pieces && !LinkedBinary(binary, rel, pieces[rel]) ==> FolderPiece(done, rel, pieces[rel]))
    && (forall rel :: rel in pieces && LinkedBinary(binary, rel, pieces[rel]) && rel[0] in host.through ==>
          rel[0] in done && done[rel[0]] == FileEntry(host.through[rel[0]]))
    && (forall n :: [n] in dirs ==> FolderDir(done, n, pieces, dirs))
  }

  ghost predicate AllInPlace(stage: Folder, binary: string, host: Host, done: Folder)
  {
    forall n :: n in stage ==> InPlace(stage, binary, host, done, n)
  }

  lemma InstalledPiece(staged: Fs, root: Path, pieces: Pieces, dirs: set<seq<string>>, binary: string, host: Host,
                       done: Folder, rel: seq<string>)
    requires Represents(staged, root, pieces, dirs) && rel in pieces
    requires AllInPlace(Listing(staged, root), binary, host, done)
    ensures !LinkedBinary(binary, rel, pieces[rel]) ==> FolderPiece(done, rel, pieces[rel])
    ensures LinkedBinary(binary, rel, pieces[rel]) && rel[0] in host.through ==>
              rel[0] in done && done[rel[0]] == FileEntry(host.through[rel[0]])
  {
    var stage := Listing(staged, root);
    StagedPiece(staged, root, pieces, dirs, rel);
    assert InPlace(stage, binary, host, done, rel[0]);
  }

  lemma InstalledDir(staged: Fs, root: Path, pieces: Pieces, dirs: set<seq<string>>, binary: string, host: Host,
                     done: Folder, n: string)
    requires Represents(staged, root, pieces, dirs) && [n] in dirs
    requires AllInPlace(Listing(staged, root), binary, host, done)
    ensures FolderDir(done, n, pieces, dirs)
  {
    StagedDir(staged, root, pieces, dirs, n);
    assert InPlace(Listing(staged, root), binary, host, done, n);
  }

  lemma InstalledBundle(staged: Fs, root: Path, pieces: Pieces, dirs: set<seq<string>>, binary: string, host: Host,
                        done: Folder)
    requires Represents(staged, root, pieces, dirs) && AllInPlace(Listing(staged, root), binary, host, done)
    ensures Holds(done, binary, host, pieces, dirs)
  {
    forall rel | rel in pieces
      ensures !LinkedBinary(binary, rel, pieces[rel]) ==> FolderPiece(done, rel, pieces[rel])
      ensures LinkedBinary(binary, rel, pieces[rel]) && rel[0] in host.through ==>
                rel[0] in done && done[rel[0]] == FileEntry(host.through[rel[0]])
    {
      InstalledPiece(staged, root, pieces, dirs, binary, host, done, rel);
    }
    forall n | [n] in dirs ensures FolderDir(done, n, pieces, dirs) {
      InstalledDir(staged, root, pieces, dirs, binary, host, done, n);
    }
  }

  /** A staging directory as the extractors make it. */
  ghost predicate Fresh(fs: Fs, root: Path)
  {
    WellFormed(fs) && IsDirAt(fs, root) && forall p :: p in fs.nodes && root <= p ==> p == root
  }

  /** A conflict-free archive is staged without touching anything outside the stage. */
  lemma ArchiveStaged(fs: Fs, root: Path, entries: seq<TarEntry>, prefix: seq<string>)
    requires Fresh(fs, root) && ConflictFree(entries, prefix)
    ensures var s := TarRun(fs, root, entries, prefix);
            && s.verdict == Proceed && Untouched(fs, s.fs, root)
            && Represents(s.fs, root, BundlePieces(entries, prefix), BundleDirs(entries, prefix))
  {
    FreshStage(fs, root);
    FreshStageIsEmpty(fs, root);
    TarRunContained(fs, root, entries, prefix);
    ExtractionRefinesFold(fs, root, entries, prefix);
  }

  /** Where the archive's own pass 1 gives the prefix, the binary is among the pieces. */
  lemma BinaryIsPiece(fs: Fs, root: Path, entries: seq<TarEntry>, binary: string)
    requires Fresh(fs, root) && TarPrefix(entries, binary).Found?
    requires ConflictFree(entries, TarPrefix(entries, binary).prefix)
    ensures [binary] in BundlePieces(entries, TarPrefix(entries, binary).prefix)
  {
    var prefix := TarPrefix(entries, binary).prefix;
    ArchiveStaged(fs, root, entries, prefix);
    FreshStage(fs, root);
    BinaryStaged(fs, root, entries, binary);
    var staged := TarRun(fs, root, entries, prefix).fs;
    assert root + [binary] in staged.nodes;
  }

  /** From archive to cache: an archive of files, directories, symlinks and hard links
      without conflicts is staged and, once installed, the cache holds its bundle,
      the binary included, and every other name is as it was. */
  lemma ArchiveToCache(fs: Fs, root: Path, entries: seq<TarEntry>, binary: string, host: Host, cache: Folder,
                       listing: seq<string>)
    requires Fresh(fs, root) && TarPrefix(entries, binary).Found?
    requires ConflictFree(entries, TarPrefix(entries, binary).prefix)
    requires var stage := Listing(TarRun(fs, root, entries, TarPrefix(entries, binary).prefix).fs, root);
             && Lists(stage, listing) && NoTempClash(stage, binary, host)
             && Install(stage, binary, host, cache, listing).ok
    ensures var prefix := TarPrefix(entries, binary).prefix;
            var s := TarRun(fs, root, entries, prefix);
            var stage := Listing(s.fs, root);
            var done := Install(stage, binary, host, cache, listing).folder;
            && s.verdict == Proceed && Untouched(fs, s.fs, root)
            && [binary] in BundlePieces(entries, prefix)
            && Holds(done, binary, host, BundlePieces(entries, prefix), BundleDirs(entries, prefix))
            && forall n | [n] !in BundlePieces(entries, prefix) && [n] !in BundleDirs(entries, prefix)
                          && !IsTemp(stage, binary, host, n) :: SameAt(cache, done, n)
  {
    var prefix := TarPrefix(entries, binary).prefix;
    ArchiveStaged(fs, root, entries, prefix);
    BinaryIsPiece(fs, root, entries, binary);
    var staged := TarRun(fs, root, entries, prefix).fs;
    var stage := Listing(staged, root);
    InstallExact(stage, binary, host, cache, listing);
    InstalledBundle(staged, root, BundlePieces(entries, prefix), BundleDirs(entries, prefix), binary, host,
                    Install(stage, binary, host, cache, listing).folder);
    forall n ensures n in stage <==> [n] in BundlePieces(entries, prefix) || [n] in BundleDirs(entries, prefix) {
      StagedNames(staged, root, BundlePieces(entries, prefix), BundleDirs(entries, prefix), n);
    }
  }

  /** What is staged is the bundle and nothing else. */
  lemma StagedNames(fs: Fs, root: Path, pieces: Pieces, dirs: set<seq<string>>, n: string)
    requires Represents(fs, root, pieces, dirs)
    ensures n in Listing(fs, root) <==> [n] in pieces || [n] in dirs
  {
    ListingNames(fs, root, n);
  }
}
