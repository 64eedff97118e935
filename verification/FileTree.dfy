/** A small POSIX file tree: directories, files behind inodes, and symbolic
    links, with path lookup that follows links, and the system calls the
    bundle extractor makes. Every call takes a physical directory `root` and
    a relative path `rel` that is walked from it. */
module FileTree {
  import opened Text

  newtype byte = x: int | 0 <= x < 256
  type Bytes = seq<byte>

  /** A physical location: the components below the file-system root. */
  type Path = seq<string>

  datatype Node = Dir(mode: nat) | File(ino: nat) | Symlink(target: string)
  datatype Inode = Inode(content: Bytes, mode: nat)

  /** Inode numbers are handed out in order; `nextIno` is the next one. */
  datatype Fs = Fs(nodes: map<Path, Node>, inodes: map<nat, Inode>, nextIno: nat)

  const MAX_LINK_HOPS: nat := 40
  const NEW_FILE_MODE: nat := 0x1A4
  const NEW_DIR_MODE: nat := 0x1FF

  datatype Lookup = At(path: Path) | NotFound | NotADirectory | TooManyLinks

  predicate IsAbsolute(name: string)
  {
    name != "" && name[0] == '/'
  }

  /** Path lookup. A link is expanded in the directory that holds it, an
      absolute link at the file-system root; `..` steps to the parent. The last
      component may be missing, and is not followed unless `follow`. */
  function Walk(fs: Fs, cur: Path, todo: seq<string>, follow: bool, hops: nat): (r: Lookup)
    decreases hops, |todo|
  {
    if todo == [] then At(cur)
    else
      var c, rest := todo[0], todo[1..];
      if c == "" || c == "." then Walk(fs, cur, rest, follow, hops)
      else if c == ".." then Walk(fs, if cur == [] then [] else cur[..|cur| - 1], rest, follow, hops)
      else
        var p := cur + [c];
        if rest == [] && !follow then At(p)
        else if p !in fs.nodes then (if rest == [] then At(p) else NotFound)
        else match fs.nodes[p]
          case Dir(_) => Walk(fs, p, rest, follow, hops)
          case File(_) => if rest == [] then At(p) else NotADirectory
          case Symlink(t) =>
            if hops == 0 then TooManyLinks
            else Walk(fs, if IsAbsolute(t) then [] else cur, Split(t, '/') + rest, follow, hops - 1)
  }

  function Resolve(fs: Fs, root: Path, rel: seq<string>): Lookup
  {
    Walk(fs, root, rel, true, MAX_LINK_HOPS)
  }

  /** Lookup that leaves a final link alone, as `lstat`, `unlink` and `link` do. */
  function Locate(fs: Fs, root: Path, rel: seq<string>): Lookup
  {
    Walk(fs, root, rel, false, MAX_LINK_HOPS)
  }

  // ----- containment -----

  /** A link target that is relative and has no `..` component. */
  predicate SafeTarget(target: string)
  {
    !IsAbsolute(target) && ".." !in Split(target, '/')
  }

  /** Every link at or below `root` has a safe target. */
  ghost predicate Confined(fs: Fs, root: Path)
  {
    forall p :: p in fs.nodes && root <= p && fs.nodes[p].Symlink? ==> SafeTarget(fs.nodes[p].target)
  }

  /** No file below `root` shares its inode with a file elsewhere. */
  ghost predicate SeparateInodes(fs: Fs, root: Path)
  {
    forall p, q :: p in fs.nodes && q in fs.nodes && root <= p && !(root <= q) && fs.nodes[p].File? && fs.nodes[q].File?
      ==> fs.nodes[p].ino != fs.nodes[q].ino
  }

  ghost predicate WellFormed(fs: Fs)
  {
    && (forall i :: i in fs.inodes ==> i < fs.nextIno)
    && (forall p :: p in fs.nodes && fs.nodes[p].File? ==> fs.nodes[p].ino in fs.inodes)
  }

  /** Every entry below `root` is listed in a directory. */
  ghost predicate Rooted(fs: Fs, root: Path)
  {
    forall d: Path, c: string :: root <= d && d + [c] in fs.nodes ==> IsDirAt(fs, d)
  }

  /** What every step of an extraction into `root` keeps. */
  ghost predicate Staged(fs: Fs, root: Path)
  {
    WellFormed(fs) && Confined(fs, root) && SeparateInodes(fs, root) && Rooted(fs, root) && IsDirAt(fs, root)
  }

  /** Nothing outside `root` was created, removed, retargeted, rewritten or chmodded. */
  ghost predicate Untouched(fs: Fs, fs': Fs, root: Path)
  {
    && (forall p :: !(root <= p) ==> (p in fs.nodes <==> p in fs'.nodes))
    && (forall p :: !(root <= p) && p in fs.nodes && p in fs'.nodes ==> fs.nodes[p] == fs'.nodes[p])
    && (forall p :: !(root <= p) && p in fs.nodes && fs.nodes[p].File? && fs.nodes[p].ino in fs.inodes ==>
          fs.nodes[p].ino in fs'.inodes && fs'.inodes[fs.nodes[p].ino] == fs.inodes[fs.nodes[p].ino])
  }

  lemma UntouchedTransitive(a: Fs, b: Fs, c: Fs, root: Path)
    requires Untouched(a, b, root) && Untouched(b, c, root)
    ensures Untouched(a, c, root)
  {
  }

  /** The containment lemma: where all links are safe, a name without `..`
      resolves, through any chain of links, to a place below where it started. */
  lemma {:induction false} WalkConfined(fs: Fs, root: Path, cur: Path, todo: seq<string>, follow: bool, hops: nat)
    requires Confined(fs, root) && root <= cur && ".." !in todo
    ensures var r := Walk(fs, cur, todo, follow, hops); r.At? ==> root <= r.path
    decreases hops, |todo|
  {
    if todo != [] {
      var c, rest := todo[0], todo[1..];
      var p := cur + [c];
      if c == "" || c == "." {
        WalkConfined(fs, root, cur, rest, follow, hops);
      } else if p in fs.nodes {
        match fs.nodes[p]
        case Dir(_) => WalkConfined(fs, root, p, rest, follow, hops);
        case File(_) =>
        case Symlink(t) =>
          if hops > 0 {
            WalkConfined(fs, root, cur, Split(t, '/') + rest, follow, hops - 1);
          }
      }
    }
  }

  /** A name without `..` that leads out of the directory it is looked up in. */
  ghost predicate Escapes(fs: Fs, root: Path, rel: seq<string>)
  {
    && IsDirAt(fs, root) && ".." !in rel
    && var r := Resolve(fs, root, rel);
       r.At? && !(root <= r.path)
  }

  /** A plain name that is a link leads out exactly when its target does, followed
      from the directory that holds the link or, when absolute, from the top. */
  lemma LinkEscapesIff(fs: Fs, root: Path, n: string, target: string)
    requires IsDirAt(fs, root) && n != "" && n != "." && n != ".."
    requires root + [n] in fs.nodes && fs.nodes[root + [n]] == Symlink(target)
    ensures Escapes(fs, root, [n]) <==>
              var r := Walk(fs, if IsAbsolute(target) then [] else root, Split(target, '/'), true, MAX_LINK_HOPS - 1);
              r.At? && !(root <= r.path)
  {
    assert [n][0] == n && [n][1..] == [] && ".." !in [n];
    assert Split(target, '/') + [] == Split(target, '/');
    var from := if IsAbsolute(target) then [] else root;
    assert Resolve(fs, root, [n]) == Walk(fs, from, Split(target, '/') + [n][1..], true, MAX_LINK_HOPS - 1);
  }

  /** Neither half of the safe-link premise can be dropped: in every tree, a link to
      the parent directory leads out of the directory that holds it, ... */
  lemma ParentLinkEscapes(fs: Fs, root: Path, n: string)
    requires IsDirAt(fs, root) && root != [] && n != "" && n != "." && n != ".."
    requires root + [n] in fs.nodes && fs.nodes[root + [n]] == Symlink("..")
    ensures Escapes(fs, root, [n])
  {
    SplitWhole("..", '/');
    LinkEscapesIff(fs, root, n, "..");
    assert [".."][1..] == [];
  }

  /** ... and an absolute link to any directory that is not below it. */
  lemma AbsoluteLinkEscapes(fs: Fs, root: Path, n: string, q: Path)
    requires IsDirAt(fs, root) && n != "" && n != "." && n != ".."
    requires root + [n] in fs.nodes && fs.nodes[root + [n]] == Symlink("/" + Join(q, '/'))
    requires q != [] && (forall c :: c in q ==> c != "" && c != "." && c != ".." && '/' !in c)
    requires (forall j :: 0 < j <= |q| ==> IsDirAt(fs, q[..j])) && !(root <= q)
    ensures Escapes(fs, root, [n])
  {
    var target := "/" + Join(q, '/');
    assert target == "" + ['/'] + Join(q, '/');
    SplitPiece("", Join(q, '/'), '/');
    assert forall i :: 0 <= i < |q| ==> q[i] in q;
    SplitJoin(q, '/');
    assert Split(target, '/') == [""] + q && ([""] + q)[1..] == q;
    WalkIntoDirs(fs, q, 0, MAX_LINK_HOPS - 1);
    LinkEscapesIff(fs, root, n, target);
  }

  lemma {:induction false} WalkIntoDirs(fs: Fs, q: Path, k: nat, hops: nat)
    requires k <= |q| && (forall c :: c in q ==> c != "" && c != "." && c != ".." && '/' !in c)
    requires forall j :: 0 < j <= |q| ==> IsDirAt(fs, q[..j])
    ensures Walk(fs, q[..k], q[k..], true, hops) == At(q)
    decreases |q| - k
  {
    if k < |q| {
      assert q[k] in q;
      assert q[..k] + [q[k]] == q[..k + 1] && q[k..][1..] == q[k + 1..];
      WalkIntoDirs(fs, q, k + 1, hops);
    } else {
      assert q[..k] == q && q[k..] == [];
    }
  }

  // ----- system calls -----

  predicate IsDirAt(fs: Fs, p: Path)
  {
    p in fs.nodes && fs.nodes[p].Dir?
  }

  predicate ParentIsDir(fs: Fs, p: Path)
  {
    p != [] && IsDirAt(fs, p[..|p| - 1])
  }

  predicate Exists(fs: Fs, root: Path, rel: seq<string>)
  {
    var r := Resolve(fs, root, rel);
    r.At? && r.path in fs.nodes
  }

  predicate IsDir(fs: Fs, root: Path, rel: seq<string>)
  {
    var r := Resolve(fs, root, rel);
    r.At? && IsDirAt(fs, r.path)
  }

  /** `symlink_metadata(..).is_symlink()` */
  predicate IsLink(fs: Fs, root: Path, rel: seq<string>)
  {
    var r := Locate(fs, root, rel);
    r.At? && r.path in fs.nodes && fs.nodes[r.path].Symlink?
  }

  /** The result of a call that may fail: a failed call changes nothing,
      except `MkdirAll`, which keeps the parents it made. */
  datatype Done = Done(fs: Fs, ok: bool)

  datatype MkdirResult = Made(fs: Fs) | NoParent | Blocked

  function Mkdir(fs: Fs, root: Path, rel: seq<string>): MkdirResult
  {
    var r := Locate(fs, root, rel);
    if r.NotFound? then NoParent
    else if !r.At? || r.path in fs.nodes then Blocked
    else if !ParentIsDir(fs, r.path) then NoParent
    else Made(fs.(nodes := fs.nodes[r.path := Dir(NEW_DIR_MODE)]))
  }

  /** `create_dir_all`: try, make the parents if they are missing, try again;
      an existing directory, also behind a link, is a success. */
  function MkdirAll(fs: Fs, root: Path, rel: seq<string>): Done
    decreases |rel|
  {
    match Mkdir(fs, root, rel)
    case Made(fs') => Done(fs', true)
    case Blocked => Done(fs, IsDir(fs, root, rel))
    case NoParent =>
      if rel == [] then Done(fs, false)
      else
        var up := MkdirAll(fs, root, rel[..|rel| - 1]);
        if !up.ok then up
        else match Mkdir(up.fs, root, rel)
          case Made(fs') => Done(fs', true)
          case _ => Done(up.fs, IsDir(up.fs, root, rel))
  }

  /** `remove_file`: unlinks a file or a link, never a directory. */
  function RemoveFile(fs: Fs, root: Path, rel: seq<string>): Fs
  {
    var r := Locate(fs, root, rel);
    if r.At? && r.path in fs.nodes && !fs.nodes[r.path].Dir?
    then fs.(nodes := fs.nodes - {r.path})
    else fs
  }

  /** `fs::write`: follows links, truncates an existing file, creates a missing one. */
  function WriteFile(fs: Fs, root: Path, rel: seq<string>, content: Bytes): Done
  {
    var r := Resolve(fs, root, rel);
    if !r.At? then Done(fs, false)
    else if r.path in fs.nodes then
      match fs.nodes[r.path]
      case File(i) =>
        var mode := if i in fs.inodes then fs.inodes[i].mode else NEW_FILE_MODE;
        if i in fs.inodes then Done(fs.(inodes := fs.inodes[i := Inode(content, mode)]), true) else Done(fs, false)
      case _ => Done(fs, false)
    else if !ParentIsDir(fs, r.path) then Done(fs, false)
    else Done(Fs(fs.nodes[r.path := File(fs.nextIno)],
                 fs.inodes[fs.nextIno := Inode(content, NEW_FILE_MODE)],
                 fs.nextIno + 1), true)
  }

  /** `set_permissions`: follows links; callers ignore its failure. */
  function Chmod(fs: Fs, root: Path, rel: seq<string>, mode: nat): Fs
  {
    var r := Resolve(fs, root, rel);
    if !r.At? || r.path !in fs.nodes then fs
    else match fs.nodes[r.path]
      case Dir(_) => fs.(nodes := fs.nodes[r.path := Dir(mode)])
      case File(i) => if i in fs.inodes then fs.(inodes := fs.inodes[i := fs.inodes[i].(mode := mode)]) else fs
      case Symlink(_) => fs
  }

  function MakeSymlink(fs: Fs, root: Path, rel: seq<string>, target: string): Done
  {
    var r := Locate(fs, root, rel);
    if !r.At? || r.path in fs.nodes || !ParentIsDir(fs, r.path) then Done(fs, false)
    else Done(fs.(nodes := fs.nodes[r.path := Symlink(target)]), true)
  }

  /** `link(2)`: a second name for the node itself, also when it is a link. */
  function HardLink(fs: Fs, root: Path, from: seq<string>, to: seq<string>): Done
  {
    var a, b := Locate(fs, root, from), Locate(fs, root, to);
    if !a.At? || a.path !in fs.nodes || fs.nodes[a.path].Dir? then Done(fs, false)
    else if !b.At? || b.path in fs.nodes || !ParentIsDir(fs, b.path) then Done(fs, false)
    else Done(fs.(nodes := fs.nodes[b.path := fs.nodes[a.path]]), true)
  }

  // ----- every call keeps the containment invariant -----

  /** Calls add entries to directories and never remove a directory. */
  lemma RootedAfter(fs: Fs, fs': Fs, root: Path)
    requires Rooted(fs, root)
    requires forall q :: q in fs'.nodes && q !in fs.nodes ==> ParentIsDir(fs, q)
    requires forall q :: IsDirAt(fs, q) ==> IsDirAt(fs', q)
    ensures Rooted(fs', root)
  {
    forall d: Path, c: string | root <= d && d + [c] in fs'.nodes
      ensures IsDirAt(fs', d)
    {
      if d + [c] in fs.nodes {
        assert IsDirAt(fs, d);
      } else {
        var q := d + [c];
        assert q[..|q| - 1] == d;
      }
    }
  }

  lemma MkdirContained(fs: Fs, root: Path, rel: seq<string>)
    requires Staged(fs, root) && ".." !in rel
    ensures var r := Mkdir(fs, root, rel); r.Made? ==> Staged(r.fs, root) && Untouched(fs, r.fs, root)
  {
    WalkConfined(fs, root, root, rel, false, MAX_LINK_HOPS);
    var r := Mkdir(fs, root, rel);
    if r.Made? { RootedAfter(fs, r.fs, root); }
  }

  lemma {:induction false} MkdirAllContained(fs: Fs, root: Path, rel: seq<string>)
    requires Staged(fs, root) && ".." !in rel
    ensures var r := MkdirAll(fs, root, rel); Staged(r.fs, root) && Untouched(fs, r.fs, root)
    decreases |rel|
  {
    MkdirContained(fs, root, rel);
    if Mkdir(fs, root, rel).NoParent? && rel != [] {
      MkdirAllContained(fs, root, rel[..|rel| - 1]);
      var up := MkdirAll(fs, root, rel[..|rel| - 1]);
      MkdirContained(up.fs, root, rel);
    }
  }

  lemma RemoveFileContained(fs: Fs, root: Path, rel: seq<string>)
    requires Staged(fs, root) && ".." !in rel
    ensures var fs' := RemoveFile(fs, root, rel); Staged(fs', root) && Untouched(fs, fs', root)
  {
    WalkConfined(fs, root, root, rel, false, MAX_LINK_HOPS);
    RootedAfter(fs, RemoveFile(fs, root, rel), root);
  }

  lemma WriteFileContained(fs: Fs, root: Path, rel: seq<string>, content: Bytes)
    requires Staged(fs, root) && ".." !in rel
    ensures var r := WriteFile(fs, root, rel, content); Staged(r.fs, root) && Untouched(fs, r.fs, root)
  {
    WalkConfined(fs, root, root, rel, true, MAX_LINK_HOPS);
    RootedAfter(fs, WriteFile(fs, root, rel, content).fs, root);
  }

  lemma ChmodContained(fs: Fs, root: Path, rel: seq<string>, mode: nat)
    requires Staged(fs, root) && ".." !in rel
    ensures var fs' := Chmod(fs, root, rel, mode); Staged(fs', root) && Untouched(fs, fs', root)
  {
    WalkConfined(fs, root, root, rel, true, MAX_LINK_HOPS);
    RootedAfter(fs, Chmod(fs, root, rel, mode), root);
  }

  lemma MakeSymlinkContained(fs: Fs, root: Path, rel: seq<string>, target: string)
    requires Staged(fs, root) && ".." !in rel && SafeTarget(target)
    ensures var r := MakeSymlink(fs, root, rel, target); Staged(r.fs, root) && Untouched(fs, r.fs, root)
  {
    WalkConfined(fs, root, root, rel, false, MAX_LINK_HOPS);
    RootedAfter(fs, MakeSymlink(fs, root, rel, target).fs, root);
  }

  lemma HardLinkContained(fs: Fs, root: Path, from: seq<string>, to: seq<string>)
    requires Staged(fs, root) && ".." !in from && ".." !in to
    ensures var r := HardLink(fs, root, from, to); Staged(r.fs, root) && Untouched(fs, r.fs, root)
  {
    WalkConfined(fs, root, root, from, false, MAX_LINK_HOPS);
    WalkConfined(fs, root, root, to, false, MAX_LINK_HOPS);
    RootedAfter(fs, HardLink(fs, root, from, to).fs, root);
  }
}
