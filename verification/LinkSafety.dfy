/** Exactly when relative names stay inside the directory they are looked up in: it
    is enough to follow each link below that directory. */
module LinkSafety {
  import opened Text
  import opened FileTree

  predicate Named(c: string)
  {
    c != "" && c != "." && c != ".."
  }

  /** What the walk itself has added to a location below `root`. */
  predicate Clean(root: Path, cur: Path)
  {
    forall i :: |root| <= i < |cur| ==> Named(cur[i])
  }

  lemma {:induction false} WalkStaysClean(fs: Fs, root: Path, cur: Path, todo: seq<string>, follow: bool, hops: nat)
    requires Clean(root, cur)
    ensures var r := Walk(fs, cur, todo, follow, hops); r.At? ==> Clean(root, r.path)
    decreases hops, |todo|
  {
    if todo != [] {
      var c, rest := todo[0], todo[1..];
      if c == "" || c == "." {
        WalkStaysClean(fs, root, cur, rest, follow, hops);
      } else if c == ".." {
        WalkStaysClean(fs, root, if cur == [] then [] else cur[..|cur| - 1], rest, follow, hops);
      } else {
        var p := cur + [c];
        assert Clean(root, p);
        if p in fs.nodes && fs.nodes[p].Dir? {
          WalkStaysClean(fs, root, p, rest, follow, hops);
        } else if p in fs.nodes && fs.nodes[p].Symlink? && hops > 0 {
          var t := fs.nodes[p].target;
          WalkStaysClean(fs, root, if IsAbsolute(t) then [] else cur, Split(t, '/') + rest, follow, hops - 1);
        }
      }
    }
  }

  /** A lookup that succeeds does so with more links allowed. */
  lemma {:induction false} WalkMoreHops(fs: Fs, cur: Path, todo: seq<string>, follow: bool, hops: nat, more: nat)
    requires hops <= more && Walk(fs, cur, todo, follow, hops).At?
    ensures Walk(fs, cur, todo, follow, more) == Walk(fs, cur, todo, follow, hops)
    decreases hops, |todo|
  {
    if todo != [] {
      var c, rest := todo[0], todo[1..];
      if c == "" || c == "." {
        WalkMoreHops(fs, cur, rest, follow, hops, more);
      } else if c == ".." {
        WalkMoreHops(fs, if cur == [] then [] else cur[..|cur| - 1], rest, follow, hops, more);
      } else {
        var p := cur + [c];
        if p in fs.nodes && !(rest == [] && !follow) {
          if fs.nodes[p].Dir? {
            WalkMoreHops(fs, p, rest, follow, hops, more);
          } else if fs.nodes[p].Symlink? {
            var t := fs.nodes[p].target;
            WalkMoreHops(fs, if IsAbsolute(t) then [] else cur, Split(t, '/') + rest, follow, hops - 1, more - 1);
          }
        }
      }
    }
  }

  /** A successful walk of `a` and then `b` passes where the walk of `a` ends. */
  lemma {:induction false} WalkThen(fs: Fs, cur: Path, a: seq<string>, b: seq<string>, hops: nat) returns (left: nat)
    requires b != [] && Walk(fs, cur, a + b, true, hops).At?
    ensures left <= hops && Walk(fs, cur, a, true, hops).At?
    ensures Walk(fs, Walk(fs, cur, a, true, hops).path, b, true, left) == Walk(fs, cur, a + b, true, hops)
    decreases hops, |a|
  {
    left := hops;
    if a == [] {
      assert a + b == b;
    } else {
      var c, rest := a[0], a[1..];
      assert (a + b)[0] == c && (a + b)[1..] == rest + b;
      if c == "" || c == "." {
        left := WalkThen(fs, cur, rest, b, hops);
      } else if c == ".." {
        left := WalkThen(fs, if cur == [] then [] else cur[..|cur| - 1], rest, b, hops);
      } else if fs.nodes[cur + [c]].Dir? {
        left := WalkThen(fs, cur + [c], rest, b, hops);
      } else {
        var t := fs.nodes[cur + [c]].target;
        assert Split(t, '/') + (rest + b) == Split(t, '/') + rest + b;
        left := WalkThen(fs, if IsAbsolute(t) then [] else cur, Split(t, '/') + rest, b, hops - 1);
      }
    }
  }

  /** `q` is the path, from `root`, of a link. */
  predicate LinkAt(fs: Fs, root: Path, q: seq<string>)
  {
    && q != [] && (forall c :: c in q ==> Named(c))
    && root + q in fs.nodes && fs.nodes[root + q].Symlink?
  }

  lemma {:induction false} DirsDownTo(fs: Fs, root: Path, q: seq<string>, j: nat)
    requires Rooted(fs, root) && root + q in fs.nodes && j < |q|
    ensures IsDirAt(fs, root + q[..j])
    decreases |q| - j
  {
    var d := root + q[..|q| - 1];
    assert d + [q[|q| - 1]] == root + q && root <= d;
    assert IsDirAt(fs, d);
    if j < |q| - 1 {
      DirsDownTo(fs, root, q[..|q| - 1], j);
      assert q[..|q| - 1][..j] == q[..j];
    }
  }

  /** Looking a link up by its own path ends where its target leads. */
  lemma {:induction false} WalkToLink(fs: Fs, root: Path, q: seq<string>, k: nat, hops: nat)
    requires Rooted(fs, root) && LinkAt(fs, root, q) && k < |q| && hops > 0
    ensures var t := fs.nodes[root + q].target;
            Walk(fs, root + q[..k], q[k..], true, hops) ==
              Walk(fs, if IsAbsolute(t) then [] else root + q[..|q| - 1], Split(t, '/'), true, hops - 1)
    decreases |q| - k
  {
    assert q[k] in q;
    assert root + q[..k] + [q[k]] == root + q[..k + 1] && q[k..][1..] == q[k + 1..];
    if k + 1 < |q| {
      DirsDownTo(fs, root, q, k + 1);
      WalkToLink(fs, root, q, k + 1, hops);
    } else {
      var t := fs.nodes[root + q].target;
      assert q[..k + 1] == q;
      assert Split(t, '/') + [] == Split(t, '/');
    }
  }

  /** Where the walk of a link's target leaves `root`, looking the link up does too. */
  lemma LinkLeadsOut(fs: Fs, root: Path, cur: Path, c: string, hops: nat) returns (q: seq<string>)
    requires Rooted(fs, root) && IsDirAt(fs, root) && root <= cur && Clean(root, cur) && Named(c)
    requires cur + [c] in fs.nodes && fs.nodes[cur + [c]].Symlink? && 0 < hops <= MAX_LINK_HOPS
    requires var t := fs.nodes[cur + [c]].target;
             var r := Walk(fs, if IsAbsolute(t) then [] else cur, Split(t, '/'), true, hops - 1);
             r.At? && !(root <= r.path)
    ensures LinkAt(fs, root, q) && Escapes(fs, root, q)
  {
    var t := fs.nodes[cur + [c]].target;
    q := cur[|root|..] + [c];
    assert root + q == cur + [c];
    forall i | 0 <= i < |q| ensures Named(q[i]) {
      assert i < |q| - 1 ==> q[i] == cur[|root| + i];
    }
    assert LinkAt(fs, root, q);
    assert root + q[..0] == root && q[0..] == q && root + q[..|q| - 1] == cur;
    WalkToLink(fs, root, q, 0, MAX_LINK_HOPS);
    WalkMoreHops(fs, if IsAbsolute(t) then [] else cur, Split(t, '/'), true, hops - 1, MAX_LINK_HOPS - 1);
    assert ".." !in q;
  }

  /** A name that leads out does so through a link that leads out by itself. */
  lemma {:induction false} SomeLinkLeadsOut(fs: Fs, root: Path, cur: Path, todo: seq<string>, hops: nat)
    returns (q: seq<string>)
    requires Rooted(fs, root) && IsDirAt(fs, root) && root <= cur && Clean(root, cur) && ".." !in todo
    requires hops <= MAX_LINK_HOPS
    requires var r := Walk(fs, cur, todo, true, hops); r.At? && !(root <= r.path)
    ensures LinkAt(fs, root, q) && Escapes(fs, root, q)
    decreases hops, |todo|
  {
    var c, rest := todo[0], todo[1..];
    if c == "" || c == "." {
      q := SomeLinkLeadsOut(fs, root, cur, rest, hops);
    } else if fs.nodes[cur + [c]].Dir? {
      q := SomeLinkLeadsOut(fs, root, cur + [c], rest, hops);
    } else {
      var t := fs.nodes[cur + [c]].target;
      var from := if IsAbsolute(t) then [] else cur;
      if rest == [] {
        assert Split(t, '/') + rest == Split(t, '/');
        q := LinkLeadsOut(fs, root, cur, c, hops);
      } else {
        var left := WalkThen(fs, from, Split(t, '/'), rest, hops - 1);
        var mid := Walk(fs, from, Split(t, '/'), true, hops - 1).path;
        if root <= mid {
          assert Clean(root, from);
          WalkStaysClean(fs, root, from, Split(t, '/'), true, hops - 1);
          q := SomeLinkLeadsOut(fs, root, mid, rest, left);
        } else {
          q := LinkLeadsOut(fs, root, cur, c, hops);
        }
      }
    }
  }

  /** No name without `..` leads out of a directory if and only if none of the links
      below it does when it is looked up itself. */
  lemma NamesStayInsideIff(fs: Fs, root: Path)
    requires Rooted(fs, root) && IsDirAt(fs, root)
    ensures (forall rel: seq<string> :: !Escapes(fs, root, rel)) <==>
              (forall q: seq<string> :: LinkAt(fs, root, q) ==> !Escapes(fs, root, q))
  {
    if rel: seq<string> :| Escapes(fs, root, rel) {
      var q := SomeLinkLeadsOut(fs, root, root, rel, MAX_LINK_HOPS);
    }
  }
}
