/** The bounded walk over the parent-to-children table. */
module ProcessTree {

  type Pid = nat
  type Table = map<Pid, seq<Pid>>

  const MAX_WALK_NODES: nat := 4096
  const MAX_WALK_DEPTH: nat := 32

  function Kids(children: Table, pid: Pid): seq<Pid>
  {
    if pid in children then children[pid] else []
  }

  /** The table of one scan, from (pid, parent) lines in scan order. */
  function TableOf(scan: seq<(Pid, Pid)>): Table
  {
    if scan == [] then map[]
    else
      var before, line := TableOf(scan[..|scan| - 1]), scan[|scan| - 1];
      before[line.1 := Kids(before, line.1) + [line.0]]
  }

  // ----- the walk -----

  datatype Visit = Visit(pid: Pid, depth: nat)

  /** The top of the stack is its last element. */
  datatype Walk = Walk(seen: set<Pid>, found: seq<Pid>, stack: seq<Visit>)

  function VisitKids(w: Walk, kids: seq<Pid>, depth: nat): (r: Walk)
    ensures |r.found| - |w.found| == |r.stack| - |w.stack| >= 0
    ensures |w.found| <= MAX_WALK_NODES ==> |r.found| <= MAX_WALK_NODES
    decreases |kids|
  {
    if kids == [] then w
    else
      var kid := kids[0];
      var next :=
        if kid in w.seen then w
        else if |w.found| < MAX_WALK_NODES
        then Walk(w.seen + {kid}, w.found + [kid], w.stack + [Visit(kid, depth)])
        else w.(seen := w.seen + {kid});
      VisitKids(next, kids[1..], depth)
  }

  function WalkStep(children: Table, w: Walk): Walk
    requires w.stack != []
  {
    var top, popped := w.stack[|w.stack| - 1], w.(stack := w.stack[..|w.stack| - 1]);
    if top.depth >= MAX_WALK_DEPTH then popped else VisitKids(popped, Kids(children, top.pid), top.depth + 1)
  }

  function WalkAll(children: Table, w: Walk): seq<Pid>
    requires |w.found| <= MAX_WALK_NODES
    decreases MAX_WALK_NODES - |w.found|, |w.stack|
  {
    if w.stack == [] then w.found else WalkAll(children, WalkStep(children, w))
  }

  function Start(roots: seq<Pid>): Walk
  {
    Walk(set r | r in roots, [], seq(|roots|, i requires 0 <= i < |roots| => Visit(roots[i], 0)))
  }

  function Descendants(children: Table, roots: seq<Pid>): seq<Pid>
  {
    WalkAll(children, Start(roots))
  }

  /** `descendants_from`: it terminates on every table, cyclic ones included. */
  method DescendantsFrom(children: Table, roots: seq<Pid>) returns (found: seq<Pid>)
    ensures found == Descendants(children, roots)
  {
    var seen := set r | r in roots;
    found := [];
    var stack := seq(|roots|, i requires 0 <= i < |roots| => Visit(roots[i], 0));
    while stack != []
      invariant |found| <= MAX_WALK_NODES
      invariant Descendants(children, roots) == WalkAll(children, Walk(seen, found, stack))
      decreases MAX_WALK_NODES - |found|, |stack|
    {
      ghost var before := Walk(seen, found, stack);
      var top := stack[|stack| - 1];
      stack := stack[..|stack| - 1];
      if top.depth >= MAX_WALK_DEPTH || top.pid !in children {
        assert WalkStep(children, before) == Walk(seen, found, stack);
        continue;
      }
      var kids := children[top.pid];
      var k := 0;
      while k < |kids|
        invariant 0 <= k <= |kids| && |found| <= MAX_WALK_NODES
        invariant |found| - |before.found| == |stack| - |before.stack| + 1 >= 0
        invariant WalkStep(children, before) == VisitKids(Walk(seen, found, stack), kids[k..], top.depth + 1)
      {
        var kid := kids[k];
        assert kids[k..][1..] == kids[k + 1..];
        if kid !in seen {
          seen := seen + {kid};
          if |found| < MAX_WALK_NODES {
            found := found + [kid];
            stack := stack + [Visit(kid, top.depth + 1)];
          }
        }
        k := k + 1;
      }
      assert WalkStep(children, before) == Walk(seen, found, stack);
    }
  }

  // ----- what it finds -----

  /** `p` is `d` child steps below a root, with no root strictly between. */
  ghost predicate Near(children: Table, roots: seq<Pid>, p: Pid, d: nat)
    decreases d
  {
    if d == 0 then p in roots
    else p !in roots && exists q :: p in Kids(children, q) && Near(children, roots, q, d - 1)
  }

  ghost predicate WithinBound(children: Table, roots: seq<Pid>, p: Pid)
  {
    exists d: nat :: 1 <= d <= MAX_WALK_DEPTH && Near(children, roots, p, d)
  }

  predicate NoRepeats(s: seq<Pid>)
  {
    forall i, j :: 0 <= i < j < |s| ==> s[i] != s[j]
  }

  ghost predicate WalkInv(children: Table, roots: seq<Pid>, w: Walk)
  {
    && NoRepeats(w.found) && |w.found| <= MAX_WALK_NODES
    && (forall p :: p in w.found ==> p in w.seen && WithinBound(children, roots, p))
    && (forall p :: p in roots ==> p in w.seen)
    && (forall v :: v in w.stack ==> v.depth <= MAX_WALK_DEPTH && Near(children, roots, v.pid, v.depth))
    && (|w.found| < MAX_WALK_NODES ==> forall p :: p in w.seen ==> p in roots || p in w.found)
  }

  lemma {:induction false} VisitKidsInv(children: Table, roots: seq<Pid>, w: Walk, kids: seq<Pid>, parent: Pid,
                                        depth: nat)
    requires WalkInv(children, roots, w) && 1 <= depth <= MAX_WALK_DEPTH
    requires Near(children, roots, parent, depth - 1) && forall k :: k in kids ==> k in Kids(children, parent)
    ensures WalkInv(children, roots, VisitKids(w, kids, depth))
    decreases |kids|
  {
    if kids != [] {
      var kid := kids[0];
      assert kid in kids;
      if kid !in w.seen && |w.found| < MAX_WALK_NODES {
        assert Near(children, roots, kid, depth);
        var next := Walk(w.seen + {kid}, w.found + [kid], w.stack + [Visit(kid, depth)]);
        VisitKidsInv(children, roots, next, kids[1..], parent, depth);
      } else if kid !in w.seen {
        VisitKidsInv(children, roots, w.(seen := w.seen + {kid}), kids[1..], parent, depth);
      } else {
        VisitKidsInv(children, roots, w, kids[1..], parent, depth);
      }
    }
  }

  lemma WalkStepInv(children: Table, roots: seq<Pid>, w: Walk)
    requires WalkInv(children, roots, w) && w.stack != []
    ensures WalkInv(children, roots, WalkStep(children, w))
  {
    var top, popped := w.stack[|w.stack| - 1], w.(stack := w.stack[..|w.stack| - 1]);
    assert top in w.stack;
    assert forall v :: v in popped.stack ==> v in w.stack;
    if top.depth < MAX_WALK_DEPTH {
      VisitKidsInv(children, roots, popped, Kids(children, top.pid), top.pid, top.depth + 1);
    }
  }

  lemma {:induction false} WalkAllInv(children: Table, roots: seq<Pid>, w: Walk)
    requires WalkInv(children, roots, w)
    ensures var r := WalkAll(children, w);
            && NoRepeats(r) && |r| <= MAX_WALK_NODES
            && forall p :: p in r ==> WithinBound(children, roots, p)
    decreases MAX_WALK_NODES - |w.found|, |w.stack|
  {
    if w.stack != [] {
      WalkStepInv(children, roots, w);
      WalkAllInv(children, roots, WalkStep(children, w));
    }
  }

  /** For every table and all roots: no repeats, at most 4096 pids, no root, and
      each within 32 child steps of a root. */
  lemma WalkIsSound(children: Table, roots: seq<Pid>)
    ensures var r := Descendants(children, roots);
            && NoRepeats(r) && |r| <= MAX_WALK_NODES
            && (forall p :: p in r ==> p !in roots)
            && forall p :: p in r ==> WithinBound(children, roots, p)
  {
    var w := Start(roots);
    assert forall v :: v in w.stack ==> v.depth == 0 && v.pid in roots;
    WalkAllInv(children, roots, w);
  }

  // ----- what it does not miss -----

  ghost predicate SingleParent(children: Table)
  {
    forall p, a, b :: p in Kids(children, a) && p in Kids(children, b) ==> a == b
  }

  /** A scan that lists each pid once gives each pid one parent. */
  lemma {:induction false} ScanHasSingleParents(scan: seq<(Pid, Pid)>)
    requires forall i, j :: 0 <= i < j < |scan| ==> scan[i].0 != scan[j].0
    ensures SingleParent(TableOf(scan))
    ensures forall p: Pid, a: Pid :: p in Kids(TableOf(scan), a) <==> (p, a) in scan
  {
    if scan != [] {
      var shorter, line := scan[..|scan| - 1], scan[|scan| - 1];
      ScanHasSingleParents(shorter);
      assert scan == shorter + [line];
      forall p: Pid, a: Pid ensures p in Kids(TableOf(scan), a) <==> (p, a) in scan {
        assert p in Kids(TableOf(scan), a) <==> p in Kids(TableOf(shorter), a) || (p, a) == line;
      }
      forall p: Pid, a: Pid, b: Pid | p in Kids(TableOf(scan), a) && p in Kids(TableOf(scan), b) ensures a == b {
        assert (p, a) in scan && (p, b) in scan;
        var i :| 0 <= i < |scan| && scan[i] == (p, a);
        var j :| 0 <= j < |scan| && scan[j] == (p, b);
        assert i == j;
      }
    }
  }

  /** With one parent each, a pid has one distance. */
  lemma {:induction false} NearUnique(children: Table, roots: seq<Pid>, p: Pid, d: nat, e: nat)
    requires SingleParent(children) && Near(children, roots, p, d) && Near(children, roots, p, e)
    ensures d == e
    decreases d
  {
    if d > 0 && e > 0 {
      var q :| p in Kids(children, q) && Near(children, roots, q, d - 1);
      var r :| p in Kids(children, r) && Near(children, roots, r, e - 1);
      NearUnique(children, roots, q, d - 1, e - 1);
    }
  }

  ghost predicate OnStack(stack: seq<Visit>, p: Pid)
  {
    exists v :: v in stack && v.pid == p
  }

  /** Every seen pid is still to be expanded, at the bound, or has all its children seen. */
  ghost predicate Closed(children: Table, roots: seq<Pid>, w: Walk)
  {
    forall p: Pid, d: nat | p in w.seen && Near(children, roots, p, d) && d < MAX_WALK_DEPTH && !OnStack(w.stack, p) ::
      forall k :: k in Kids(children, p) ==> k in w.seen
  }

  lemma {:induction false} VisitKidsGrows(w: Walk, kids: seq<Pid>, depth: nat)
    requires |VisitKids(w, kids, depth).found| < MAX_WALK_NODES
    ensures var r := VisitKids(w, kids, depth);
            && w.seen <= r.seen && (forall k :: k in kids ==> k in r.seen)
            && (forall v :: v in w.stack ==> v in r.stack)
            && (forall p :: p in r.seen && p !in w.seen ==> OnStack(r.stack, p))
    decreases |kids|
  {
    if kids != [] {
      var kid := kids[0];
      var next :=
        if kid in w.seen then w
        else Walk(w.seen + {kid}, w.found + [kid], w.stack + [Visit(kid, depth)]);
      VisitKidsGrows(next, kids[1..], depth);
      var r := VisitKids(w, kids, depth);
      if kid !in w.seen {
        assert Visit(kid, depth) in next.stack;
      }
      assert forall k :: k in kids <==> k == kid || k in kids[1..];
    }
  }

  /** The pids seen before the step and those it adds are all settled after it. */
  lemma StillClosed(children: Table, roots: seq<Pid>, w: Walk, top: Visit, next: Walk, p: Pid, d: nat)
    requires Closed(children, roots, w) && w.seen <= next.seen
    requires forall v :: v in w.stack && v != top ==> v in next.stack
    requires p in next.seen && (p in w.seen || OnStack(next.stack, p))
    requires p != top.pid && Near(children, roots, p, d) && d < MAX_WALK_DEPTH && !OnStack(next.stack, p)
    ensures forall k :: k in Kids(children, p) ==> k in next.seen
  {
    assert !OnStack(w.stack, p);
  }

  lemma StepGrows(children: Table, w: Walk)
    requires w.stack != [] && |WalkStep(children, w).found| < MAX_WALK_NODES
    ensures var top, next := w.stack[|w.stack| - 1], WalkStep(children, w);
            && w.seen <= next.seen
            && (forall v :: v in w.stack && v != top ==> v in next.stack)
            && (forall p :: p in next.seen && p !in w.seen ==> OnStack(next.stack, p))
            && (top.depth < MAX_WALK_DEPTH ==> forall k :: k in Kids(children, top.pid) ==> k in next.seen)
  {
    var top, popped := w.stack[|w.stack| - 1], w.(stack := w.stack[..|w.stack| - 1]);
    assert w.stack == popped.stack + [top];
    if top.depth < MAX_WALK_DEPTH {
      VisitKidsGrows(popped, Kids(children, top.pid), top.depth + 1);
    }
  }

  lemma WalkStepClosed(children: Table, roots: seq<Pid>, w: Walk)
    requires SingleParent(children) && WalkInv(children, roots, w) && Closed(children, roots, w) && w.stack != []
    requires |WalkStep(children, w).found| < MAX_WALK_NODES
    ensures Closed(children, roots, WalkStep(children, w)) && w.seen <= WalkStep(children, w).seen
  {
    var top, next := w.stack[|w.stack| - 1], WalkStep(children, w);
    assert top in w.stack;
    StepGrows(children, w);
    forall p: Pid, d: nat
      | p in next.seen && Near(children, roots, p, d) && d < MAX_WALK_DEPTH && !OnStack(next.stack, p)
      ensures forall k :: k in Kids(children, p) ==> k in next.seen
    {
      if p == top.pid {
        NearUnique(children, roots, p, d, top.depth);
      } else {
        StillClosed(children, roots, w, top, next, p, d);
      }
    }
  }

  lemma {:induction false} FoundGrows(children: Table, w: Walk)
    requires |w.found| <= MAX_WALK_NODES
    ensures |w.found| <= |WalkAll(children, w)|
    decreases MAX_WALK_NODES - |w.found|, |w.stack|
  {
    if w.stack != [] {
      FoundGrows(children, WalkStep(children, w));
    }
  }

  lemma {:induction false} WalkAllClosed(children: Table, roots: seq<Pid>, w: Walk) returns (last: Walk)
    requires SingleParent(children) && WalkInv(children, roots, w) && Closed(children, roots, w)
    requires |WalkAll(children, w)| < MAX_WALK_NODES
    ensures WalkInv(children, roots, last) && Closed(children, roots, last)
    ensures last.stack == [] && last.found == WalkAll(children, w)
    decreases MAX_WALK_NODES - |w.found|, |w.stack|
  {
    if w.stack == [] {
      last := w;
    } else {
      WalkStepInv(children, roots, w);
      FoundGrows(children, WalkStep(children, w));
      WalkStepClosed(children, roots, w);
      last := WalkAllClosed(children, roots, WalkStep(children, w));
    }
  }

  lemma {:induction false} AllNearSeen(children: Table, roots: seq<Pid>, w: Walk, p: Pid, d: nat)
    requires WalkInv(children, roots, w) && Closed(children, roots, w) && w.stack == []
    requires Near(children, roots, p, d) && d <= MAX_WALK_DEPTH
    ensures p in w.seen
    decreases d
  {
    if d > 0 {
      var q :| p in Kids(children, q) && Near(children, roots, q, d - 1);
      AllNearSeen(children, roots, w, q, d - 1);
      assert !OnStack(w.stack, q);
    }
  }

  /** A walk that ends below the cap has found exactly the pids within 32 steps. */
  lemma BelowCapIsComplete(children: Table, roots: seq<Pid>, p: Pid)
    requires SingleParent(children) && |Descendants(children, roots)| < MAX_WALK_NODES
    ensures p in Descendants(children, roots) <==> WithinBound(children, roots, p)
  {
    WalkIsSound(children, roots);
    var w := Start(roots);
    assert forall v :: v in w.stack ==> v.depth == 0 && v.pid in roots;
    forall p | p in w.seen ensures OnStack(w.stack, p) {
      var i :| 0 <= i < |roots| && roots[i] == p;
      assert w.stack[i] == Visit(p, 0);
    }
    var last := WalkAllClosed(children, roots, w);
    if WithinBound(children, roots, p) {
      var d: nat :| 1 <= d <= MAX_WALK_DEPTH && Near(children, roots, p, d);
      AllNearSeen(children, roots, last, p, d);
    }
  }

  /** The pids there are to find, known from the table and the roots alone. */
  ghost function Within(children: Table, roots: seq<Pid>): set<Pid>
  {
    set a, p | a in children && p in children[a] && WithinBound(children, roots, p) :: p
  }

  lemma WithinIsBound(children: Table, roots: seq<Pid>, p: Pid)
    ensures p in Within(children, roots) <==> WithinBound(children, roots, p)
  {
    if WithinBound(children, roots, p) {
      var d: nat :| 1 <= d <= MAX_WALK_DEPTH && Near(children, roots, p, d);
      var q :| p in Kids(children, q) && Near(children, roots, q, d - 1);
      assert q in children && p in children[q];
    }
  }

  lemma {:induction false} SizeOfDistinct(s: seq<Pid>, all: set<Pid>)
    requires NoRepeats(s) && forall p :: p in all <==> p in s
    ensures |all| == |s|
  {
    if s == [] {
      assert all == {};
    } else {
      var init, last := s[..|s| - 1], s[|s| - 1];
      assert s == init + [last];
      assert last !in init;
      SizeOfDistinct(init, all - {last});
    }
  }

  lemma FullSubset(part: set<Pid>, whole: set<Pid>)
    requires part <= whole && |whole| <= |part|
    ensures part == whole
  {
    assert |whole| == |part| + |whole - part|;
  }

  lemma SmallerPart(part: set<Pid>, whole: set<Pid>)
    requires part <= whole
    ensures |part| <= |whole|
  {
    assert |whole| == |part| + |whole - part|;
  }

  /** With one parent each, the walk finds all there is, up to its cap. */
  lemma WalkFindsUpToCap(children: Table, roots: seq<Pid>)
    requires SingleParent(children)
    ensures var r, all := Descendants(children, roots), Within(children, roots);
            && |r| == (if |all| <= MAX_WALK_NODES then |all| else MAX_WALK_NODES)
            && (|all| <= MAX_WALK_NODES ==> all == set p | p in r)
  {
    var r, all := Descendants(children, roots), Within(children, roots);
    var found := set p | p in r;
    WalkIsSound(children, roots);
    forall p | p in found ensures p in all { WithinIsBound(children, roots, p); }
    SizeOfDistinct(r, found);
    SmallerPart(found, all);
    if |r| < MAX_WALK_NODES {
      forall p | p in all ensures p in found {
        WithinIsBound(children, roots, p);
        BelowCapIsComplete(children, roots, p);
      }
      assert found == all;
    } else if |all| <= MAX_WALK_NODES {
      FullSubset(found, all);
    }
  }

  /** Where each pid has one parent, the walk finds exactly the pids within 32
      steps of their nearest root ancestor if and only if there are at most 4096. */
  lemma WalkIsComplete(children: Table, roots: seq<Pid>)
    requires SingleParent(children)
    ensures (forall p :: p in Descendants(children, roots) <==> WithinBound(children, roots, p)) <==>
              |Within(children, roots)| <= MAX_WALK_NODES
  {
    var r, all := Descendants(children, roots), Within(children, roots);
    WalkFindsUpToCap(children, roots);
    forall p ensures p in all <==> WithinBound(children, roots, p) { WithinIsBound(children, roots, p); }
    if forall p :: p in r <==> WithinBound(children, roots, p) {
      WalkIsSound(children, roots);
      SizeOfDistinct(r, all);
    }
  }
}
