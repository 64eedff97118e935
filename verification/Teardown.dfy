/** Whole-tree teardown: which processes are signalled, in which order, and who
    can be left. The kernel is a set of live processes with kill axioms. */
module Teardown {
  import opened ProcessTree

  datatype Tracked = Tracked(pid: Pid, pgid: nat)
  datatype Sig = Term | Kill
  datatype Signal = ToPid(pid: Pid, sig: Sig) | ToGroup(pgid: nat, sig: Sig)

  // ----- the managed-root sweep -----

  const MAX_SWEEP_PIDS: nat := 4096
  const MAX_SWEEP_TARGETS: nat := 64

  /** A resolved executable path, as its components. */
  type ExePath = seq<string>

  datatype Process = Process(pid: Pid, exe: ExePath, readable: bool)

  /** `Path::starts_with` compares whole components. */
  predicate IsManagedExe(exe: ExePath, roots: seq<ExePath>)
  {
    exists r :: r in roots && r <= exe
  }

  predicate Sweepable(p: Process, me: Pid, roots: seq<ExePath>)
  {
    p.pid != me && p.readable && IsManagedExe(p.exe, roots)
  }

  /** The first 64 managed processes among the first 4096 listed: only managed
      ones, never this process, and all of them while neither bound is reached. */
  method SweepManagedRoots(listed: seq<Process>, me: Pid, roots: seq<ExePath>) returns (out: seq<Pid>)
    ensures |out| <= MAX_SWEEP_TARGETS && me !in out
    ensures forall pid :: pid in out ==>
              exists p, r :: p in listed && p.pid == pid && p.readable && r in roots && r <= p.exe
    ensures |listed| <= MAX_SWEEP_PIDS && |out| < MAX_SWEEP_TARGETS ==>
              forall p, r :: p in listed && p.pid != me && p.readable && r in roots && r <= p.exe ==> p.pid in out
  {
    out := [];
    var bounded := if |listed| <= MAX_SWEEP_PIDS then listed else listed[..MAX_SWEEP_PIDS];
    var i := 0;
    while i < |bounded|
      invariant 0 <= i <= |bounded| && |out| < MAX_SWEEP_TARGETS
      invariant forall pid :: pid in out ==> exists p :: p in listed && p.pid == pid && Sweepable(p, me, roots)
      invariant forall k :: 0 <= k < i && Sweepable(bounded[k], me, roots) ==> bounded[k].pid in out
    {
      var p := bounded[i];
      if Sweepable(p, me, roots) {
        assert p in listed;
        out := out + [p.pid];
        if |out| >= MAX_SWEEP_TARGETS {
          return;
        }
      }
      i := i + 1;
    }
  }

  // ----- the target set -----

  function AppendNew(targets: seq<Pid>, more: seq<Pid>): seq<Pid>
    decreases |more|
  {
    if more == [] then targets
    else AppendNew(if more[0] in targets then targets else targets + [more[0]], more[1..])
  }

  function PidsOf(tracked: seq<Tracked>): (r: seq<Pid>)
    ensures |r| == |tracked| && forall i :: 0 <= i < |r| ==> r[i] == tracked[i].pid
  {
    seq(|tracked|, i requires 0 <= i < |tracked| => tracked[i].pid)
  }

  function GroupsOf(tracked: seq<Tracked>): (r: seq<nat>)
    ensures |r| == |tracked| && forall i :: 0 <= i < |r| ==> r[i] == tracked[i].pgid
  {
    seq(|tracked|, i requires 0 <= i < |tracked| => tracked[i].pgid)
  }

  /** Tracked pids, their descendants in the first scan, the swept pids, and
      their descendants in a second scan. */
  function Targets(tracked: seq<Tracked>, scan1: Table, swept: seq<Pid>, scan2: Table): seq<Pid>
  {
    var pids := PidsOf(tracked);
    var own := AppendNew(AppendNew(pids, Descendants(scan1, pids)), swept);
    if swept == [] then own else AppendNew(own, Descendants(scan2, swept))
  }

  lemma {:induction false} AppendNewMembers(targets: seq<Pid>, more: seq<Pid>)
    ensures forall p :: p in AppendNew(targets, more) <==> p in targets || p in more
    decreases |more|
  {
    if more != [] {
      AppendNewMembers(if more[0] in targets then targets else targets + [more[0]], more[1..]);
      assert forall p :: p in more <==> p == more[0] || p in more[1..];
    }
  }

  /** The target set is exactly those four kinds of process. */
  lemma TargetSet(tracked: seq<Tracked>, scan1: Table, swept: seq<Pid>, scan2: Table, p: Pid)
    ensures p in Targets(tracked, scan1, swept, scan2) <==>
              || (exists t :: t in tracked && t.pid == p)
              || p in Descendants(scan1, PidsOf(tracked))
              || p in swept
              || p in Descendants(scan2, swept)
  {
    var pids := PidsOf(tracked);
    AppendNewMembers(pids, Descendants(scan1, pids));
    AppendNewMembers(AppendNew(pids, Descendants(scan1, pids)), swept);
    AppendNewMembers(AppendNew(AppendNew(pids, Descendants(scan1, pids)), swept), Descendants(scan2, swept));
    if p in pids {
      var i :| 0 <= i < |pids| && pids[i] == p;
      assert tracked[i] in tracked;
    }
    if t :| t in tracked && t.pid == p {
      var i :| 0 <= i < |tracked| && tracked[i] == t;
      assert pids[i] == p;
    }
    assert Start([]).stack == [];
  }

  // ----- signals -----

  /** A round of signals reaches every group and every pid of its lists, and nobody else. */
  lemma RoundIsExact(groups: seq<nat>, pids: seq<Pid>, sig: Sig, s: Signal)
    ensures s in GroupSignals(groups, sig) + PidSignals(pids, sig) <==>
              s.sig == sig && if s.ToGroup? then s.pgid in groups else s.pid in pids
  {
    if s.sig == sig && s.ToGroup? && s.pgid in groups {
      var i :| 0 <= i < |groups| && groups[i] == s.pgid;
      assert GroupSignals(groups, sig)[i] == s;
    }
    if s.sig == sig && s.ToPid? && s.pid in pids {
      var i :| 0 <= i < |pids| && pids[i] == s.pid;
      assert PidSignals(pids, sig)[i] == s;
    }
  }

  function PidSignals(pids: seq<Pid>, sig: Sig): seq<Signal>
  {
    seq(|pids|, i requires 0 <= i < |pids| => ToPid(pids[i], sig))
  }

  function GroupSignals(groups: seq<nat>, sig: Sig): seq<Signal>
  {
    seq(|groups|, i requires 0 <= i < |groups| => ToGroup(groups[i], sig))
  }

  predicate GroupIn(alive: set<Pid>, groupOf: Pid -> nat, pgid: nat)
  {
    exists p :: p in alive && groupOf(p) == pgid
  }

  /** Every target and every tracked group is dead. */
  predicate AllDead(alive: set<Pid>, groupOf: Pid -> nat, targets: seq<Pid>, groups: seq<nat>)
  {
    (forall p :: p in targets ==> p !in alive) && forall g :: g in groups ==> !GroupIn(alive, groupOf, g)
  }

  /** That is: no live process is a target, or in the group of a tracked child. */
  lemma AllDeadIff(alive: set<Pid>, groupOf: Pid -> nat, targets: seq<Pid>, tracked: seq<Tracked>)
    ensures AllDead(alive, groupOf, targets, GroupsOf(tracked)) <==>
              forall p :: p in alive ==> p !in targets && forall t :: t in tracked ==> groupOf(p) != t.pgid
  {
    var groups := GroupsOf(tracked);
    if AllDead(alive, groupOf, targets, groups) {
      forall p, t | p in alive && t in tracked ensures groupOf(p) != t.pgid {
        var i :| 0 <= i < |tracked| && tracked[i] == t;
        assert groups[i] == t.pgid;
        assert !GroupIn(alive, groupOf, t.pgid);
      }
    }
    if forall p :: p in alive ==> p !in targets && forall t :: t in tracked ==> groupOf(p) != t.pgid {
      forall g | g in groups ensures !GroupIn(alive, groupOf, g) {
        var i :| 0 <= i < |groups| && groups[i] == g;
        assert tracked[i] in tracked;
      }
    }
  }

  datatype World = World(alive: set<Pid>, log: seq<Signal>)

  /** The live processes after `n` more polls, from poll number `tick` on. */
  function After(drift: (nat, set<Pid>) -> set<Pid>, tick: nat, alive: set<Pid>, n: nat): set<Pid>
  {
    if n == 0 then alive else drift(tick + n - 1, After(drift, tick, alive, n - 1))
  }

  function KilledGroups(alive: set<Pid>, groupOf: Pid -> nat, ours: set<Pid>, groups: seq<nat>): set<Pid>
  {
    set p | p in alive && !(p in ours && groupOf(p) in groups)
  }

  /** SIGKILL to each target that is alive when its turn comes. */
  function KillSurvivors(w: World, ours: set<Pid>, targets: seq<Pid>): World
    decreases |targets|
  {
    if targets == [] then w
    else
      var t := targets[0];
      KillSurvivors(if t in w.alive then World(w.alive - ({t} * ours), w.log + [ToPid(t, Kill)]) else w, ours,
          targets[1..])
  }

  function Escalate(w: World, groupOf: Pid -> nat, ours: set<Pid>, targets: seq<Pid>, groups: seq<nat>): World
  {
    KillSurvivors(World(KilledGroups(w.alive, groupOf, ours, groups), w.log + GroupSignals(groups, Kill)), ours,
        targets)
  }

  /** At some poll before the deadline everything is dead. */
  ghost predicate DiesWithin(drift: (nat, set<Pid>) -> set<Pid>, tick: nat, alive: set<Pid>, groupOf: Pid -> nat,
                             targets: seq<Pid>, groups: seq<nat>, polls: nat)
  {
    exists n: nat :: n <= polls && AllDead(After(drift, tick, alive, n), groupOf, targets, groups)
  }

  lemma {:induction false} KillSurvivorsEffect(w: World, ours: set<Pid>, targets: seq<Pid>)
    ensures var r := KillSurvivors(w, ours, targets);
            && r.alive <= w.alive && w.log <= r.log
            && (forall p :: p in w.alive && p !in r.alive ==> p in targets && p in ours)
            && (forall p :: p in targets && p in r.alive ==> p !in ours)
            && (forall p :: p in targets && p in w.alive ==> ToPid(p, Kill) in r.log)
            && (forall s :: s in r.log && s !in w.log ==>
                s.ToPid? && s.sig == Kill && s.pid in targets && s.pid in w.alive)
    decreases |targets|
  {
    if targets != [] {
      var t := targets[0];
      var next := if t in w.alive then World(w.alive - ({t} * ours), w.log + [ToPid(t, Kill)]) else w;
      KillSurvivorsEffect(next, ours, targets[1..]);
      var r := KillSurvivors(w, ours, targets);
      assert forall p :: p in targets <==> p == t || p in targets[1..];
      if t in w.alive {
        assert ToPid(t, Kill) in next.log;
      }
    }
  }

  /** After the escalation every group has been signalled, every target still
      alive at its check has been signalled, whoever is left could not be
      signalled by us, and nobody else was killed. */
  lemma EscalationReachesAll(w: World, groupOf: Pid -> nat, ours: set<Pid>, targets: seq<Pid>, groups: seq<nat>)
    ensures var r := Escalate(w, groupOf, ours, targets, groups);
            && (forall g :: g in groups ==> ToGroup(g, Kill) in r.log)
            && (forall p :: p in r.alive && (p in targets || groupOf(p) in groups) ==> p !in ours)
            && (forall p :: p in w.alive && p !in r.alive ==> p in ours && (p in targets || groupOf(p) in groups))
            && (forall p :: p in targets && p in w.alive && !(p in ours && groupOf(p) in groups) ==>
                ToPid(p, Kill) in r.log)
            && (forall s :: s in r.log && s !in w.log ==>
                  s.sig == Kill && if s.ToPid? then s.pid in targets && s.pid in w.alive else s.pgid in groups)
  {
    var mid := World(KilledGroups(w.alive, groupOf, ours, groups), w.log + GroupSignals(groups, Kill));
    KillSurvivorsEffect(mid, ours, targets);
    forall g | g in groups ensures ToGroup(g, Kill) in mid.log {
      var i :| 0 <= i < |groups| && groups[i] == g;
      assert GroupSignals(groups, Kill)[i] == ToGroup(g, Kill);
    }
  }

  /** The processes, the group each belongs to, and those we may signal. Between
      two polls the live set changes arbitrarily (`drift`): any reaction to
      SIGTERM, any exit, any fork. SIGKILL removes whoever it may reach, at once. */
  class Kernel {
    var alive: set<Pid>
    var log: seq<Signal>
    var tick: nat
    const groupOf: Pid -> nat
    const ours: set<Pid>
    const drift: (nat, set<Pid>) -> set<Pid>

    constructor (alive: set<Pid>, groupOf: Pid -> nat, ours: set<Pid>, drift: (nat, set<Pid>) -> set<Pid>)
      ensures this.alive == alive && log == [] && this.groupOf == groupOf && this.ours == ours && this.drift == drift
    {
      this.alive, log, tick := alive, [], 0;
      this.groupOf, this.ours, this.drift := groupOf, ours, drift;
    }

    method KillGroups(groups: seq<nat>, sig: Sig)
      modifies this`alive, this`log
      ensures log == old(log) + GroupSignals(groups, sig)
      ensures alive == if sig == Kill then KilledGroups(old(alive), groupOf, ours, groups) else old(alive)
    {
      var i := 0;
      assert alive == KilledGroups(old(alive), groupOf, ours, groups[..0]);
      while i < |groups|
        invariant 0 <= i <= |groups|
        invariant log == old(log) + GroupSignals(groups[..i], sig)
        invariant alive == if sig == Kill then KilledGroups(old(alive), groupOf, ours, groups[..i]) else old(alive)
      {
        var g := groups[i];
        log := log + [ToGroup(g, sig)];
        if sig == Kill {
          alive := set p | p in alive && !(p in ours && groupOf(p) == g);
        }
        assert groups[..i + 1] == groups[..i] + [g];
        assert GroupSignals(groups[..i + 1], sig) == GroupSignals(groups[..i], sig) + [ToGroup(g, sig)];
        i := i + 1;
      }
      assert groups[..i] == groups;
    }

    method TermAll(targets: seq<Pid>)
      modifies this`log
      ensures log == old(log) + PidSignals(targets, Term)
    {
      var i := 0;
      while i < |targets|
        invariant 0 <= i <= |targets|
        invariant log == old(log) + PidSignals(targets[..i], Term)
      {
        assert targets[..i + 1] == targets[..i] + [targets[i]];
        assert PidSignals(targets[..i + 1], Term) == PidSignals(targets[..i], Term) + [ToPid(targets[i], Term)];
        log := log + [ToPid(targets[i], Term)];
        i := i + 1;
      }
      assert targets[..i] == targets;
    }

    method KillEachAlive(targets: seq<Pid>)
      modifies this`alive, this`log
      ensures World(alive, log) == KillSurvivors(World(old(alive), old(log)), ours, targets)
    {
      var i := 0;
      while i < |targets|
        invariant 0 <= i <= |targets|
        invariant KillSurvivors(World(old(alive), old(log)), ours, targets) == KillSurvivors(World(alive, log), ours,
            targets[i..])
      {
        var t := targets[i];
        assert targets[i..][1..] == targets[i + 1..];
        if t in alive {
          log := log + [ToPid(t, Kill)];
          alive := alive - ({t} * ours);
        }
        i := i + 1;
      }
    }

    static method AddNew(targets: seq<Pid>, more: seq<Pid>) returns (r: seq<Pid>)
      ensures r == AppendNew(targets, more)
    {
      r := targets;
      var i := 0;
      while i < |more|
        invariant 0 <= i <= |more|
        invariant AppendNew(targets, more) == AppendNew(r, more[i..])
      {
        assert more[i..][1..] == more[i + 1..];
        if more[i] !in r {
          r := r + [more[i]];
        }
        i := i + 1;
      }
    }

    static method CollectTargets(tracked: seq<Tracked>, scan1: Table, swept: seq<Pid>, scan2: Table)
      returns (targets: seq<Pid>)
      ensures targets == Targets(tracked, scan1, swept, scan2)
    {
      var pids := PidsOf(tracked);
      var found := DescendantsFrom(scan1, pids);
      targets := AddNew(pids, found);
      targets := AddNew(targets, swept);
      if swept != [] {
        found := DescendantsFrom(scan2, swept);
        targets := AddNew(targets, found);
      }
    }

    /** The grace period: until everything is dead, or `polls` sleeps have passed. */
    method Await(targets: seq<Pid>, groups: seq<nat>, polls: nat) returns (clean: bool)
      modifies this`alive, this`tick
      ensures clean == AllDead(alive, groupOf, targets, groups)
      ensures old(tick) <= tick <= old(tick) + polls && alive == After(drift, old(tick), old(alive), tick - old(tick))
      ensures forall i :: 0 <= i < tick - old(tick) ==>
                !AllDead(After(drift, old(tick), old(alive), i), groupOf, targets, groups)
      ensures !clean ==> tick == old(tick) + polls
    {
      var i := 0;
      while true
        invariant 0 <= i <= polls && tick == old(tick) + i
        invariant alive == After(drift, old(tick), old(alive), i)
        invariant forall k :: 0 <= k < i ==> !AllDead(After(drift, old(tick), old(alive), k), groupOf, targets, groups)
        decreases polls - i
      {
        clean := AllDead(alive, groupOf, targets, groups);
        if clean || i >= polls {
          return;
        }
        alive := drift(tick, alive);
        tick := tick + 1;
        i := i + 1;
      }
    }

    /** TERM to all, the grace period, KILL to whoever is left. */
    method Terminate(targets: seq<Pid>, groups: seq<nat>, polls: nat) returns (clean: bool)
      modifies this
      ensures clean <==> DiesWithin(drift, old(tick), old(alive), groupOf, targets, groups, polls)
      ensures var termed := old(log) + GroupSignals(groups, Term) + PidSignals(targets, Term);
              if clean then log == termed && AllDead(alive, groupOf, targets, groups)
                            && exists n: nat :: n <= polls && alive == After(drift, old(tick), old(alive), n)
              else World(alive, log) ==
                     Escalate(World(After(drift, old(tick), old(alive), polls), termed), groupOf, ours, targets, groups)
      ensures AllDead(old(alive), groupOf, targets, groups) ==> clean && alive == old(alive) && tick == old(tick)
    {
      KillGroups(groups, Term);
      TermAll(targets);
      clean := Await(targets, groups, polls);
      assert After(drift, old(tick), old(alive), 0) == old(alive);
      if clean {
        assert alive == After(drift, old(tick), old(alive), (tick - old(tick)) as nat);
        return;
      }
      KillGroups(groups, Kill);
      KillEachAlive(targets);
    }

    /** `teardown_process_tree`, with `polls` sleeps before the deadline. */
    method TeardownProcessTree(tracked: seq<Tracked>, scan1: Table, swept: seq<Pid>, scan2: Table, polls: nat)
      returns (clean: bool)
      modifies this
      ensures Targets(tracked, scan1, swept, scan2) == [] ==>
                clean && alive == old(alive) && log == old(log) && tick == old(tick)
      ensures var targets, groups := Targets(tracked, scan1, swept, scan2), GroupsOf(tracked);
              var termed := old(log) + GroupSignals(groups, Term) + PidSignals(targets, Term);
              targets != [] ==>
                if clean then log == termed && AllDead(alive, groupOf, targets, groups)
                              && exists n: nat :: n <= polls && alive == After(drift, old(tick), old(alive), n)
                else World(alive, log) ==
                       Escalate(World(After(drift, old(tick), old(alive), polls), termed), groupOf, ours, targets,
                           groups)
      ensures var targets, groups := Targets(tracked, scan1, swept, scan2), GroupsOf(tracked);
              targets != [] ==>
                (clean <==> DiesWithin(drift, old(tick), old(alive), groupOf, targets, groups, polls))
      ensures var targets, groups := Targets(tracked, scan1, swept, scan2), GroupsOf(tracked);
              AllDead(old(alive), groupOf, targets, groups) ==> clean && alive == old(alive) && tick == old(tick)
    {
      var targets := CollectTargets(tracked, scan1, swept, scan2);
      if targets == [] {
        return true;
      }
      clean := Terminate(targets, GroupsOf(tracked), polls);
    }
  }
}
