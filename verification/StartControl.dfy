/** Which task may start which connector: the `starting` set, the `runners` map
    and eviction, as steps between awaits. */
module StartControl {

  type Id = string
  type Task = nat

  datatype Phase = Preparing | Spawning | Finishing

  datatype Hold = Hold(id: Id, phase: Phase)

  /** `holding` says which task is between inserting an id into `starting` and
      its release. `failed` and `attempts` (the connectors for which a process was
      started, in order) and `evicted` record history. A runner is named by the
      task that started it. */
  datatype State = State(starting: set<Id>, runners: map<Id, Task>, holding: map<Task, Hold>, evicting: set<Id>,
                         failed: set<Id>, attempts: seq<Id>, evicted: seq<Id>)

  const IDLE: State := State({}, map[], map[], {}, {}, [], [])

  datatype Event =
    | Acquire(task: Task, id: Id)       // take the lock, re-check, insert
    | Release(task: Task)               // no binary, or it cannot authenticate
    | Spawn(task: Task)                 // start the process, await it
    | SpawnFailed(task: Task)           // the id stays in `starting`
    | SpawnOk(task: Task)               // await its first health check
    | Finish(task: Task)                // insert the runner, leave `starting`
    | EvictBegin(id: Id)                // drop the runner, await its stop
    | EvictEnd(id: Id)                  // clear `starting`

  predicate Holds(s: State, t: Task, phase: Phase)
  {
    t in s.holding && s.holding[t].phase == phase
  }

  function Without(holding: map<Task, Hold>, t: Task): map<Task, Hold>
  {
    holding - {t}
  }

  /** A step that its task or the health loop is not in a position to take changes nothing. */
  function Step(s: State, e: Event): State
  {
    match e
    case Acquire(t, id) =>
      if t in s.holding || id in s.starting || id in s.runners then s
      else s.(starting := s.starting + {id}, holding := s.holding[t := Hold(id, Preparing)])
    case Release(t) =>
      if !Holds(s, t, Preparing) then s
      else s.(starting := s.starting - {s.holding[t].id}, holding := Without(s.holding, t))
    case Spawn(t) =>
      if !Holds(s, t, Preparing) then s
      else s.(holding := s.holding[t := Hold(s.holding[t].id, Spawning)], attempts := s.attempts + [s.holding[t].id])
    case SpawnFailed(t) =>
      if !Holds(s, t, Spawning) then s
      else s.(holding := Without(s.holding, t), failed := s.failed + {s.holding[t].id})
    case SpawnOk(t) =>
      if !Holds(s, t, Spawning) then s
      else s.(holding := s.holding[t := Hold(s.holding[t].id, Finishing)])
    case Finish(t) =>
      if !Holds(s, t, Finishing) then s
      else
        var id := s.holding[t].id;
        s.(runners := s.runners[id := t], starting := s.starting - {id}, holding := Without(s.holding, t))
    case EvictBegin(id) =>
      if id !in s.runners then s
      else s.(runners := s.runners - {id}, evicting := s.evicting + {id}, evicted := s.evicted + [id])
    case EvictEnd(id) =>
      if id !in s.evicting then s
      else s.(starting := s.starting - {id}, evicting := s.evicting - {id})
  }

  function Run(s: State, events: seq<Event>): State
    decreases |events|
  {
    if events == [] then s else Run(Step(s, events[0]), events[1..])
  }

  /** The stated assumption: no start of an id begins while that id is being evicted. */
  predicate Apart(s: State, e: Event)
  {
    e.Acquire? ==> e.id !in s.evicting
  }

  predicate NoOverlap(s: State, events: seq<Event>)
    decreases |events|
  {
    events != [] ==> Apart(s, events[0]) && NoOverlap(Step(s, events[0]), events[1..])
  }

  // ----- mutual exclusion -----

  /** One task per id; an id being started has no runner, is not being evicted and
      never failed to spawn; and `starting` holds just the held and the failed ids. */
  ghost predicate Safe(s: State)
  {
    && (forall t, u :: t in s.holding && u in s.holding && s.holding[t].id == s.holding[u].id ==> t == u)
    && (forall t :: t in s.holding ==>
          && s.holding[t].id in s.starting && s.holding[t].id !in s.runners
          && s.holding[t].id !in s.failed && s.holding[t].id !in s.evicting)
    && StartingIsHeld(s)
    && s.failed <= s.starting
    && s.failed !! s.runners.Keys && s.failed !! s.evicting && s.runners.Keys !! s.evicting
  }

  lemma AcquireSafe(s: State, t: Task, id: Id)
    requires Safe(s) && Apart(s, Acquire(t, id))
    ensures Safe(Step(s, Acquire(t, id)))
  {
    var s' := Step(s, Acquire(t, id));
    if s' != s {
      forall x | x in s'.starting ensures x in s'.failed || exists u :: u in s'.holding && s'.holding[u].id == x {
        if x == id {
          assert t in s'.holding && s'.holding[t].id == id;
        } else if x !in s.failed {
          var u :| u in s.holding && s.holding[u].id == x;
          assert u in s'.holding && s'.holding[u].id == x;
        }
      }
    }
  }

  predicate Leaves(s: State, t: Task, s': State)
    requires t in s.holding
  {
    var id := s.holding[t].id;
    && s'.holding == Without(s.holding, t) && s'.evicting == s.evicting
    && (|| (s'.starting == s.starting - {id} && s'.failed == s.failed
            && (s'.runners.Keys == s.runners.Keys || s'.runners.Keys == s.runners.Keys + {id}))
        || (s'.starting == s.starting && s'.failed == s.failed + {id} && s'.runners == s.runners))
  }

  ghost predicate StartingIsHeld(s: State)
  {
    forall id :: id in s.starting ==> id in s.failed || exists t :: t in s.holding && s.holding[t].id == id
  }

  lemma LeaveStarting(s: State, t: Task, s': State)
    requires t in s.holding && StartingIsHeld(s) && Leaves(s, t, s')
    ensures StartingIsHeld(s')
  {
    forall x | x in s'.starting ensures x in s'.failed || exists u :: u in s'.holding && s'.holding[u].id == x {
      if x !in s'.failed {
        assert x != s.holding[t].id;
        var u :| u in s.holding && s.holding[u].id == x;
        assert u in s'.holding && s'.holding[u].id == x;
      }
    }
  }

  lemma LeaveSafe(s: State, t: Task, s': State)
    requires Safe(s) && t in s.holding && Leaves(s, t, s')
    ensures Safe(s')
  {
    LeaveStarting(s, t, s');
  }

  lemma PhaseSafe(s: State, t: Task, phase: Phase, attempts: seq<Id>)
    requires Safe(s) && t in s.holding
    ensures Safe(s.(holding := s.holding[t := Hold(s.holding[t].id, phase)], attempts := attempts))
  {
    var s' := s.(holding := s.holding[t := Hold(s.holding[t].id, phase)], attempts := attempts);
    forall x | x in s'.starting ensures x in s'.failed || exists u :: u in s'.holding && s'.holding[u].id == x {
      if x !in s.failed {
        var u :| u in s.holding && s.holding[u].id == x;
        assert u in s'.holding && s'.holding[u].id == x;
      }
    }
  }

  lemma EvictSafe(s: State, e: Event)
    requires Safe(s) && (e.EvictBegin? || e.EvictEnd?)
    ensures Safe(Step(s, e))
  {
    var s' := Step(s, e);
    if e.EvictEnd? && e.id in s.evicting {
      assert forall t :: t in s.holding ==> s.holding[t].id != e.id;
      assert s'.starting == s.starting;
    }
  }

  lemma StepSafe(s: State, e: Event)
    requires Safe(s) && Apart(s, e)
    ensures Safe(Step(s, e))
  {
    match e
    case Acquire(t, id) => AcquireSafe(s, t, id);
    case Release(t) => if Holds(s, t, Preparing) { LeaveSafe(s, t, Step(s, e)); }
    case Spawn(t) => if Holds(s, t, Preparing) { PhaseSafe(s, t, Spawning, s.attempts + [s.holding[t].id]); }
    case SpawnFailed(t) => if Holds(s, t, Spawning) { LeaveSafe(s, t, Step(s, e)); }
    case SpawnOk(t) => if Holds(s, t, Spawning) { PhaseSafe(s, t, Finishing, s.attempts); }
    case Finish(t) => if Holds(s, t, Finishing) { LeaveSafe(s, t, Step(s, e)); }
    case EvictBegin(id) => EvictSafe(s, e);
    case EvictEnd(id) => EvictSafe(s, e);
  }

  /** Start mutual exclusion, in every interleaving of start tasks and evictions
      that keeps them apart. */
  lemma {:induction false} RunSafe(s: State, events: seq<Event>)
    requires Safe(s) && NoOverlap(s, events)
    ensures Safe(Run(s, events))
    decreases |events|
  {
    if events != [] {
      StepSafe(s, events[0]);
      RunSafe(Step(s, events[0]), events[1..]);
    }
  }

  // ----- what one start does -----

  function Count(ids: seq<Id>, id: Id): nat
  {
    if ids == [] then 0 else Count(ids[..|ids| - 1], id) + if ids[|ids| - 1] == id then 1 else 0
  }

  ghost predicate InFlight(s: State, id: Id)
  {
    exists t :: t in s.holding && s.holding[t].id == id && s.holding[t].phase != Preparing
  }

  ghost function One(b: bool): nat
  {
    if b then 1 else 0
  }

  /** Every process ever started for `id` is accounted for: it is still coming up,
      its start failed, it is the running one, or it was evicted. */
  ghost predicate Accounted(s: State, id: Id)
  {
    Count(s.attempts, id) ==
      One(InFlight(s, id)) + One(id in s.failed) + One(id in s.runners) + Count(s.evicted, id)
  }

  lemma InFlightOf(s: State, t: Task, id: Id)
    requires Safe(s) && t in s.holding && s.holding[t].id == id
    ensures InFlight(s, id) <==> s.holding[t].phase != Preparing
  {
  }

  lemma InFlightKept(s: State, s': State, id: Id)
    requires forall t :: (t in s.holding && s.holding[t].id == id) ==>
        (t in s'.holding && s'.holding[t] == s.holding[t])
    requires forall t :: (t in s'.holding && s'.holding[t].id == id) ==>
        (t in s.holding && s'.holding[t] == s.holding[t])
    ensures InFlight(s, id) <==> InFlight(s', id)
  {
    if InFlight(s, id) {
      var t :| t in s.holding && s.holding[t].id == id && s.holding[t].phase != Preparing;
      assert t in s'.holding;
    }
    if InFlight(s', id) {
      var t :| t in s'.holding && s'.holding[t].id == id && s'.holding[t].phase != Preparing;
      assert t in s.holding;
    }
  }

  lemma CountSnoc(ids: seq<Id>, x: Id, id: Id)
    ensures Count(ids + [x], id) == Count(ids, id) + One(x == id)
  {
    assert (ids + [x])[..|ids|] == ids;
  }

  predicate OfOther(s: State, e: Event, id: Id)
  {
    && !e.EvictBegin? && !e.EvictEnd?
    && if e.Acquire? then e.id != id else e.task in s.holding ==> s.holding[e.task].id != id
  }

  lemma OtherHolding(s: State, e: Event, id: Id)
    requires OfOther(s, e, id)
    ensures InFlight(s, id) <==> InFlight(Step(s, e), id)
  {
    InFlightKept(s, Step(s, e), id);
  }

  lemma OtherCounts(s: State, e: Event, id: Id)
    requires OfOther(s, e, id)
    ensures var s' := Step(s, e);
            && Count(s'.attempts, id) == Count(s.attempts, id) && s'.evicted == s.evicted
            && (id in s'.failed <==> id in s.failed) && (id in s'.runners <==> id in s.runners)
  {
    if e.Spawn? && e.task in s.holding {
      CountSnoc(s.attempts, s.holding[e.task].id, id);
    }
  }

  /** A step of a task whose id is another one. */
  lemma OtherAccounted(s: State, e: Event, id: Id)
    requires OfOther(s, e, id) && Accounted(s, id)
    ensures Accounted(Step(s, e), id)
  {
    OtherHolding(s, e, id);
    OtherCounts(s, e, id);
  }

  lemma AcquireAccounted(s: State, t: Task, id: Id)
    requires Safe(s) && Apart(s, Acquire(t, id)) && Accounted(s, id)
    ensures Accounted(Step(s, Acquire(t, id)), id)
  {
    var s' := Step(s, Acquire(t, id));
    if s' != s {
      AcquireSafe(s, t, id);
      assert !InFlight(s, id);
      assert t in s'.holding && s'.holding[t] == Hold(id, Preparing);
      InFlightOf(s', t, id);
    }
  }

  /** A step of the task that holds `id`. */
  lemma OwnAccounted(s: State, e: Event, id: Id)
    requires Safe(s) && !e.EvictBegin? && !e.EvictEnd? && !e.Acquire? && Accounted(s, id)
    requires e.task in s.holding && s.holding[e.task].id == id
    ensures Accounted(Step(s, e), id)
  {
    var t, s' := e.task, Step(s, e);
    if s' != s {
      StepSafe(s, e);
      InFlightOf(s, t, id);
      CountSnoc(s.attempts, id, id);
      if t in s'.holding {
        InFlightOf(s', t, id);
      } else {
        assert forall u :: u in s'.holding ==> u in s.holding && s'.holding[u] == s.holding[u];
        assert !InFlight(s', id);
      }
    }
  }

  lemma EvictAccounted(s: State, e: Event, id: Id)
    requires Safe(s) && (e.EvictBegin? || e.EvictEnd?) && Accounted(s, id)
    ensures Accounted(Step(s, e), id)
  {
    InFlightKept(s, Step(s, e), id);
    CountSnoc(s.evicted, e.id, id);
  }

  lemma StepAccounted(s: State, e: Event, id: Id)
    requires Safe(s) && Apart(s, e) && Accounted(s, id)
    ensures Accounted(Step(s, e), id)
  {
    if e.EvictBegin? || e.EvictEnd? {
      EvictAccounted(s, e, id);
    } else if e.Acquire? && e.id == id {
      AcquireAccounted(s, e.task, id);
    } else if !e.Acquire? && e.task in s.holding && s.holding[e.task].id == id {
      OwnAccounted(s, e, id);
    } else {
      OtherAccounted(s, e, id);
    }
  }

  /** Conservation of processes over every run: none is lost, started twice at a
      time, or overwritten. */
  lemma {:induction false} RunAccounted(s: State, events: seq<Event>, id: Id)
    requires Safe(s) && NoOverlap(s, events) && Accounted(s, id)
    ensures Accounted(Run(s, events), id)
    decreases |events|
  {
    if events != [] {
      StepSafe(s, events[0]);
      StepAccounted(s, events[0], id);
      RunAccounted(Step(s, events[0]), events[1..], id);
    }
  }

  /** From idle, a process is started only while its id has no runner, no other
      start in flight and no failed start, and a runner entry is never overwritten. */
  lemma SpawnAndInsertGuarded(events: seq<Event>, t: Task)
    requires NoOverlap(IDLE, events)
    ensures var s := Run(IDLE, events);
            && (Holds(s, t, Preparing) ==>
                  s.holding[t].id !in s.runners && s.holding[t].id !in s.failed && !InFlight(s, s.holding[t].id))
            && (Holds(s, t, Finishing) ==> s.holding[t].id !in s.runners)
  {
    RunSafe(IDLE, events);
    var s := Run(IDLE, events);
    if t in s.holding {
      InFlightOf(s, t, s.holding[t].id);
    }
  }

  /** An id whose spawn failed is not attempted again. */
  lemma {:induction false} FailedStaysFailed(s: State, events: seq<Event>, id: Id)
    requires Safe(s) && NoOverlap(s, events) && id in s.failed
    ensures var r := Run(s, events); id in r.failed && Count(r.attempts, id) == Count(s.attempts, id)
    decreases |events|
  {
    if events != [] {
      var e, s' := events[0], Step(s, events[0]);
      StepSafe(s, e);
      assert Count(s'.attempts, id) == Count(s.attempts, id) by {
        if e.Spawn? && Holds(s, e.task, Preparing) {
          CountSnoc(s.attempts, s.holding[e.task].id, id);
        }
      }
      FailedStaysFailed(s', events[1..], id);
    }
  }

  // ----- what a start, whole or broken off, leaves behind -----

  /** A connector can be taken exactly when no task holds it, its spawn never failed
      and it has no runner. */
  lemma AcquireIff(s: State, t: Task, id: Id)
    requires Safe(s) && t !in s.holding
    ensures Step(s, Acquire(t, id)) ==
              if id in s.failed || id in s.runners || exists u :: u in s.holding && s.holding[u].id == id then s
              else s.(starting := s.starting + {id}, holding := s.holding[t := Hold(id, Preparing)])
  {
  }

  predicate Free(s: State, t: Task, id: Id)
  {
    t !in s.holding && id !in s.starting && id !in s.runners
  }

  lemma TakeAndDrop(holding: map<Task, Hold>, t: Task, h: Hold, g: Hold)
    requires t !in holding
    ensures Without(holding[t := h], t) == holding
    ensures holding[t := h][t := g] == holding[t := g]
  {
  }

  lemma AcquireFree(s: State, t: Task, id: Id)
    requires Free(s, t, id)
    ensures Step(s, Acquire(t, id)) == s.(starting := s.starting + {id}, holding := s.holding[t := Hold(id, Preparing)])
  {
  }

  lemma RunTwo(s: State, a: Event, b: Event)
    ensures Run(s, [a, b]) == Step(Step(s, a), b)
  {
    assert [a, b][1..] == [b] && [b][1..] == [];
    assert Run(Step(s, a), [b]) == Run(Step(Step(s, a), b), []);
  }

  /** A start that is given up leaves everything as it was. */
  lemma GivenUpStart(s: State, t: Task, id: Id)
    requires Free(s, t, id)
    ensures Run(s, [Acquire(t, id), Release(t)]) == s
  {
    RunTwo(s, Acquire(t, id), Release(t));
    AcquireFree(s, t, id);
    TakeAndDrop(s.holding, t, Hold(id, Preparing), Hold(id, Spawning));
    assert s.starting + {id} - {id} == s.starting;
  }

  lemma SpawnFree(s: State, t: Task, id: Id)
    requires Free(s, t, id)
    ensures Step(Step(s, Acquire(t, id)), Spawn(t)) ==
              s.(starting := s.starting + {id}, holding := s.holding[t := Hold(id, Spawning)],
                 attempts := s.attempts + [id])
  {
    AcquireFree(s, t, id);
    TakeAndDrop(s.holding, t, Hold(id, Preparing), Hold(id, Spawning));
  }

  /** A whole start adds its runner and its attempt, and leaves no other trace. */
  lemma WholeStart(s: State, t: Task, id: Id)
    requires Free(s, t, id)
    ensures Run(s, [Acquire(t, id), Spawn(t), SpawnOk(t), Finish(t)]) ==
              s.(runners := s.runners[id := t], attempts := s.attempts + [id])
  {
    RunFour(s, Acquire(t, id), Spawn(t), SpawnOk(t), Finish(t));
    SpawnFree(s, t, id);
    TakeAndDrop(s.holding, t, Hold(id, Spawning), Hold(id, Finishing));
    TakeAndDrop(s.holding, t, Hold(id, Finishing), Hold(id, Finishing));
    assert s.starting + {id} - {id} == s.starting;
  }

  /** A start whose spawn fails frees its task, and the connector stays taken: no task
      can acquire it again. */
  lemma FailedStart(s: State, t: Task, id: Id)
    requires Free(s, t, id)
    ensures var r := Run(s, [Acquire(t, id), Spawn(t), SpawnFailed(t)]);
            && r == s.(starting := s.starting + {id}, failed := s.failed + {id}, attempts := s.attempts + [id])
            && forall u :: Step(r, Acquire(u, id)) == r
  {
    RunThree(s, Acquire(t, id), Spawn(t), SpawnFailed(t));
    SpawnFree(s, t, id);
    TakeAndDrop(s.holding, t, Hold(id, Spawning), Hold(id, Finishing));
  }

  /** An eviction removes the runner, after which the connector can be started again. */
  lemma WholeEviction(s: State, t: Task, id: Id)
    requires Safe(s) && id in s.runners && t !in s.holding
    ensures var r := Run(s, [EvictBegin(id), EvictEnd(id)]);
            r == s.(runners := s.runners - {id}, evicted := s.evicted + [id]) && Free(r, t, id)
  {
    RunTwo(s, EvictBegin(id), EvictEnd(id));
    assert id !in s.starting;
    assert s.starting - {id} == s.starting && s.evicting + {id} - {id} == s.evicting;
  }

  /** What is recorded of one connector, and which tasks hold it. */
  predicate SameRecord(s: State, r: State, id: Id)
  {
    && (id in s.starting <==> id in r.starting) && (id in s.failed <==> id in r.failed)
    && (id in s.evicting <==> id in r.evicting) && Count(s.attempts, id) == Count(r.attempts, id)
    && Count(s.evicted, id) == Count(r.evicted, id)
    && (id in s.runners <==> id in r.runners) && (id in s.runners && id in r.runners ==> s.runners[id] == r.runners[id])
  }

  ghost predicate SameHolders(s: State, r: State, id: Id)
  {
    && (forall t :: t in s.holding && s.holding[t].id == id ==> t in r.holding && r.holding[t] == s.holding[t])
    && (forall t :: t in r.holding && r.holding[t].id == id ==> t in s.holding && r.holding[t] == s.holding[t])
  }

  predicate Elsewhere(s: State, e: Event, id: Id)
  {
    if e.EvictBegin? || e.EvictEnd? then e.id != id else OfOther(s, e, id)
  }

  lemma HoldersAreLocal(s: State, e: Event, id: Id)
    requires Elsewhere(s, e, id)
    ensures SameHolders(s, Step(s, e), id)
  {
  }

  lemma RecordIsLocal(s: State, e: Event, id: Id)
    requires Elsewhere(s, e, id)
    ensures SameRecord(s, Step(s, e), id)
  {
    if e.EvictBegin? {
      CountSnoc(s.evicted, e.id, id);
    }
    if e.Spawn? && e.task in s.holding {
      CountSnoc(s.attempts, s.holding[e.task].id, id);
    }
  }

  /** No step touches another connector. */
  lemma StepIsLocal(s: State, e: Event, id: Id)
    requires Elsewhere(s, e, id)
    ensures SameRecord(s, Step(s, e), id) && SameHolders(s, Step(s, e), id)
  {
    HoldersAreLocal(s, e, id);
    RecordIsLocal(s, e, id);
  }

  /** Giving up frees the connector for the next task, and only that. */
  lemma ReleaseFrees(s: State, t: Task, u: Task)
    requires Safe(s) && Holds(s, t, Preparing) && u !in s.holding
    ensures var id := s.holding[t].id;
            Run(s, [Release(t), Acquire(u, id)]) == s.(holding := Without(s.holding, t)[u := Hold(id, Preparing)])
  {
    var id := s.holding[t].id;
    RunTwo(s, Release(t), Acquire(u, id));
    assert u !in Without(s.holding, t);
    assert id in s.starting && id !in s.runners;
    assert s.starting - {id} + {id} == s.starting;
  }

  predicate Exclusive(s: State)
  {
    forall t, u :: t in s.holding && u in s.holding && s.holding[t].id == s.holding[u].id ==> t == u
  }

  function OverlappingRun(id: Id): seq<Event>
  {
    [Acquire(1, id), Spawn(1), SpawnOk(1), Finish(1)] + [EvictBegin(id), Acquire(2, id), EvictEnd(id), Acquire(3, id)]
  }

  lemma {:induction false} RunConcat(s: State, a: seq<Event>, b: seq<Event>)
    ensures Run(s, a + b) == Run(Run(s, a), b)
    decreases |a|
  {
    if a == [] {
      assert a + b == b;
    } else {
      assert (a + b)[1..] == a[1..] + b;
      RunConcat(Step(s, a[0]), a[1..], b);
    }
  }

  lemma RunFour(s: State, a: Event, b: Event, c: Event, d: Event)
    ensures Run(s, [a, b, c, d]) == Step(Step(Step(Step(s, a), b), c), d)
  {
    assert [a, b, c, d][1..] == [b, c, d];
    assert [b, c, d][1..] == [c, d];
    assert [c, d][1..] == [d];
    assert [d][1..] == [];
    var sc := Step(Step(Step(s, a), b), c);
    assert Run(sc, [d]) == Run(Step(sc, d), []);
    assert Run(Step(Step(s, a), b), [c, d]) == Run(sc, [d]);
    assert Run(Step(s, a), [b, c, d]) == Run(Step(Step(s, a), b), [c, d]);
  }

  lemma RunThree(s: State, a: Event, b: Event, c: Event)
    ensures Run(s, [a, b, c]) == Step(Step(Step(s, a), b), c)
  {
    assert [a, b, c][1..] == [b, c];
    assert [b, c][1..] == [c];
    assert [c][1..] == [];
    var sb := Step(Step(s, a), b);
    assert Run(sb, [c]) == Run(Step(sb, c), []);
    assert Run(Step(s, a), [b, c]) == Run(sb, [c]);
  }

  /** While an eviction of `id` is pending, a start of it gets through. */
  lemma StartDuringEviction(s: State, id: Id, t: Task, u: Task)
    requires Safe(s) && id in s.evicting && t != u && t !in s.holding && u !in s.holding
    ensures !Exclusive(Step(Step(Step(s, Acquire(t, id)), EvictEnd(id)), Acquire(u, id)))
  {
    assert id !in s.starting;
    var s1 := Step(s, Acquire(t, id));
    var s2 := Step(s1, EvictEnd(id));
    var s3 := Step(s2, Acquire(u, id));
    assert s1.holding == s.holding[t := Hold(id, Preparing)] && id in s1.evicting;
    assert s2.holding == s1.holding && id !in s2.starting && id !in s2.runners;
    assert t in s3.holding && u in s3.holding && s3.holding[t].id == s3.holding[u].id == id;
  }

  lemma SafeIsExclusive(s: State)
    requires Safe(s)
    ensures Exclusive(s)
  {
  }

  /** The assumption is exact, at every safe state: let one task start `id`, the
      eviction of it end, and another task start it; at most one task holds it
      exactly when no eviction of it was under way at the first start. */
  lemma OverlapIff(s: State, id: Id, t: Task, u: Task)
    requires Safe(s) && t != u && t !in s.holding && u !in s.holding
    ensures Exclusive(Run(s, [Acquire(t, id), EvictEnd(id), Acquire(u, id)])) <==> Apart(s, Acquire(t, id))
  {
    var a, e, b := Acquire(t, id), EvictEnd(id), Acquire(u, id);
    RunThree(s, a, e, b);
    if id in s.evicting {
      StartDuringEviction(s, id, t, u);
    } else {
      StepSafe(s, a);
      StepSafe(Step(s, a), e);
      StepSafe(Step(Step(s, a), e), b);
      SafeIsExclusive(Step(Step(Step(s, a), e), b));
    }
  }

  /** Such a state is reached: a run from idle after which two tasks hold `id`. */
  lemma OverlapBreaksExclusion(id: Id)
    ensures !Exclusive(Run(IDLE, OverlappingRun(id)))
  {
    var begin, rest := [Acquire(1, id), Spawn(1), SpawnOk(1), Finish(1)], [EvictBegin(id), Acquire(2, id),
        EvictEnd(id), Acquire(3, id)];
    var up := IDLE.(runners := map[id := 1], attempts := [id]);
    RunFour(IDLE, Acquire(1, id), Spawn(1), SpawnOk(1), Finish(1));
    StartAlone(id);
    RunFour(up, EvictBegin(id), Acquire(2, id), EvictEnd(id), Acquire(3, id));
    RunConcat(IDLE, begin, rest);
    EvictSafe(up, EvictBegin(id));
    StartDuringEviction(Step(up, EvictBegin(id)), id, 2, 3);
  }

  lemma StartAlone(id: Id)
    ensures Step(Step(Step(Step(IDLE, Acquire(1, id)), Spawn(1)), SpawnOk(1)), Finish(1)) ==
              IDLE.(runners := map[id := 1], attempts := [id])
  {
    var s1 := Step(IDLE, Acquire(1, id));
    var s2 := Step(s1, Spawn(1));
    var s3 := Step(s2, SpawnOk(1));
    assert s1 == IDLE.(starting := {id}, holding := map[1 := Hold(id, Preparing)]);
    assert s2 == s1.(holding := map[1 := Hold(id, Spawning)], attempts := [id]);
    assert s3 == s2.(holding := map[1 := Hold(id, Finishing)]);
  }

  // ----- the shared maps as the tasks change them -----

  function BeginAll(ids: seq<Id>): seq<Event>
  {
    seq(|ids|, i requires 0 <= i < |ids| => EvictBegin(ids[i]))
  }

  function EndAll(ids: seq<Id>): seq<Event>
  {
    seq(|ids|, i requires 0 <= i < |ids| => EvictEnd(ids[i]))
  }

  lemma RunSnoc(s: State, events: seq<Event>, e: Event)
    ensures Run(s, events + [e]) == Step(Run(s, events), e)
  {
    RunConcat(s, events, [e]);
    assert Run(Run(s, events), [e]) == Run(Step(Run(s, events), e), []);
  }

  /** Each method is what a task, or the health loop, does between two awaits. */
  class StartHub {
    var starting: set<Id>
    var runners: map<Id, Task>
    ghost var holding: map<Task, Hold>
    ghost var evicting: set<Id>
    ghost var failed: set<Id>
    ghost var attempts: seq<Id>
    ghost var evicted: seq<Id>

    ghost function View(): State
      reads this
    {
      State(starting, runners, holding, evicting, failed, attempts, evicted)
    }

    constructor ()
      ensures View() == IDLE
    {
      starting, runners := {}, map[];
      holding, evicting, failed, attempts, evicted := map[], {}, {}, [], [];
    }

    /** Under the lock: the check that follows the first, unlocked look at `runners`,
        which may have gone stale while the lock was awaited, and the insertion. */
    method TryAcquire(t: Task, id: Id) returns (acquired: bool)
      requires t !in holding
      modifies this
      ensures View() == Step(old(View()), Acquire(t, id))
      ensures acquired <==> t in holding
    {
      acquired := false;
      if id in starting || id in runners {
        return;
      }
      starting := starting + {id};
      holding := holding[t := Hold(id, Preparing)];
      acquired := true;
    }

    method GiveUp(t: Task, id: Id)
      requires Holds(View(), t, Preparing) && holding[t].id == id
      modifies this
      ensures View() == Step(old(View()), Release(t))
    {
      starting := starting - {id};
      holding := Without(holding, t);
    }

    method BeginSpawn(t: Task, id: Id)
      requires Safe(View()) && Holds(View(), t, Preparing) && holding[t].id == id
      modifies this
      ensures View() == Step(old(View()), Spawn(t))
      ensures id !in runners && id !in failed
    {
      holding := holding[t := Hold(id, Spawning)];
      attempts := attempts + [id];
    }

    method SpawnReturned(t: Task, id: Id, ok: bool)
      requires Holds(View(), t, Spawning) && holding[t].id == id
      modifies this
      ensures View() == Step(old(View()), if ok then SpawnOk(t) else SpawnFailed(t))
    {
      if ok {
        holding := holding[t := Hold(id, Finishing)];
      } else {
        holding := Without(holding, t);
        failed := failed + {id};
      }
    }

    method Publish(t: Task, id: Id)
      requires Safe(View()) && Holds(View(), t, Finishing) && holding[t].id == id
      modifies this
      ensures View() == Step(old(View()), Finish(t))
      ensures old(runners).Keys !! {id} && forall x :: x in old(runners) ==>
                x in runners && runners[x] == old(runners)[x]
    {
      runners := runners[id := t];
      starting := starting - {id};
      holding := Without(holding, t);
    }

    method TakeRunners(ids: seq<Id>) returns (removed: seq<Id>)
      modifies this
      ensures View() == Run(old(View()), BeginAll(ids))
      ensures removed == [] ==> View() == old(View())
    {
      removed := [];
      for i := 0 to |ids|
        invariant View() == Run(old(View()), BeginAll(ids[..i]))
        invariant removed == [] ==> View() == old(View())
      {
        ghost var before := View();
        if ids[i] in runners {
          runners := runners - {ids[i]};
          evicting := evicting + {ids[i]};
          evicted := evicted + [ids[i]];
          removed := removed + [ids[i]];
        }
        assert View() == Step(before, EvictBegin(ids[i]));
        RunSnoc(old(View()), BeginAll(ids[..i]), EvictBegin(ids[i]));
        assert BeginAll(ids[..i + 1]) == BeginAll(ids[..i]) + [EvictBegin(ids[i])];
      }
      assert ids[..|ids|] == ids;
    }

    method ClearStarting(ids: seq<Id>)
      requires forall i, j :: 0 <= i < j < |ids| ==> ids[i] != ids[j]
      requires forall i :: 0 <= i < |ids| ==> ids[i] in evicting
      modifies this
      ensures View() == Run(old(View()), EndAll(ids))
    {
      for i := 0 to |ids|
        invariant View() == Run(old(View()), EndAll(ids[..i]))
        invariant forall j :: i <= j < |ids| ==> ids[j] in evicting
      {
        ghost var before := View();
        starting := starting - {ids[i]};
        evicting := evicting - {ids[i]};
        assert View() == Step(before, EvictEnd(ids[i]));
        RunSnoc(old(View()), EndAll(ids[..i]), EvictEnd(ids[i]));
        assert EndAll(ids[..i + 1]) == EndAll(ids[..i]) + [EvictEnd(ids[i])];
      }
      assert ids[..|ids|] == ids;
    }
  }
}
