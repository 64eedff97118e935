/** The start effect re-fires itself whenever the connector list is written. Here
    every connector fails to authenticate: any number of re-fired tasks interleave
    at their awaits, and the chain of writes and re-fires still dies out. */
module StartConvergence {
  import opened Text

  type Id = string

  datatype Status = Online | Offline | Checking

  datatype StartFailure = NoCredentials | SpawnFailed(error: string)

  datatype Connector = Connector(id: Id, status: Status, failure: Option<StartFailure>)

  /** The first connector with this id. */
  function Find(conns: seq<Connector>, id: Id): (found: Option<Connector>)
    ensures found.Some? ==> found.value in conns && found.value.id == id
    ensures found.None? ==> forall c :: c in conns ==> c.id != id
  {
    if conns == [] then None
    else if conns[0].id == id then Some(conns[0])
    else Find(conns[1..], id)
  }

  predicate StatusWillChange(conns: seq<Connector>, id: Id, next: Status)
  {
    var c := Find(conns, id);
    c.Some? && c.value.status != next
  }

  predicate FailureWillChange(conns: seq<Connector>, id: Id)
  {
    var c := Find(conns, id);
    c.Some? && c.value.failure != Some(NoCredentials)
  }

  function Ids(conns: seq<Connector>): seq<Id>
  {
    seq(|conns|, i requires 0 <= i < |conns| => conns[i].id)
  }

  /** The list with the first connector of this id marked as unable to authenticate. */
  function MarkOffline(conns: seq<Connector>, id: Id): (r: seq<Connector>)
    ensures Ids(r) == Ids(conns)
  {
    if conns == [] then []
    else if conns[0].id == id then [conns[0].(status := Offline, failure := Some(NoCredentials))] + conns[1..]
    else
      var rest := MarkOffline(conns[1..], id);
      assert forall i :: 0 <= i < |rest| ==> rest[i].id == Ids(rest)[i] == Ids(conns[1..])[i];
      [conns[0]] + rest
  }

  predicate Settled(c: Connector)
  {
    c.status == Offline && c.failure == Some(NoCredentials)
  }

  /** The connectors whose entry does not yet show the failure: each costs one write. */
  function Unsettled(conns: seq<Connector>): set<Id>
  {
    set c | c in conns && !Settled(Find(conns, c.id).value) :: c.id
  }

  lemma {:induction false} FindAfterMark(conns: seq<Connector>, id: Id, x: Id)
    ensures Find(MarkOffline(conns, id), x) ==
              if x == id && Find(conns, id).Some?
              then Some(Find(conns, id).value.(status := Offline, failure := Some(NoCredentials)))
              else Find(conns, x)
  {
    if conns != [] && conns[0].id != id {
      FindAfterMark(conns[1..], id, x);
      assert MarkOffline(conns, id)[1..] == MarkOffline(conns[1..], id);
    }
    if conns != [] && conns[0].id == id {
      assert MarkOffline(conns, id)[1..] == conns[1..];
    }
  }

  lemma UnsettledIff(conns: seq<Connector>, x: Id)
    ensures x in Unsettled(conns) <==> Find(conns, x).Some? && !Settled(Find(conns, x).value)
  {
  }

  /** The guard on the list write is exact: it lets a write through just when the
      connector is unsettled, and the write settles that connector and no other. */
  lemma WriteSettlesOne(conns: seq<Connector>, id: Id)
    ensures (StatusWillChange(conns, id, Offline) || FailureWillChange(conns, id)) <==> id in Unsettled(conns)
    ensures Unsettled(MarkOffline(conns, id)) == Unsettled(conns) - {id}
  {
    UnsettledIff(conns, id);
    var marked := MarkOffline(conns, id);
    forall x ensures x in Unsettled(marked) <==> x in Unsettled(conns) - {id} {
      FindAfterMark(conns, id, x);
      UnsettledIff(conns, x);
      UnsettledIff(marked, x);
    }
  }

  // ----- tasks interleaving at their awaits -----

  /** Between connectors, about to decide on one, or back from the list write and
      waiting for the lock to leave `starting`. */
  datatype Stage = Free | Deciding(id: Id) | Leaving(id: Id)

  datatype Worker = Worker(todo: seq<Id>, stage: Stage)

  datatype State = State(conns: seq<Connector>, starting: set<Id>, workers: seq<Worker>, writes: nat)

  /** One firing of the effect: a task that walks the whole list. */
  function Fire(s: State): State
  {
    s.(workers := s.workers + [Worker(Ids(s.conns), Free)])
  }

  predicate Busy(w: Worker)
  {
    w.stage != Free || w.todo != []
  }

  predicate CanStep(s: State, k: nat)
  {
    k < |s.workers| && Busy(s.workers[k])
  }

  /** What task `k` does up to its next await. */
  function Step(s: State, k: nat, gated: set<Id>): State
    requires CanStep(s, k)
  {
    var w := s.workers[k];
    match w.stage
    case Free =>
      var id := w.todo[0];
      if id in gated || id in s.starting then s.(workers := s.workers[k := Worker(w.todo[1..], Free)])
      else s.(workers := s.workers[k := Worker(w.todo[1..], Deciding(id))], starting := s.starting + {id})
    case Deciding(id) =>
      var left := s.(workers := s.workers[k := Worker(w.todo, Leaving(id))]);
      if StatusWillChange(s.conns, id, Offline) || FailureWillChange(s.conns, id)
      then Fire(left.(conns := MarkOffline(s.conns, id), writes := s.writes + 1))
      else left
    case Leaving(id) =>
      s.(workers := s.workers[k := Worker(w.todo, Free)], starting := s.starting - {id})
  }

  // ----- the measure -----

  function Work(w: Worker): nat
  {
    3 * |w.todo| + match w.stage case Free => 0 case Deciding(_) => 2 case Leaving(_) => 1
  }

  function TotalWork(ws: seq<Worker>): nat
  {
    if ws == [] then 0 else TotalWork(ws[..|ws| - 1]) + Work(ws[|ws| - 1])
  }

  lemma TotalWorkSnoc(ws: seq<Worker>, w: Worker)
    ensures TotalWork(ws + [w]) == TotalWork(ws) + Work(w)
  {
    assert (ws + [w])[..|ws|] == ws;
  }

  lemma {:induction false} TotalWorkUpdate(ws: seq<Worker>, k: nat, w: Worker)
    requires k < |ws|
    ensures TotalWork(ws[k := w]) == TotalWork(ws) - Work(ws[k]) + Work(w)
  {
    var n := |ws| - 1;
    if k == n {
      assert ws[k := w][..n] == ws[..n];
    } else {
      assert ws[k := w][..n] == ws[..n][k := w];
      TotalWorkUpdate(ws[..n], k, w);
    }
  }

  /** Each write still to come may cost a whole extra walk of the list. */
  function Potential(s: State): nat
  {
    |Unsettled(s.conns)| * (3 * |s.conns| + 1) + TotalWork(s.workers)
  }

  lemma OneLess(u: nat, cost: nat)
    requires u > 0
    ensures (u - 1) * cost == u * cost - cost
  {
  }

  lemma WriteCost(s: State, k: nat, gated: set<Id>)
    requires CanStep(s, k) && s.workers[k].stage.Deciding? && s.workers[k].stage.id in Unsettled(s.conns)
    ensures var s' := Step(s, k, gated);
            && |Unsettled(s'.conns)| == |Unsettled(s.conns)| - 1 && |s'.conns| == |s.conns|
            && TotalWork(s'.workers) == TotalWork(s.workers) - 1 + 3 * |s.conns|
  {
    var w, id := s.workers[k], s.workers[k].stage.id;
    WriteSettlesOne(s.conns, id);
    var marked := MarkOffline(s.conns, id);
    assert |marked| == |Ids(marked)| == |s.conns|;
    var next := Worker(w.todo, Leaving(id));
    var ws := s.workers[k := next];
    TotalWorkUpdate(s.workers, k, next);
    TotalWorkSnoc(ws, Worker(Ids(marked), Free));
    assert Step(s, k, gated).workers == ws + [Worker(Ids(marked), Free)];
    assert Work(next) == Work(w) - 1;
  }

  lemma QuietStepCost(s: State, k: nat, gated: set<Id>)
    requires CanStep(s, k) && (s.workers[k].stage.Deciding? ==> s.workers[k].stage.id !in Unsettled(s.conns))
    ensures var s' := Step(s, k, gated); s'.conns == s.conns && TotalWork(s'.workers) < TotalWork(s.workers)
  {
    if s.workers[k].stage.Deciding? {
      WriteSettlesOne(s.conns, s.workers[k].stage.id);
    }
    var s' := Step(s, k, gated);
    assert s'.workers == s.workers[k := s'.workers[k]];
    TotalWorkUpdate(s.workers, k, s'.workers[k]);
  }

  /** Every step lowers the measure, so no schedule goes on for ever. */
  lemma StepLowersPotential(s: State, k: nat, gated: set<Id>)
    requires CanStep(s, k)
    ensures Potential(Step(s, k, gated)) < Potential(s)
  {
    if s.workers[k].stage.Deciding? && s.workers[k].stage.id in Unsettled(s.conns) {
      WriteCost(s, k, gated);
      OneLess(|Unsettled(s.conns)|, 3 * |s.conns| + 1);
    } else {
      QuietStepCost(s, k, gated);
    }
  }

  // ----- what is left when all tasks are done -----

  predicate Owes(w: Worker, id: Id)
  {
    id in w.todo || w.stage == Deciding(id)
  }

  ghost predicate Owed(ws: seq<Worker>, id: Id)
  {
    exists k :: 0 <= k < |ws| && Owes(ws[k], id)
  }

  ghost predicate Held(ws: seq<Worker>, id: Id)
  {
    exists k :: 0 <= k < |ws| && (ws[k].stage == Deciding(id) || ws[k].stage == Leaving(id))
  }

  /** Every unsettled connector that may be started is still owed a decision; a
      task that is leaving one has settled it; and `starting` names held ids only. */
  ghost predicate Sound(s: State, gated: set<Id>)
  {
    && (forall id :: id in Unsettled(s.conns) && id !in gated ==> Owed(s.workers, id))
    && (forall id :: id in s.starting ==> Held(s.workers, id))
    && (forall k :: 0 <= k < |s.workers| && s.workers[k].stage.Leaving? ==>
        s.workers[k].stage.id !in Unsettled(s.conns))
    && (forall k :: 0 <= k < |s.workers| && s.workers[k].stage.Deciding? ==> s.workers[k].stage.id !in gated)
  }

  /** An owed decision, or a held id, of another task survives a task's step. */
  lemma OthersKept(ws: seq<Worker>, ws': seq<Worker>, k: nat, id: Id)
    requires k < |ws| <= |ws'| && forall j :: 0 <= j < |ws| && j != k ==> ws'[j] == ws[j]
    ensures Owed(ws, id) && !Owes(ws[k], id) ==> Owed(ws', id)
    ensures Owed(ws, id) && Owes(ws'[k], id) ==> Owed(ws', id)
    ensures Held(ws, id) && !(ws[k].stage == Deciding(id) || ws[k].stage == Leaving(id)) ==> Held(ws', id)
  {
    if Owed(ws, id) && !Owes(ws[k], id) {
      var j :| 0 <= j < |ws| && Owes(ws[j], id);
      assert Owes(ws'[j], id);
    }
    if Held(ws, id) && !(ws[k].stage == Deciding(id) || ws[k].stage == Leaving(id)) {
      var j :| 0 <= j < |ws| && (ws[j].stage == Deciding(id) || ws[j].stage == Leaving(id));
      assert ws'[j] == ws[j];
    }
  }

  lemma FreeStepSound(s: State, k: nat, gated: set<Id>)
    requires CanStep(s, k) && s.workers[k].stage.Free? && Sound(s, gated)
    ensures Sound(Step(s, k, gated), gated)
  {
    var s', w := Step(s, k, gated), s.workers[k];
    var first := w.todo[0];
    forall id | id in s'.starting ensures Held(s'.workers, id) {
      OthersKept(s.workers, s'.workers, k, id);
      if id !in s.starting {
        assert s'.workers[k].stage == Deciding(id);
      }
    }
    forall id | id in Unsettled(s'.conns) && id !in gated ensures Owed(s'.workers, id) {
      OthersKept(s.workers, s'.workers, k, id);
      if id == first {
        if id in s.starting {
          var j :| 0 <= j < |s.workers| && (s.workers[j].stage == Deciding(id) || s.workers[j].stage == Leaving(id));
          assert Owes(s'.workers[j], id);
        } else {
          assert Owes(s'.workers[k], id);
        }
      } else if id in w.todo {
        assert id in w.todo[1..];
        assert Owes(s'.workers[k], id);
      }
    }
  }

  lemma DecideStepSound(s: State, k: nat, gated: set<Id>)
    requires CanStep(s, k) && s.workers[k].stage.Deciding? && Sound(s, gated)
    ensures Sound(Step(s, k, gated), gated)
  {
    var s', w := Step(s, k, gated), s.workers[k];
    var mine := w.stage.id;
    WriteSettlesOne(s.conns, mine);
    assert Unsettled(s'.conns) == Unsettled(s.conns) - {mine};
    assert s'.workers[k] == Worker(w.todo, Leaving(mine));
    forall id | id in s'.starting ensures Held(s'.workers, id) {
      OthersKept(s.workers, s'.workers, k, id);
      if id == mine {
        assert s'.workers[k].stage == Leaving(id);
      }
    }
    forall id | id in Unsettled(s'.conns) && id !in gated ensures Owed(s'.workers, id) {
      OthersKept(s.workers, s'.workers, k, id);
    }
  }

  lemma LeaveStepSound(s: State, k: nat, gated: set<Id>)
    requires CanStep(s, k) && s.workers[k].stage.Leaving? && Sound(s, gated)
    ensures Sound(Step(s, k, gated), gated)
  {
    var s', w := Step(s, k, gated), s.workers[k];
    forall id | id in s'.starting ensures Held(s'.workers, id) {
      OthersKept(s.workers, s'.workers, k, id);
    }
    forall id | id in Unsettled(s'.conns) && id !in gated ensures Owed(s'.workers, id) {
      OthersKept(s.workers, s'.workers, k, id);
    }
  }

  lemma StepSound(s: State, k: nat, gated: set<Id>)
    requires CanStep(s, k) && Sound(s, gated)
    ensures Sound(Step(s, k, gated), gated)
  {
    match s.workers[k].stage
    case Free => FreeStepSound(s, k, gated);
    case Deciding(_) => DecideStepSound(s, k, gated);
    case Leaving(_) => LeaveStepSound(s, k, gated);
  }

  /** Gated connectors are never written: their entries stay as they were. */
  lemma StepCountsWrites(s: State, k: nat, gated: set<Id>)
    requires CanStep(s, k) && Sound(s, gated)
    ensures var s' := Step(s, k, gated);
            && s'.writes + |Unsettled(s'.conns)| == s.writes + |Unsettled(s.conns)|
            && |s'.workers| - s'.writes == |s.workers| - s.writes
            && Unsettled(s'.conns) * gated == Unsettled(s.conns) * gated
            && Ids(s'.conns) == Ids(s.conns)
  {
    if s.workers[k].stage.Deciding? {
      WriteSettlesOne(s.conns, s.workers[k].stage.id);
    }
  }

  predicate SameAt(a: seq<Connector>, b: seq<Connector>, id: Id)
  {
    Find(a, id) == Find(b, id)
  }

  /** Entries that are gated, or already show the failure, are left as they were. */
  lemma StepKeepsEntries(s: State, k: nat, gated: set<Id>)
    requires CanStep(s, k) && Sound(s, gated)
    ensures var s' := Step(s, k, gated);
            && Unsettled(s'.conns) <= Unsettled(s.conns)
            && forall id :: id in gated || id !in Unsettled(s.conns) ==> SameAt(s'.conns, s.conns, id)
  {
    if s.workers[k].stage.Deciding? {
      var mine := s.workers[k].stage.id;
      WriteSettlesOne(s.conns, mine);
      forall id { FindAfterMark(s.conns, mine, id); }
    }
  }

  lemma FirstFiringSound(conns: seq<Connector>, gated: set<Id>)
    ensures Sound(Fire(State(conns, {}, [], 0)), gated)
  {
    var s := Fire(State(conns, {}, [], 0));
    forall id | id in Unsettled(conns) ensures Owed(s.workers, id) {
      var c :| c in conns && c.id == id;
      var i :| 0 <= i < |conns| && conns[i] == c;
      assert Ids(conns)[i] == id;
      assert Owes(s.workers[0], id);
    }
  }

  predicate AllDone(s: State)
  {
    forall k :: 0 <= k < |s.workers| ==> !Busy(s.workers[k])
  }

  /** Once every task is done, all but the gated connectors show the failure. */
  lemma DoneMeansSettled(s: State, gated: set<Id>)
    requires Sound(s, gated) && AllDone(s)
    ensures Unsettled(s.conns) <= gated && s.starting == {}
  {
    assert forall id :: !Owed(s.workers, id) && !Held(s.workers, id);
  }

  /** However the scheduler picks among the tasks, one firing of the effect ends:
      one write and one re-firing for each unsettled connector that is not gated. */
  method FireUntilQuiet(conns: seq<Connector>, gated: set<Id>) returns (s: State)
    ensures AllDone(s) && s.starting == {}
    ensures Ids(s.conns) == Ids(conns)
    ensures Unsettled(s.conns) == Unsettled(conns) * gated
    ensures forall id :: id in gated || id !in Unsettled(conns) ==> SameAt(s.conns, conns, id)
    ensures s.writes == |Unsettled(conns) - gated| && |s.workers| == 1 + s.writes
  {
    s := Fire(State(conns, {}, [], 0));
    FirstFiringSound(conns, gated);
    while !AllDone(s)
      invariant Sound(s, gated)
      invariant s.writes + |Unsettled(s.conns)| == |Unsettled(conns)| && |s.workers| == 1 + s.writes
      invariant Unsettled(s.conns) * gated == Unsettled(conns) * gated && Ids(s.conns) == Ids(conns)
      invariant Unsettled(s.conns) <= Unsettled(conns)
      invariant forall id :: id in gated || id !in Unsettled(conns) ==> SameAt(s.conns, conns, id)
      decreases Potential(s)
    {
      var k :| 0 <= k < |s.workers| && Busy(s.workers[k]);
      StepSound(s, k, gated);
      StepCountsWrites(s, k, gated);
      StepKeepsEntries(s, k, gated);
      StepLowersPotential(s, k, gated);
      s := Step(s, k, gated);
    }
    DoneMeansSettled(s, gated);
    assert Unsettled(s.conns) == Unsettled(conns) * gated;
    assert Unsettled(conns) == (Unsettled(conns) - gated) + Unsettled(conns) * gated;
  }

  /** Firing the effect again, for whatever reason, then writes nothing. */
  method FireAgain(conns: seq<Connector>, gated: set<Id>) returns (s: State)
    requires Unsettled(conns) <= gated
    ensures s.writes == 0 && Ids(s.conns) == Ids(conns) && Unsettled(s.conns) == Unsettled(conns)
  {
    s := FireUntilQuiet(conns, gated);
    assert Unsettled(conns) - gated == {};
  }
}
