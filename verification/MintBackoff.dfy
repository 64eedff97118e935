/** The per-connector cooldown on minting registration tokens, and the flag that
    limits the cannot-authenticate warning to once per failure episode. */
module MintBackoff {

  type Id = string

  /** Nanoseconds on the monotonic clock. */
  type Instant = nat

  const COOLDOWN: nat := 300 * 1_000_000_000

  /** A recorded failure in the future denies the mint, as any recent one does. */
  predicate MintAllowed(cooldowns: map<Id, Instant>, id: Id, now: Instant)
  {
    id in cooldowns ==> cooldowns[id] <= now && now - cooldowns[id] >= COOLDOWN
  }

  /** `minting` holds the requests in flight, with the time of the check before them. */
  datatype State = State(cooldowns: map<Id, Instant>, warned: set<Id>, minting: map<Id, Instant>)

  const FRESH: State := State(map[], {}, map[])

  datatype Event =
    | Check(id: Id, now: Instant)       // mint when allowed; the request is then in flight
    | MintFailed(id: Id, at: Instant)   // the request came back with an error
    | Minted(id: Id)
    | CannotAuthenticate(id: Id)        // warn when due
    | Started(id: Id)                   // the connector came up

  predicate WarnDue(s: State, id: Id)
  {
    id !in s.warned
  }

  function Step(s: State, e: Event): State
  {
    match e
    case Check(id, now) =>
      if MintAllowed(s.cooldowns, id, now) then s.(minting := s.minting[id := now]) else s
    case MintFailed(id, at) => s.(cooldowns := s.cooldowns[id := at], minting := s.minting - {id})
    case Minted(id) => s.(minting := s.minting - {id})
    case CannotAuthenticate(id) => s.(warned := s.warned + {id})
    case Started(id) => s.(cooldowns := s.cooldowns - {id}, warned := s.warned - {id})
  }

  function Run(s: State, events: seq<Event>): State
  {
    if events == [] then s else Step(Run(s, events[..|events| - 1]), events[|events| - 1])
  }

  /** One task at a time attempts a connector: a check comes with no request in
      flight, and a failure answers a request, no earlier than its check. */
  predicate Orderly(s: State, e: Event)
  {
    match e
    case Check(id, _) => id !in s.minting
    case MintFailed(id, at) => id in s.minting && s.minting[id] <= at
    case _ => true
  }

  ghost predicate OrderlyRun(s: State, events: seq<Event>)
  {
    forall i {:trigger events[i]} :: 0 <= i < |events| ==> Orderly(Run(s, events[..i]), events[i])
  }

  lemma RunPrefix(s: State, events: seq<Event>, i: nat)
    requires i < |events|
    ensures Run(s, events[..i + 1]) == Step(Run(s, events[..i]), events[i])
  {
    assert events[..i + 1][..i] == events[..i];
  }

  // ----- the rate -----

  /** Nothing after a failure at `at` can be sent before the window has passed. */
  predicate Waits(s: State, id: Id, at: Instant)
  {
    && id in s.cooldowns && s.cooldowns[id] >= at
    && (id in s.minting ==> s.minting[id] >= at + COOLDOWN)
  }

  lemma StepWaits(s: State, e: Event, id: Id, at: Instant)
    requires Orderly(s, e) && e != Started(id)
    requires Waits(s, id, at) || e == MintFailed(id, at)
    ensures Waits(Step(s, e), id, at)
  {
  }

  lemma StepAt(events: seq<Event>, i: nat)
    requires OrderlyRun(FRESH, events) && i < |events|
    ensures Orderly(Run(FRESH, events[..i]), events[i])
    ensures Run(FRESH, events[..i + 1]) == Step(Run(FRESH, events[..i]), events[i])
  {
    RunPrefix(FRESH, events, i);
  }

  /** Until the connector starts, every later attempt keeps to the window. */
  lemma {:induction false} WaitsHold(events: seq<Event>, id: Id, at: Instant, p: nat, q: nat)
    requires OrderlyRun(FRESH, events) && p < q <= |events|
    requires events[p] == MintFailed(id, at) && forall i :: p < i < q ==> events[i] != Started(id)
    ensures Waits(Run(FRESH, events[..q]), id, at)
    decreases q - p
  {
    if p + 1 < q {
      WaitsHold(events, id, at, p, q - 1);
    }
    StepAt(events, q - 1);
    StepWaits(Run(FRESH, events[..q - 1]), events[q - 1], id, at);
  }

  /** Two failed mints with no successful start between them are a full cooldown apart. */
  lemma FailuresApart(events: seq<Event>, id: Id, p: nat, q: nat)
    requires OrderlyRun(FRESH, events) && p < q < |events|
    requires events[p].MintFailed? && events[p].id == id && events[q].MintFailed? && events[q].id == id
    requires forall i :: p < i < q ==> events[i] != Started(id)
    ensures events[q].at >= events[p].at + COOLDOWN
  {
    WaitsHold(events, id, events[p].at, p, q);
    assert Orderly(Run(FRESH, events[..q]), events[q]);
  }

  /** Positions, in order, of failed mints of `id` in one failure episode. */
  ghost predicate Episode(events: seq<Event>, id: Id, ps: seq<nat>)
  {
    && (forall j :: 0 <= j < |ps| ==> ps[j] < |events| && events[ps[j]].MintFailed? && events[ps[j]].id == id)
    && (forall j, k :: 0 <= j < k < |ps| ==> ps[j] < ps[k])
    && (|ps| > 0 ==> forall i :: ps[0] < i < ps[|ps| - 1] ==> events[i] != Started(id))
  }

  lemma EpisodeInit(events: seq<Event>, id: Id, ps: seq<nat>)
    requires Episode(events, id, ps) && |ps| > 1
    ensures var n := |ps| - 1;
            && Episode(events, id, ps[..n]) && ps[..n][n - 1] == ps[n - 1] && ps[..n][0] == ps[0]
            && ps[0] <= ps[n - 1] < ps[n] < |events|
            && forall i :: ps[n - 1] < i < ps[n] ==> events[i] != Started(id)
  {
    var n := |ps| - 1;
    assert ps[..n][n - 1] == ps[n - 1] && ps[..n][0] == ps[0];
  }

  lemma OneMore(n: nat, window: nat)
    requires n > 0
    ensures n * window == (n - 1) * window + window
  {
  }

  /** The mint rate: k failed mints in one episode span at least k - 1 cooldowns. */
  lemma {:induction false} MintRate(events: seq<Event>, id: Id, ps: seq<nat>)
    requires OrderlyRun(FRESH, events) && Episode(events, id, ps) && |ps| > 0
    ensures events[ps[|ps| - 1]].at >= events[ps[0]].at + (|ps| - 1) * COOLDOWN
    decreases |ps|
  {
    var n := |ps| - 1;
    if n > 0 {
      EpisodeInit(events, id, ps);
      MintRate(events, id, ps[..n]);
      FailuresApart(events, id, ps[n - 1], ps[n]);
      OneMore(n, COOLDOWN);
    }
  }

  /** Event `p` is a failed mint of `id` with no successful start after it. */
  predicate Standing(events: seq<Event>, id: Id, p: nat)
  {
    && p < |events| && events[p].MintFailed? && events[p].id == id
    && forall i :: p < i < |events| ==> events[i] != Started(id)
  }

  lemma StandingNext(events: seq<Event>, id: Id, p: nat)
    requires events != [] && Standing(events[..|events| - 1], id, p) && events[|events| - 1] != Started(id)
    ensures Standing(events, id, p)
  {
    var n := |events| - 1;
    assert forall i :: 0 <= i < n ==> events[..n][i] == events[i];
  }

  /** A recorded failure is one that still stands. */
  lemma {:induction false} CooldownStands(events: seq<Event>, id: Id) returns (p: nat)
    requires id in Run(FRESH, events).cooldowns
    ensures Standing(events, id, p) && events[p].at == Run(FRESH, events).cooldowns[id]
  {
    var n := |events| - 1;
    var last := events[n];
    if last.MintFailed? && last.id == id {
      p := n;
    } else {
      p := CooldownStands(events[..n], id);
      StandingNext(events, id, p);
    }
  }

  /** After any run, a mint is let through exactly when every failure that no start
      has cleared is a full cooldown old: checks, and the failures of others, move
      no window. */
  lemma MintAllowedIff(events: seq<Event>, id: Id, now: Instant)
    requires OrderlyRun(FRESH, events)
    ensures MintAllowed(Run(FRESH, events).cooldowns, id, now) <==>
              forall p: nat :: Standing(events, id, p) ==> now >= events[p].at + COOLDOWN
  {
    assert events[..|events|] == events;
    forall p: nat | Standing(events, id, p)
      ensures id in Run(FRESH, events).cooldowns && Run(FRESH, events).cooldowns[id] >= events[p].at
    {
      WaitsHold(events, id, events[p].at, p, |events|);
    }
    if id in Run(FRESH, events).cooldowns {
      var p := CooldownStands(events, id);
    }
  }

  /** Event `p` is a check that let a mint through, and no answer to it has come since. */
  ghost predicate Unanswered(events: seq<Event>, id: Id, p: nat)
  {
    && p < |events| && events[p].Check? && events[p].id == id
    && MintAllowed(Run(FRESH, events[..p]).cooldowns, id, events[p].now)
    && forall i :: p < i < |events| ==>
         !((events[i].MintFailed? || events[i].Minted?) && events[i].id == id)
  }

  lemma UnansweredNext(events: seq<Event>, e: Event, id: Id, p: nat)
    ensures Unanswered(events + [e], id, p) <==>
              if p == |events|
              then e.Check? && e.id == id && MintAllowed(Run(FRESH, events).cooldowns, id, e.now)
              else Unanswered(events, id, p) && !((e.MintFailed? || e.Minted?) && e.id == id)
  {
    var next := events + [e];
    if p < |events| {
      assert next[..p] == events[..p] && next[|events|] == e;
      assert forall i :: 0 <= i < |events| ==> next[i] == events[i];
    } else {
      assert p == |events| ==> next[..p] == events;
    }
  }

  ghost predicate Requested(events: seq<Event>, id: Id)
  {
    exists p: nat :: Unanswered(events, id, p)
  }

  lemma RequestedNext(events: seq<Event>, e: Event, id: Id)
    ensures Requested(events + [e], id) <==>
              || (e.Check? && e.id == id && MintAllowed(Run(FRESH, events).cooldowns, id, e.now))
              || (Requested(events, id) && !((e.MintFailed? || e.Minted?) && e.id == id))
  {
    forall p: nat
      ensures Unanswered(events + [e], id, p) <==>
                if p == |events|
                then e.Check? && e.id == id && MintAllowed(Run(FRESH, events).cooldowns, id, e.now)
                else Unanswered(events, id, p) && !((e.MintFailed? || e.Minted?) && e.id == id)
    {
      UnansweredNext(events, e, id, p);
    }
    assert Unanswered(events + [e], id, |events|) <==>
           e.Check? && e.id == id && MintAllowed(Run(FRESH, events).cooldowns, id, e.now);
    if Requested(events, id) {
      var p: nat :| Unanswered(events, id, p);
      assert Unanswered(events + [e], id, p) <==> !((e.MintFailed? || e.Minted?) && e.id == id);
    }
  }

  /** A request is in flight exactly when a check let one through that has not been
      answered, whether by a token or by an error. */
  lemma {:induction false} InFlightIff(events: seq<Event>, id: Id)
    ensures id in Run(FRESH, events).minting <==> Requested(events, id)
  {
    if events != [] {
      var before, e := events[..|events| - 1], events[|events| - 1];
      assert before + [e] == events;
      InFlightIff(before, id);
      RequestedNext(before, e, id);
    }
  }

  // ----- one warning per episode -----

  lemma {:induction false} WarnedStays(events: seq<Event>, id: Id, p: nat, q: nat)
    requires p < q <= |events| && events[p] == CannotAuthenticate(id)
    requires forall i :: p < i < q ==> events[i] != Started(id)
    ensures !WarnDue(Run(FRESH, events[..q]), id)
    decreases q - p
  {
    RunPrefix(FRESH, events, q - 1);
    if p + 1 < q {
      WarnedStays(events, id, p, q - 1);
    }
  }

  predicate WarnsAt(events: seq<Event>, i: nat, id: Id)
    requires i < |events|
  {
    events[i] == CannotAuthenticate(id) && WarnDue(Run(FRESH, events[..i]), id)
  }

  /** Between two reported failures of a connector it has started successfully. */
  lemma WarnsOncePerEpisode(events: seq<Event>, id: Id, p: nat, q: nat)
    requires p < q < |events| && WarnsAt(events, p, id) && WarnsAt(events, q, id)
    ensures exists i :: p < i < q && events[i] == Started(id)
  {
    if forall i :: p < i < q ==> events[i] != Started(id) {
      WarnedStays(events, id, p, q);
    }
  }

  /** No failure goes unreported for long: the first one after a start warns. */
  lemma {:induction false} EpisodeBeginsWithWarning(events: seq<Event>, id: Id, p: nat, q: nat)
    requires p < q <= |events| && events[p] == Started(id)
    requires forall i :: p < i < q ==> events[i] != CannotAuthenticate(id)
    ensures WarnDue(Run(FRESH, events[..q]), id)
    decreases q - p
  {
    RunPrefix(FRESH, events, q - 1);
    if p + 1 < q {
      EpisodeBeginsWithWarning(events, id, p, q - 1);
    }
  }

  // ----- connectors do not affect each other -----

  function OnlyFor(events: seq<Event>, id: Id): seq<Event>
  {
    if events == [] then []
    else
      var last := events[|events| - 1];
      OnlyFor(events[..|events| - 1], id) + if last.id == id then [last] else []
  }

  predicate Alike(s: State, t: State, id: Id)
  {
    && (id in s.cooldowns <==> id in t.cooldowns) && (id in s.cooldowns ==> s.cooldowns[id] == t.cooldowns[id])
    && (id in s.minting <==> id in t.minting) && (id in s.minting ==> s.minting[id] == t.minting[id])
    && (id in s.warned <==> id in t.warned)
  }

  lemma StepAlike(s: State, t: State, e: Event, id: Id)
    requires Alike(s, t, id)
    ensures Alike(Step(s, e), Step(t, e), id)
    ensures e.id != id ==> Alike(Step(s, e), t, id)
  {
  }

  lemma RunSnoc(s: State, events: seq<Event>, e: Event)
    ensures Run(s, events + [e]) == Step(Run(s, events), e)
  {
    assert (events + [e])[..|events|] == events;
  }

  /** What holds for a connector is decided by its own events alone. */
  lemma {:induction false} ConnectorsAreIndependent(s: State, events: seq<Event>, id: Id)
    ensures Alike(Run(s, events), Run(s, OnlyFor(events, id)), id)
  {
    if events != [] {
      var init, last := events[..|events| - 1], events[|events| - 1];
      ConnectorsAreIndependent(s, init, id);
      StepAlike(Run(s, init), Run(s, OnlyFor(init, id)), last, id);
      RunSnoc(s, OnlyFor(init, id), last);
      assert OnlyFor(init, id) + [] == OnlyFor(init, id);
    }
  }

  // ----- the process-wide maps -----

  class Backoff {
    var cooldowns: map<Id, Instant>
    var warned: set<Id>
    ghost var minting: map<Id, Instant>

    ghost function View(): State
      reads this
    {
      State(cooldowns, warned, minting)
    }

    constructor ()
      ensures View() == FRESH
    {
      cooldowns, warned, minting := map[], {}, map[];
    }

    method CheckMint(id: Id, now: Instant) returns (due: bool)
      modifies this
      ensures View() == Step(old(View()), Check(id, now))
      ensures due <==> MintAllowed(old(cooldowns), id, now)
    {
      if id in cooldowns {
        due := now >= cooldowns[id] && now - cooldowns[id] >= COOLDOWN;
      } else {
        due := true;
      }
      if due {
        minting := minting[id := now];
      }
    }

    method RecordFailure(id: Id, at: Instant)
      modifies this
      ensures View() == Step(old(View()), MintFailed(id, at))
    {
      cooldowns := cooldowns[id := at];
      minting := minting - {id};
    }

    method Warn(id: Id) returns (warn: bool)
      modifies this
      ensures View() == Step(old(View()), CannotAuthenticate(id))
      ensures warn <==> WarnDue(old(View()), id)
    {
      warn := id !in warned;
      if warn {
        warned := warned + {id};
      }
    }

    method ClearOnStart(id: Id)
      modifies this
      ensures View() == Step(old(View()), Started(id))
    {
      warned := warned - {id};
      cooldowns := cooldowns - {id};
    }
  }
}
