/** The bounded dedupe cache against the log it stands for. */
module EventDedupe {

  type Cache = map<string, int>

  datatype Level = Debug | Info | Warning | Error | Fatal

  function LevelName(level: Level): string
  {
    match level
    case Debug => "debug"
    case Info => "info"
    case Warning => "warning"
    case Error => "error"
    case Fatal => "fatal"
  }

  function DedupeKey(level: Level, message: string): string
  {
    LevelName(level) + ("|" + message)
  }

  /** Keys of different levels or messages never collide. */
  lemma DedupeKeyInjective(a: Level, m: string, b: Level, n: string)
    ensures DedupeKey(a, m) == DedupeKey(b, n) <==> a == b && m == n
  {
    if DedupeKey(a, m) == DedupeKey(b, n) {
      var k := DedupeKey(a, m);
      var x, y := LevelName(a), LevelName(b);
      assert '|' !in x && '|' !in y;
      assert k[|x|] == '|' && k[|y|] == '|' && k[..|x|] == x && k[..|y|] == y;
      assert forall i :: 0 <= i < |x| ==> k[i] == x[i];
      assert forall i :: 0 <= i < |y| ==> k[i] == y[i];
      assert |x| == |y|;
      assert k[|x|..] == "|" + m && k[|y|..] == "|" + n;
      assert ("|" + m)[1..] == m && ("|" + n)[1..] == n;
    }
  }

  /** `retain`: entries younger than the window, and any from the future. */
  function Live(cache: Cache, now: int, window: nat): Cache
  {
    map k | k in cache && now - cache[k] < window :: cache[k]
  }

  /** `kept` is `full` without some of its oldest entries, cut to `max`; which of
      several equally old entries go is left open. */
  ghost predicate Evicted(full: Cache, kept: Cache, max: nat)
  {
    && kept.Keys <= full.Keys && (forall k :: k in kept ==> kept[k] == full[k])
    && (forall gone, k :: gone in full && gone !in kept && k in kept ==> full[gone] <= full[k])
    && |kept| == if |full| <= max then |full| else max
  }

  /** One decision: what `should_forward_message` may do. */
  ghost predicate Decision(before: Cache, key: string, now: int, window: nat, max: nat, after: Cache, forward: bool)
  {
    var live := Live(before, now, window);
    if key in live then !forward && after == live
    else forward && Evicted(live[key := now], after, max)
  }

  const EVENT_DEDUPE_WINDOW: nat := 60 * 1_000_000_000
  const EVENT_DEDUPE_MAX_TRACKED: nat := 1024

  class DedupeCache {
    var cache: Cache

    constructor ()
      ensures cache == map[]
    {
      cache := map[];
    }

    method ShouldForward(key: string, now: int, window: nat, max: nat) returns (forward: bool)
      modifies this
      ensures Decision(old(cache), key, now, window, max, cache, forward)
    {
      cache := Live(cache, now, window);
      if key in cache {
        return false;
      }
      cache := cache[key := now];
      ghost var full := cache;
      while |cache| > max
        invariant cache.Keys <= full.Keys && (forall k :: k in cache ==> cache[k] == full[k])
        invariant forall gone, k :: gone in full && gone !in cache && k in cache ==> full[gone] <= full[k]
        invariant |cache| == |full| || |cache| >= max
        decreases |cache|
      {
        var oldest := Oldest(cache);
        cache := cache - {oldest};
      }
      if |cache| == |full| {
        SameSize(cache.Keys, full.Keys);
      }
      return true;
    }

    /** The dedupe part of `before_send`: an event without a message is always sent,
        and leaves the cache as it is. */
    method BeforeSend(level: Level, message: string, now: int) returns (forward: bool)
      modifies this
      ensures message == "" ==> forward && cache == old(cache)
      ensures message != "" ==>
                Decision(old(cache), DedupeKey(level, message), now, EVENT_DEDUPE_WINDOW, EVENT_DEDUPE_MAX_TRACKED,
                         cache, forward)
    {
      if message == "" {
        return true;
      }
      forward := ShouldForward(DedupeKey(level, message), now, EVENT_DEDUPE_WINDOW, EVENT_DEDUPE_MAX_TRACKED);
    }

    /** `min_by_key` over the entries, in any order. */
    static method Oldest(cache: Cache) returns (oldest: string)
      requires cache != map[]
      ensures oldest in cache && forall k :: k in cache ==> cache[oldest] <= cache[k]
    {
      oldest :| oldest in cache;
      var rest := cache - {oldest};
      while rest != map[]
        invariant rest.Keys <= cache.Keys && oldest in cache
        invariant forall k :: k in cache && k !in rest ==> cache[oldest] <= cache[k]
        decreases |rest|
      {
        var k :| k in rest;
        if cache[k] < cache[oldest] {
          oldest := k;
        }
        rest := rest - {k};
      }
    }
  }

  lemma SameSize(a: set<string>, b: set<string>)
    requires a <= b && |a| == |b|
    ensures a == b
  {
    assert b == a + (b - a);
  }

  // ----- runs and the log they should agree with -----

  datatype Message = Message(key: string, at: int)

  predicate TimeOrdered(msgs: seq<Message>)
  {
    forall i, j :: 0 <= i < j < |msgs| ==> msgs[i].at <= msgs[j].at
  }

  /** A run of the cache from empty: the decisions made, and the caches passed through. */
  ghost predicate IsRun(msgs: seq<Message>, window: nat, max: nat, caches: seq<Cache>, forwards: seq<bool>)
  {
    && |caches| == |msgs| + 1 && |forwards| == |msgs| && caches[0] == map[]
    && forall i :: 0 <= i < |msgs| ==>
         Decision(caches[i], msgs[i].key, msgs[i].at, window, max, caches[i + 1], forwards[i])
  }

  /** Message `j` was forwarded less than a window before time `now`. */
  predicate Recent(msgs: seq<Message>, forwards: seq<bool>, j: nat, now: int, window: nat)
    requires j < |msgs| && j < |forwards|
  {
    forwards[j] && now - msgs[j].at < window
  }

  /** The log's decisions: forward unless the same key was forwarded less than a window earlier. */
  function LogDecisions(msgs: seq<Message>, window: nat): (d: seq<bool>)
    ensures |d| == |msgs|
  {
    if msgs == [] then []
    else
      var past, m := LogDecisions(msgs[..|msgs| - 1], window), msgs[|msgs| - 1];
      past + [!exists j :: 0 <= j < |past| && msgs[j].key == m.key && Recent(msgs, past, j, m.at, window)]
  }

  /** Forwarded by the log, and either message `i` itself or younger than the window then. */
  predicate Young(msgs: seq<Message>, d: seq<bool>, j: nat, i: nat, window: nat)
    requires j < |msgs| && i < |msgs| && |d| == |msgs|
  {
    if j == i then d[i] else Recent(msgs, d, j, msgs[i].at, window)
  }

  /** The keys with a forward younger than the window once message `i` is decided. */
  function ActiveKeys(msgs: seq<Message>, d: seq<bool>, window: nat, i: nat): set<string>
    requires i < |msgs| == |d|
  {
    set j | 0 <= j <= i && Young(msgs, d, j, i, window) :: msgs[j].key
  }

  // ----- what holds on every run -----

  /** Every cached entry is a forward that was made. */
  ghost predicate Grounded(msgs: seq<Message>, forwards: seq<bool>, cache: Cache, i: nat)
    requires i <= |msgs| && i <= |forwards|
  {
    forall k :: k in cache ==> exists j :: 0 <= j < i && forwards[j] && msgs[j] == Message(k, cache[k])
  }

  lemma FewerKeys(a: set<string>, b: set<string>)
    requires a <= b
    ensures |a| <= |b|
  {
    assert |b| == |a| + |b - a|;
  }

  lemma StepGrounded(msgs: seq<Message>, window: nat, max: nat, before: Cache, after: Cache, forwards: seq<bool>,
                     i: nat)
    requires i < |msgs| == |forwards| && Grounded(msgs, forwards, before, i)
    requires Decision(before, msgs[i].key, msgs[i].at, window, max, after, forwards[i])
    ensures Grounded(msgs, forwards, after, i + 1)
  {
    forall k | k in after ensures exists j :: 0 <= j < i + 1 && forwards[j] && msgs[j] == Message(k, after[k]) {
      if k == msgs[i].key && forwards[i] {
        assert msgs[i] == Message(k, after[k]);
      } else {
        assert after[k] == before[k];
        var j :| 0 <= j < i && forwards[j] && msgs[j] == Message(k, before[k]);
      }
    }
  }

  lemma StepSize(before: Cache, key: string, now: int, window: nat, max: nat, after: Cache, forward: bool)
    requires |before| <= max && Decision(before, key, now, window, max, after, forward)
    ensures |after| <= max
  {
    var live := Live(before, now, window);
    assert live.Keys <= before.Keys;
    FewerKeys(live.Keys, before.Keys);
    assert |live| == |live.Keys| && |before| == |before.Keys|;
  }

  lemma {:induction false} CacheIsGrounded(msgs: seq<Message>, window: nat, max: nat, caches: seq<Cache>,
                                           forwards: seq<bool>, i: nat)
    requires IsRun(msgs, window, max, caches, forwards) && i <= |msgs|
    ensures Grounded(msgs, forwards, caches[i], i) && |caches[i]| <= max
  {
    if i > 0 {
      var m := msgs[i - 1];
      CacheIsGrounded(msgs, window, max, caches, forwards, i - 1);
      StepGrounded(msgs, window, max, caches[i - 1], caches[i], forwards, i - 1);
      StepSize(caches[i - 1], m.key, m.at, window, max, caches[i], forwards[i - 1]);
    }
  }

  /** For every sequence of messages, in any order and with any eviction: the
      cache never exceeds its cap, and a dropped message has the same key
      forwarded less than a window earlier. */
  lemma DropsAreJustified(msgs: seq<Message>, window: nat, max: nat, caches: seq<Cache>, forwards: seq<bool>, i: nat)
    requires IsRun(msgs, window, max, caches, forwards) && i < |msgs|
    ensures |caches[i + 1]| <= max
    ensures !forwards[i] ==>
              exists j :: 0 <= j < i && msgs[j].key == msgs[i].key && Recent(msgs, forwards, j, msgs[i].at, window)
  {
    CacheIsGrounded(msgs, window, max, caches, forwards, i + 1);
    CacheIsGrounded(msgs, window, max, caches, forwards, i);
    assert Decision(caches[i], msgs[i].key, msgs[i].at, window, max, caches[i + 1], forwards[i]);
    if !forwards[i] {
      var k := msgs[i].key;
      var j :| 0 <= j < i && forwards[j] && msgs[j] == Message(k, caches[i][k]);
      assert Recent(msgs, forwards, j, msgs[i].at, window);
    }
  }

  // ----- refinement while the cap is not reached -----

  lemma {:induction false} LogPrefix(msgs: seq<Message>, window: nat, n: nat)
    requires n <= |msgs|
    ensures LogDecisions(msgs[..n], window) == LogDecisions(msgs, window)[..n]
  {
    if n < |msgs| {
      var shorter := msgs[..|msgs| - 1];
      assert shorter[..n] == msgs[..n];
      LogPrefix(shorter, window, n);
    } else {
      assert msgs[..n] == msgs;
    }
  }

  /** The log's rule, message by message. */
  lemma LogRule(msgs: seq<Message>, window: nat, i: nat)
    requires i < |msgs|
    ensures var d := LogDecisions(msgs, window);
            d[i] <==> !exists j :: 0 <= j < i && msgs[j].key == msgs[i].key && Recent(msgs, d, j, msgs[i].at, window)
  {
    var d, shorter := LogDecisions(msgs, window), msgs[..i + 1];
    LogPrefix(msgs, window, i + 1);
    assert shorter[..i] == msgs[..i];
    LogPrefix(msgs, window, i);
    var past := LogDecisions(msgs[..i], window);
    assert forall j :: 0 <= j < i ==> past[j] == d[j] && shorter[j] == msgs[j];
    assert LogDecisions(shorter, window)[i] == d[i];
    if j :| 0 <= j < i && msgs[j].key == msgs[i].key && Recent(msgs, d, j, msgs[i].at, window) {
      assert Recent(shorter, past, j, msgs[i].at, window);
    }
    if j :| 0 <= j < |past| && shorter[j].key == shorter[i].key && Recent(shorter, past, j, shorter[i].at, window) {
      assert Recent(msgs, d, j, msgs[i].at, window);
    }
  }

  /** At most `max` keys are active whenever a message is decided. */
  ghost predicate WithinCap(msgs: seq<Message>, window: nat, max: nat)
  {
    forall i :: 0 <= i < |msgs| ==> |ActiveKeys(msgs, LogDecisions(msgs, window), window, i)| <= max
  }

  /** `d` follows the log's rule at message `i`. */
  ghost predicate Ruled(msgs: seq<Message>, d: seq<bool>, window: nat, i: nat)
    requires i < |msgs| == |d|
  {
    d[i] <==> !exists j :: 0 <= j < i && msgs[j].key == msgs[i].key && Recent(msgs, d, j, msgs[i].at, window)
  }

  /** After message `i` the decisions so far are the log's, and the cache holds
      exactly the active keys with the times of their forwards. */
  ghost predicate Agrees(msgs: seq<Message>, d: seq<bool>, window: nat, cache: Cache, forwards: seq<bool>, i: nat)
    requires i < |msgs| == |d| && |forwards| == |msgs|
  {
    && (forall j :: 0 <= j <= i ==> forwards[j] == d[j])
    && cache.Keys == ActiveKeys(msgs, d, window, i)
    && forall j :: 0 <= j <= i && Young(msgs, d, j, i, window) ==>
         msgs[j].key in cache && cache[msgs[j].key] == msgs[j].at
  }

  /** `live` holds exactly the log's recent forwards before message `i`, with their times. */
  ghost predicate HoldsRecent(msgs: seq<Message>, d: seq<bool>, window: nat, live: Cache, i: nat)
    requires i < |msgs| == |d|
  {
    && (forall j :: 0 <= j < i && Recent(msgs, d, j, msgs[i].at, window) ==>
          msgs[j].key in live && live[msgs[j].key] == msgs[j].at)
    && (forall k :: k in live ==>
          exists j :: 0 <= j < i && msgs[j].key == k && Recent(msgs, d, j, msgs[i].at, window))
  }

  lemma LiveIsRecent(msgs: seq<Message>, d: seq<bool>, window: nat, cache: Cache, forwards: seq<bool>, i: nat)
    requires TimeOrdered(msgs) && i < |msgs| == |d| && |forwards| == |msgs|
    requires if i == 0 then cache == map[] else Agrees(msgs, d, window, cache, forwards, i - 1)
    ensures HoldsRecent(msgs, d, window, Live(cache, msgs[i].at, window), i)
  {
    var live, now := Live(cache, msgs[i].at, window), msgs[i].at;
    if i > 0 {
      forall j | 0 <= j < i && Recent(msgs, d, j, now, window)
        ensures msgs[j].key in live && live[msgs[j].key] == msgs[j].at
      {
        assert msgs[i - 1].at <= now;
        assert Young(msgs, d, j, i - 1, window);
      }
      forall k | k in live ensures exists j :: 0 <= j < i && msgs[j].key == k && Recent(msgs, d, j, now, window) {
        assert k in ActiveKeys(msgs, d, window, i - 1);
        var j :| 0 <= j <= i - 1 && Young(msgs, d, j, i - 1, window) && msgs[j].key == k;
        assert Recent(msgs, d, j, now, window);
      }
    }
  }

  /** With message `i` added when the log forwards it, the entries are the active keys. */
  lemma FullIsActive(msgs: seq<Message>, d: seq<bool>, window: nat, live: Cache, i: nat)
    requires i < |msgs| == |d| && HoldsRecent(msgs, d, window, live, i)
    ensures var full := if d[i] then live[msgs[i].key := msgs[i].at] else live;
            full.Keys == ActiveKeys(msgs, d, window, i)
  {
    var full := if d[i] then live[msgs[i].key := msgs[i].at] else live;
    forall k | k in full ensures k in ActiveKeys(msgs, d, window, i) {
      if d[i] && k == msgs[i].key {
        assert Young(msgs, d, i, i, window);
      } else {
        var j :| 0 <= j < i && msgs[j].key == k && Recent(msgs, d, j, msgs[i].at, window);
        assert Young(msgs, d, j, i, window);
      }
    }
    forall k | k in ActiveKeys(msgs, d, window, i) ensures k in full {
      var j :| 0 <= j <= i && Young(msgs, d, j, i, window) && msgs[j].key == k;
    }
  }

  lemma FullTimes(msgs: seq<Message>, d: seq<bool>, window: nat, live: Cache, i: nat, j: nat)
    requires j <= i < |msgs| == |d| && HoldsRecent(msgs, d, window, live, i) && Ruled(msgs, d, window, i)
    requires Young(msgs, d, j, i, window)
    ensures var full := if d[i] then live[msgs[i].key := msgs[i].at] else live;
            msgs[j].key in full && full[msgs[j].key] == msgs[j].at
  {
  }

  lemma NothingEvicted(full: Cache, kept: Cache, max: nat)
    requires Evicted(full, kept, max) && |full| <= max
    ensures kept == full
  {
    SameSize(kept.Keys, full.Keys);
  }

  lemma LiveDecides(msgs: seq<Message>, d: seq<bool>, window: nat, live: Cache, i: nat)
    requires i < |msgs| == |d| && HoldsRecent(msgs, d, window, live, i) && Ruled(msgs, d, window, i)
    ensures msgs[i].key in live <==> !d[i]
  {
  }

  /** One decision on a cache that agrees so far is the log's, and evicts nothing. */
  lemma StepDecision(msgs: seq<Message>, d: seq<bool>, window: nat, max: nat, before: Cache, after: Cache,
                     forward: bool, i: nat)
    requires i < |msgs| == |d| && HoldsRecent(msgs, d, window, Live(before, msgs[i].at, window), i) && Ruled(msgs, d,
        window, i)
    requires |ActiveKeys(msgs, d, window, i)| <= max
    requires Decision(before, msgs[i].key, msgs[i].at, window, max, after, forward)
    ensures var live := Live(before, msgs[i].at, window);
            forward == d[i] && after == if d[i] then live[msgs[i].key := msgs[i].at] else live
  {
    var live := Live(before, msgs[i].at, window);
    LiveDecides(msgs, d, window, live, i);
    FullIsActive(msgs, d, window, live, i);
    if d[i] {
      var full := live[msgs[i].key := msgs[i].at];
      assert |full| == |full.Keys|;
      NothingEvicted(full, after, max);
    }
  }

  lemma FullAgrees(msgs: seq<Message>, d: seq<bool>, window: nat, live: Cache, forwards: seq<bool>, i: nat)
    requires i < |msgs| == |d| && |forwards| == |msgs|
    requires HoldsRecent(msgs, d, window, live, i) && Ruled(msgs, d, window, i)
    requires forall j :: 0 <= j <= i ==> forwards[j] == d[j]
    ensures Agrees(msgs, d, window, if d[i] then live[msgs[i].key := msgs[i].at] else live, forwards, i)
  {
    FullIsActive(msgs, d, window, live, i);
    var full := if d[i] then live[msgs[i].key := msgs[i].at] else live;
    forall j | 0 <= j <= i && Young(msgs, d, j, i, window)
      ensures msgs[j].key in full && full[msgs[j].key] == msgs[j].at
    {
      FullTimes(msgs, d, window, live, i, j);
    }
  }

  /** One step keeps the cache in agreement with the log. */
  lemma StepAgrees(msgs: seq<Message>, d: seq<bool>, window: nat, max: nat, before: Cache, after: Cache,
                   forwards: seq<bool>, i: nat)
    requires TimeOrdered(msgs) && i < |msgs| == |d| && |forwards| == |msgs|
    requires |ActiveKeys(msgs, d, window, i)| <= max && Ruled(msgs, d, window, i)
    requires if i == 0 then before == map[] else Agrees(msgs, d, window, before, forwards, i - 1)
    requires Decision(before, msgs[i].key, msgs[i].at, window, max, after, forwards[i])
    ensures Agrees(msgs, d, window, after, forwards, i)
  {
    LiveIsRecent(msgs, d, window, before, forwards, i);
    StepDecision(msgs, d, window, max, before, after, forwards[i], i);
    FullAgrees(msgs, d, window, Live(before, msgs[i].at, window), forwards, i);
  }

  ghost predicate Lawful(msgs: seq<Message>, d: seq<bool>, window: nat, max: nat, i: nat)
    requires i < |msgs| == |d|
  {
    Ruled(msgs, d, window, i) && |ActiveKeys(msgs, d, window, i)| <= max
  }

  /** The same, for any decisions that follow the log's rule. */
  lemma {:induction false} CacheAgrees(msgs: seq<Message>, d: seq<bool>, window: nat, max: nat, caches: seq<Cache>,
                                       forwards: seq<bool>, i: nat)
    requires IsRun(msgs, window, max, caches, forwards) && i < |msgs| == |d| && TimeOrdered(msgs)
    requires forall j: nat :: j < |msgs| ==> Lawful(msgs, d, window, max, j)
    ensures Agrees(msgs, d, window, caches[i + 1], forwards, i)
  {
    if i > 0 {
      CacheAgrees(msgs, d, window, max, caches, forwards, i - 1);
    }
    assert Lawful(msgs, d, window, max, i);
    StepAgrees(msgs, d, window, max, caches[i], caches[i + 1], forwards, i);
  }

  /** Refinement: while at most `max` keys are active at any time, a time-ordered
      run makes exactly the log's decisions, whatever the eviction would pick. */
  lemma CacheRefinesLog(msgs: seq<Message>, window: nat, max: nat, caches: seq<Cache>, forwards: seq<bool>, i: nat)
    requires IsRun(msgs, window, max, caches, forwards) && i < |msgs|
    requires TimeOrdered(msgs) && WithinCap(msgs, window, max)
    ensures Agrees(msgs, LogDecisions(msgs, window), window, caches[i + 1], forwards, i)
    ensures forwards[i] == LogDecisions(msgs, window)[i]
  {
    var d := LogDecisions(msgs, window);
    forall j: nat | j < |msgs| ensures Lawful(msgs, d, window, max, j) {
      LogRule(msgs, window, j);
    }
    CacheAgrees(msgs, d, window, max, caches, forwards, i);
  }
}
