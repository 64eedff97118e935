/** Which bytes and which record a cached connector has after any number of
    seeds from the bundled copy and fetches of releases, each of which may be
    cut short. */
module NewestWins {
  import opened Text
  import opened Timestamps

  /** The bytes under the binary's name: none, a partial copy, or the complete
      bytes of the source with this timestamp. */
  datatype Binary = Missing | Torn | Whole(ts: string)

  /** `record` is the timestamp read back from the version file ("" when it is
      missing or does not parse). */
  datatype Slot = Slot(binary: Binary, record: string)

  datatype SeedEnd = SeedDone | SeedNotStarted | SeedTorn | SeedUnrecorded | SeedRecordTorn

  datatype FetchEnd = FetchDone | FetchNotInstalled | FetchUnrecorded | FetchRecordTorn

  /** A seed copies the bundled binary and then writes the record. A fetch swaps
      in the release's binary and then writes the record; `placesBinary` is false
      when the archive holds the binary only under the other platform's name. */
  datatype Event =
    | Seed(ts: string, bundled: bool, seedEnd: SeedEnd)
    | Fetch(ts: string, placesBinary: bool, fetchEnd: FetchEnd)

  function SeedStep(slot: Slot, ts: string, bundled: bool, end: SeedEnd): Slot
  {
    if !DecideSeed(ts, slot.record, bundled) then slot
    else match end
      case SeedNotStarted => slot
      case SeedTorn => slot.(binary := Torn)
      case SeedUnrecorded => slot.(binary := Whole(ts))
      case SeedRecordTorn => Slot(Whole(ts), "")
      case SeedDone => Slot(Whole(ts), ts)
  }

  function FetchStep(slot: Slot, ts: string, placesBinary: bool, end: FetchEnd): Slot
  {
    var placed := if placesBinary then Whole(ts) else slot.binary;
    if !ShouldDownload(!slot.binary.Missing?, slot.record, ts) then slot
    else match end
      case FetchNotInstalled => slot
      case FetchUnrecorded => slot.(binary := placed)
      case FetchRecordTorn => Slot(placed, "")
      case FetchDone => Slot(placed, ts)
  }

  function Step(slot: Slot, e: Event): Slot
  {
    match e
    case Seed(ts, bundled, end) => SeedStep(slot, ts, bundled, end)
    case Fetch(ts, placesBinary, end) => FetchStep(slot, ts, placesBinary, end)
  }

  function Run(slot: Slot, events: seq<Event>): Slot
    decreases |events|
  {
    if events == [] then slot else Run(Step(slot, events[0]), events[1..])
  }

  predicate AtMost(a: string, b: string)
  {
    !LexLess(b, a)
  }

  /** The record never claims more than the complete bytes in place, and there is
      no record without bytes. */
  predicate Consistent(slot: Slot)
  {
    match slot.binary
    case Missing => slot.record == ""
    case Torn => true
    case Whole(ts) => AtMost(slot.record, ts)
  }

  predicate PlacesBinary(e: Event)
  {
    e.Fetch? ==> e.placesBinary
  }

  lemma StepConsistent(slot: Slot, e: Event)
    requires Consistent(slot) && PlacesBinary(e)
    ensures Consistent(Step(slot, e))
  {
    LexTotal(e.ts, e.ts);
    LexTotal(e.ts, slot.record);
  }

  /** Over any run of seeds and fetches, cut short anywhere, the recorded
      timestamp never exceeds that of the complete bytes in place. */
  lemma {:induction false} RecordNeverExceedsBytes(slot: Slot, events: seq<Event>)
    requires Consistent(slot) && forall e :: e in events ==> PlacesBinary(e)
    ensures Consistent(Run(slot, events))
    decreases |events|
  {
    if events != [] {
      StepConsistent(slot, events[0]);
      RecordNeverExceedsBytes(Step(slot, events[0]), events[1..]);
    }
  }

  /** A completed fetch that records a version it did not place: over no bytes, or
      over complete bytes that the release is newer than. */
  predicate Overclaims(slot: Slot, e: Event)
  {
    && e.Fetch? && !e.placesBinary && e.fetchEnd.FetchDone?
    && match slot.binary
       case Missing => e.ts != ""
       case Torn => false
       case Whole(ts) => IsNewer(e.ts, ts)
  }

  /** The only events that lose the bound, from any consistent slot. */
  lemma StepConsistentIff(slot: Slot, e: Event)
    requires Consistent(slot)
    ensures Consistent(Step(slot, e)) <==> !Overclaims(slot, e)
  {
    LexTotal(e.ts, e.ts);
    LexTotal(e.ts, slot.record);
    if PlacesBinary(e) {
      StepConsistent(slot, e);
    } else if slot.binary.Whole? && IsNewer(e.ts, slot.binary.ts) {
      LexTotal(slot.record, slot.binary.ts);
      if slot.record != slot.binary.ts {
        LexTransitive(slot.record, slot.binary.ts, e.ts);
      }
    }
  }

  ghost predicate AlwaysConsistent(slot: Slot, events: seq<Event>)
  {
    forall i :: 0 <= i <= |events| ==> Consistent(Run(slot, events[..i]))
  }

  ghost predicate NeverOverclaims(slot: Slot, events: seq<Event>)
  {
    forall i {:trigger events[i]} :: 0 <= i < |events| ==> !Overclaims(Run(slot, events[..i]), events[i])
  }

  lemma {:induction false} RunSnoc(slot: Slot, events: seq<Event>, e: Event)
    ensures Run(slot, events + [e]) == Step(Run(slot, events), e)
    decreases |events|
  {
    if events == [] {
      assert [e][1..] == [];
      assert Run(Step(slot, e), []) == Step(slot, e);
    } else {
      assert (events + [e])[1..] == events[1..] + [e];
      RunSnoc(Step(slot, events[0]), events[1..], e);
    }
  }

  lemma RunPrefix(slot: Slot, events: seq<Event>, i: nat)
    requires i < |events|
    ensures Run(slot, events[..i + 1]) == Step(Run(slot, events[..i]), events[i])
  {
    assert events[..i + 1] == events[..i] + [events[i]];
    RunSnoc(slot, events[..i], events[i]);
  }

  lemma {:induction false} ConsistentUpTo(slot: Slot, events: seq<Event>, i: nat)
    requires Consistent(slot) && NeverOverclaims(slot, events) && i <= |events|
    ensures Consistent(Run(slot, events[..i]))
  {
    if i > 0 {
      ConsistentUpTo(slot, events, i - 1);
      StepConsistentIff(Run(slot, events[..i - 1]), events[i - 1]);
      RunPrefix(slot, events, i - 1);
    }
  }

  /** Over any run the bound holds all the time exactly when no fetch overclaims. */
  lemma RecordBoundIff(slot: Slot, events: seq<Event>)
    requires Consistent(slot)
    ensures AlwaysConsistent(slot, events) <==> NeverOverclaims(slot, events)
  {
    if NeverOverclaims(slot, events) {
      forall i | 0 <= i <= |events| ensures Consistent(Run(slot, events[..i])) {
        ConsistentUpTo(slot, events, i);
      }
    }
    if AlwaysConsistent(slot, events) {
      forall i | 0 <= i < |events| ensures !Overclaims(Run(slot, events[..i]), events[i]) {
        assert Consistent(Run(slot, events[..i])) && Consistent(Run(slot, events[..i + 1]));
        RunPrefix(slot, events, i);
        StepConsistentIff(Run(slot, events[..i]), events[i]);
      }
    }
  }

  predicate CrashFree(e: Event)
  {
    match e
    case Seed(_, _, end) => end == SeedDone || end == SeedNotStarted
    case Fetch(_, places, end) => places && (end == FetchDone || end == FetchNotInstalled)
  }

  /** On crash-free runs the record never decreases. */
  lemma {:induction false} RecordNeverDecreases(slot: Slot, events: seq<Event>)
    requires Consistent(slot) && forall e :: e in events ==> CrashFree(e)
    ensures AtMost(slot.record, Run(slot, events).record)
    decreases |events|
  {
    LexTotal(slot.record, slot.record);
    if events != [] {
      var next := Step(slot, events[0]);
      assert CrashFree(events[0]);
      StepConsistent(slot, events[0]);
      RecordNeverDecreases(next, events[1..]);
      var last := Run(next, events[1..]).record;
      LexTotal(slot.record, next.record);
      LexTotal(next.record, last);
      LexTotal(slot.record, last);
      if LexLess(slot.record, next.record) && LexLess(next.record, last) {
        LexTransitive(slot.record, next.record, last);
      }
    }
  }

  // ----- the newest wins -----

  function Latest(a: string, b: string): string
  {
    if LexLess(a, b) then b else a
  }

  /** The timestamp that a completed event brings; a connector that is not bundled,
      and an event that did not happen, bring none. */
  function Offered(e: Event): string
  {
    match e
    case Seed(ts, bundled, end) => if bundled && end == SeedDone then ts else ""
    case Fetch(ts, places, end) => if places && end == FetchDone then ts else ""
  }

  function NewestOf(record: string, events: seq<Event>): string
    decreases |events|
  {
    if events == [] then record else NewestOf(Latest(record, Offered(events[0])), events[1..])
  }

  /** It is one of the timestamps there were, and none of them is later. */
  lemma {:induction false} NewestIsLatest(record: string, events: seq<Event>)
    ensures var n := NewestOf(record, events);
            && AtMost(record, n) && (forall e :: e in events ==> AtMost(Offered(e), n))
            && (n == record || exists e :: e in events && Offered(e) == n)
    decreases |events|
  {
    LexTotal(record, record);
    if events != [] {
      var e, rest := events[0], events[1..];
      var next := Latest(record, Offered(e));
      NewestIsLatest(next, rest);
      var n := NewestOf(record, events);
      LexTotal(record, Offered(e));
      LexTotal(Offered(e), Offered(e));
      AtMostTransitive(record, next, n);
      AtMostTransitive(Offered(e), next, n);
      assert forall x :: x in events <==> x == e || x in rest;
    }
  }

  lemma AtMostTransitive(a: string, b: string, c: string)
    requires AtMost(a, b) && AtMost(b, c)
    ensures AtMost(a, c)
  {
    LexTotal(a, b);
    LexTotal(b, c);
    LexTotal(a, c);
    if LexLess(a, b) && LexLess(b, c) {
      LexTransitive(a, b, c);
    }
  }

  /** One event on its own: the later timestamp is recorded, and the bytes are those
      of the event exactly when it brought it. */
  lemma StepTakesLatest(slot: Slot, e: Event)
    requires Consistent(slot) && CrashFree(e)
    ensures var next := Step(slot, e);
            && next.record == Latest(slot.record, Offered(e))
            && (next.record != slot.record ==> next.binary == Whole(next.record))
            && (next.record == slot.record && !slot.binary.Missing? ==> next.binary == slot.binary)
  {
    LexTotal(slot.record, e.ts);
    LexTotal(slot.record, "");
  }

  /** Newest wins: after any crash-free run the record is the latest timestamp there
      was, and the bytes in place are those that came with it. */
  lemma {:induction false} NewestWinsRun(slot: Slot, events: seq<Event>)
    requires Consistent(slot) && forall e :: e in events ==> CrashFree(e)
    ensures var last := Run(slot, events);
            && last.record == NewestOf(slot.record, events)
            && (last.record != slot.record ==> last.binary == Whole(last.record))
            && (last.record == slot.record && !slot.binary.Missing? ==> last.binary == slot.binary)
    decreases |events|
  {
    if events != [] {
      var e, rest := events[0], events[1..];
      assert CrashFree(e);
      var next := Step(slot, e);
      StepConsistent(slot, e);
      StepTakesLatest(slot, e);
      NewestWinsRun(next, rest);
      RecordNeverDecreases(next, rest);
      LexTotal(slot.record, next.record);
    }
  }

  /** A seed that was cut short and is then completed ends as if nothing had happened. */
  lemma SeedRepeats(slot: Slot, ts: string, bundled: bool, end: SeedEnd)
    ensures Step(Step(slot, Seed(ts, bundled, end)), Seed(ts, bundled, SeedDone)) ==
              Step(slot, Seed(ts, bundled, SeedDone))
  {
    LexTotal(ts, ts);
  }

  /** And so does a fetch that places the binary. */
  lemma FetchRepeats(slot: Slot, ts: string, end: FetchEnd)
    requires Consistent(slot)
    ensures Step(Step(slot, Fetch(ts, true, end)), Fetch(ts, true, FetchDone)) == Step(slot, Fetch(ts, true, FetchDone))
  {
    LexTotal(ts, ts);
  }

  /** Bytes that are complete and not older than `ts`. */
  predicate CompleteSince(slot: Slot, ts: string)
  {
    slot.binary.Whole? && AtMost(ts, slot.binary.ts)
  }

  /** Where a slot can be between a torn seed of `ts` and its repetition: still
      to be seeded again, or already holding complete bytes that are as new. */
  predicate Repairable(slot: Slot, ts: string)
  {
    Consistent(slot) && !slot.binary.Missing? && (IsNewer(ts, slot.record) || CompleteSince(slot, ts))
  }

  lemma FetchKeepsRepairable(slot: Slot, ts: string, e: Event)
    requires Repairable(slot, ts) && e.Fetch? && e.placesBinary && ts != ""
    ensures Repairable(Step(slot, e), ts)
  {
    StepConsistent(slot, e);
    LexTotal(ts, e.ts);
    LexTotal(ts, ts);
    if CompleteSince(slot, ts) && IsNewer(e.ts, slot.record) && LexLess(e.ts, ts) {
      assert IsNewer(ts, e.ts);
      LexTotal(slot.record, ts);
      LexTransitive(slot.record, e.ts, ts);
    }
  }

  lemma {:induction false} FetchesKeepRepairable(slot: Slot, ts: string, fetches: seq<Event>)
    requires Repairable(slot, ts) && ts != "" && forall e :: e in fetches ==> e.Fetch? && e.placesBinary
    ensures Repairable(Run(slot, fetches), ts)
    decreases |fetches|
  {
    if fetches != [] {
      FetchKeepsRepairable(slot, ts, fetches[0]);
      FetchesKeepRepairable(Step(slot, fetches[0]), ts, fetches[1..]);
    }
  }

  /** A seed interrupted in mid-copy is redone: after any fetches, complete or
      cut short, the next completed seed of the same install leaves complete
      bytes that are not older than the bundled ones. */
  lemma TornSeedIsRedone(slot: Slot, ts: string, fetches: seq<Event>)
    requires Consistent(slot) && DecideSeed(ts, slot.record, true)
    requires forall e :: e in fetches ==> e.Fetch? && e.placesBinary
    ensures var torn := Step(slot, Seed(ts, true, SeedTorn));
            && torn.binary == Torn
            && CompleteSince(Step(Run(torn, fetches), Seed(ts, true, SeedDone)), ts)
  {
    var torn := Step(slot, Seed(ts, true, SeedTorn));
    FetchesKeepRepairable(torn, ts, fetches);
    LexTotal(ts, ts);
  }

  // ----- the seeding loop -----

  datatype Bundled = Bundled(base: string, ts: string, present: bool, seedEnd: SeedEnd)

  function SlotOf(slots: map<string, Slot>, base: string): Slot
  {
    if base in slots then slots[base] else Slot(Missing, "")
  }

  /** Every seedable connector in turn; each touches its own slot only. */
  function SeedAll(slots: map<string, Slot>, bundle: seq<Bundled>): map<string, Slot>
    decreases |bundle|
  {
    if bundle == [] then slots
    else
      var b := bundle[0];
      var next := Step(SlotOf(slots, b.base), Seed(b.ts, b.present, b.seedEnd));
      SeedAll(slots[b.base := next], bundle[1..])
  }

  class ConnectorCache {
    var slots: map<string, Slot>

    constructor (slots: map<string, Slot>)
      ensures this.slots == slots
    {
      this.slots := slots;
    }

    /** `seed_bundled_connectors`: a connector that is not seeded does not stop the others. */
    method SeedBundledConnectors(bundle: seq<Bundled>)
      modifies this
      ensures slots == SeedAll(old(slots), bundle)
    {
      var i := 0;
      while i < |bundle|
        invariant 0 <= i <= |bundle|
        invariant SeedAll(old(slots), bundle) == SeedAll(slots, bundle[i..])
      {
        var b := bundle[i];
        var slot := SlotOf(slots, b.base);
        assert bundle[i..][1..] == bundle[i + 1..];
        if DecideSeed(b.ts, slot.record, b.present) && b.seedEnd != SeedNotStarted {
          slot := slot.(binary := if b.seedEnd.SeedTorn? then Torn else Whole(b.ts));
          if b.seedEnd.SeedDone? {
            slot := slot.(record := b.ts);
          } else if b.seedEnd.SeedRecordTorn? {
            slot := slot.(record := "");
          }
        }
        slots := slots[b.base := slot];
        i := i + 1;
      }
    }
  }

  /** On an empty cache a connector that comes with the hub is put in place with its
      record, and one that does not stays missing. */
  lemma FirstSeed(bundle: seq<Bundled>, i: nat)
    requires i < |bundle| && forall j, k :: 0 <= j < k < |bundle| ==> bundle[j].base != bundle[k].base
    ensures var b, slot := bundle[i], SlotOf(SeedAll(map[], bundle), bundle[i].base);
            && (b.present && b.ts != "" && b.seedEnd == SeedDone ==> slot == Slot(Whole(b.ts), b.ts))
            && (!b.present || b.seedEnd == SeedNotStarted ==> slot == Slot(Missing, ""))
  {
    SeededInItsSlot(map[], bundle, i);
  }

  /** Each connector of the bundle is seeded, once, into its own slot. */
  lemma {:induction false} SeededInItsSlot(slots: map<string, Slot>, bundle: seq<Bundled>, i: nat)
    requires i < |bundle| && forall j, k :: 0 <= j < k < |bundle| ==> bundle[j].base != bundle[k].base
    ensures var b := bundle[i];
            SlotOf(SeedAll(slots, bundle), b.base) == Step(SlotOf(slots, b.base), Seed(b.ts, b.present, b.seedEnd))
    decreases |bundle|
  {
    var b, rest := bundle[0], bundle[1..];
    var next := slots[b.base := Step(SlotOf(slots, b.base), Seed(b.ts, b.present, b.seedEnd))];
    if i == 0 {
      forall x | x in rest ensures x.base != b.base {
        var k :| 0 <= k < |rest| && rest[k] == x;
        assert bundle[k + 1] == x;
      }
      SeedingIsSeparate(next, rest, b.base);
    } else {
      assert bundle[0].base != bundle[i].base;
      SeededInItsSlot(next, rest, i - 1);
    }
  }

  /** Seeding one connector never changes another's slot. */
  lemma {:induction false} SeedingIsSeparate(slots: map<string, Slot>, bundle: seq<Bundled>, base: string)
    requires forall b :: b in bundle ==> b.base != base
    ensures SlotOf(SeedAll(slots, bundle), base) == SlotOf(slots, base)
    decreases |bundle|
  {
    if bundle != [] {
      var b := bundle[0];
      assert b.base != base;
      SeedingIsSeparate(slots[b.base := Step(SlotOf(slots, b.base), Seed(b.ts, b.present, b.seedEnd))], bundle[1..],
          base);
    }
  }
}
