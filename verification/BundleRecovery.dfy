/** Crash recovery: when every way a fetch can be cut short is repaired by the next
    completed run for the same release, and the inputs for which one is not. */
module BundleRecovery {
  import opened Text
  import opened FileTree
  import opened BundleInstall
  import opened BundleFetch
  import opened Timestamps

  // ----- how far a run gets -----

  /** Whether an item can be installed into the folder as it was found. */
  predicate CanInstall(stage: Folder, binary: string, host: Host, folder: Folder, name: string)
    requires name in stage
  {
    match KindOf(stage, binary, name)
    case DirKind => name !in folder || folder[name].DirEntry? || (folder[name].LinkEntry? && name in host.live)
    case FileKind => !HasDir(folder, name)
    case BinaryKind =>
      BinaryContent(stage, name, host).Some? && !HasDir(folder, TempName(name, host.tag)) && !HasDir(folder, name)
  }

  lemma InstallsIff(stage: Folder, binary: string, host: Host, folder: Folder, name: string)
    requires name in stage
    ensures InstallItem(stage, binary, host, folder, name).ok <==> CanInstall(stage, binary, host, folder, name)
  {
  }

  lemma TempInjective(a: string, b: string, tag: string)
    requires TempName(a, tag) == TempName(b, tag)
    ensures a == b
  {
    var tail := ".strikehub-tmp-" + tag;
    assert TempName(a, tag) == "." + a + tail && TempName(b, tag) == "." + b + tail;
    assert ("." + a + tail)[1..|a| + 1] == a && ("." + b + tail)[1..|b| + 1] == b;
  }

  /** An installed item leaves the others as installable as they were. */
  lemma StaysInstallable(stage: Folder, binary: string, host: Host, folder: Folder, first: string, n: string)
    requires first in stage && n in stage && first != n && NoTempClash(stage, binary, host)
    requires InstallItem(stage, binary, host, folder, first).ok
    ensures CanInstall(stage, binary, host, InstallItem(stage, binary, host, folder, first).folder, n) <==>
              CanInstall(stage, binary, host, folder, n)
  {
    var after := InstallItem(stage, binary, host, folder, first).folder;
    ItemEffect(stage, binary, host, folder, first);
    assert !IsTemp(stage, binary, host, n) && SameAt(folder, after, n);
    if KindOf(stage, binary, n).BinaryKind? {
      var tmp := TempName(n, host.tag);
      assert IsTemp(stage, binary, host, tmp);
      assert tmp != first;
      if TempName(first, host.tag) == tmp {
        TempInjective(first, n, host.tag);
      }
      assert SameAt(folder, after, tmp);
    }
  }

  /** The items of a list are installed exactly when each can be, in the folder as found. */
  lemma {:induction false} ItemsInstallIff(stage: Folder, binary: string, host: Host, folder: Folder,
                                           items: seq<string>)
    requires Distinct(items) && NoTempClash(stage, binary, host) && forall n :: n in items ==> n in stage
    ensures InstallItems(stage, binary, host, folder, items).ok <==>
              forall n :: n in items ==> CanInstall(stage, binary, host, folder, n)
    decreases |items|
  {
    if items != [] {
      var first, rest := items[0], items[1..];
      InstallsIff(stage, binary, host, folder, first);
      var a := InstallItem(stage, binary, host, folder, first);
      assert first !in rest;
      assert forall n :: n in items <==> n == first || n in rest;
      if a.ok {
        ItemsInstallIff(stage, binary, host, a.folder, rest);
        forall n | n in rest
          ensures CanInstall(stage, binary, host, a.folder, n) <==> CanInstall(stage, binary, host, folder, n)
        {
          StaysInstallable(stage, binary, host, folder, first, n);
        }
      }
    }
  }

  /** An install succeeds exactly when something is staged and each entry can be
      installed into the folder as it was found. */
  lemma InstallOkIff(stage: Folder, binary: string, host: Host, folder: Folder, listing: seq<string>)
    requires Lists(stage, listing) && NoTempClash(stage, binary, host)
    ensures Install(stage, binary, host, folder, listing).ok <==>
              stage != map[] && forall n :: n in stage ==> CanInstall(stage, binary, host, folder, n)
  {
    SortNamesInOrder(stage, binary, listing);
    ItemsInstallIff(stage, binary, host, folder, SortNames(stage, binary, listing));
    if listing != [] {
      assert listing[0] in listing;
    }
    assert stage != map[] ==> exists n :: n in stage;
  }

  predicate UpTo(release: Release, n: string, m: string)
  {
    n == m || Before(release.stage, release.binary, n, m)
  }

  lemma BeforeIsStrict(stage: Folder, binary: string, a: string, b: string)
    ensures !(Before(stage, binary, a, b) && Before(stage, binary, b, a))
    ensures !Before(stage, binary, a, a)
  {
    LexTotal(a, b);
    LexTotal(a, a);
  }

  /** The items of a run: each staged name once, in the install order. */
  ghost predicate Items(release: Release, order: seq<string>)
  {
    && InOrder(release.stage, release.binary, order) && Distinct(order)
    && forall n :: n in order <==> n in release.stage
  }

  /** What the first `k` items of a run are. */
  lemma PrefixIsUpTo(release: Release, order: seq<string>, k: nat, n: string)
    requires Items(release, order) && 0 < k <= |order|
    ensures n in order[..k] <==> n in release.stage && UpTo(release, n, order[k - 1])
  {
    var m := order[k - 1];
    assert m in order;
    if n in order[..k] {
      var i :| 0 <= i < k && order[i] == n;
      assert n in order;
      assert i < k - 1 ==> Before(release.stage, release.binary, order[i], order[k - 1]);
    } else if n in order {
      var i :| 0 <= i < |order| && order[i] == n;
      assert i >= k;
      assert Before(release.stage, release.binary, order[k - 1], order[i]);
      BeforeIsStrict(release.stage, release.binary, n, m);
    }
  }

  /** A run gets past `m`: every item up to it can be installed. */
  ghost predicate Reaches(folder: Folder, release: Release, host: Host, m: string)
  {
    && m in release.stage
    && forall n :: n in release.stage && UpTo(release, n, m) ==>
        CanInstall(release.stage, release.binary, host, folder, n)
  }

  lemma ReachesIff(folder: Folder, release: Release, host: Host, order: seq<string>, k: nat)
    requires Items(release, order) && 0 < k <= |order| && NoTempClash(release.stage, release.binary, host)
    ensures forall n :: n in order[..k] ==> n in release.stage
    ensures InstallItems(release.stage, release.binary, host, folder, order[..k]).ok <==>
              Reaches(folder, release, host, order[k - 1])
  {
    forall n ensures n in order[..k] <==> n in release.stage && UpTo(release, n, order[k - 1]) {
      PrefixIsUpTo(release, order, k, n);
    }
    assert order[k - 1] in order;
    ItemsInstallIff(release.stage, release.binary, host, folder, order[..k]);
  }

  // ----- the condition -----

  /** The timestamp that reads back once the items up to `m` are installed: a staged
      version file speaks for itself, before the record is written over it. */
  function TsAfter(folder: Folder, release: Release, codec: Codec, m: string): string
  {
    var name := VersionName(release.binary);
    if name in release.stage && !release.stage[name].DirEntry? && UpTo(release, name, m)
    then CachedTs(release.stage, release.binary, codec)
    else CachedTs(folder, release.binary, codec)
  }

  /** After the items up to `m`, the next run would take the cache for current. */
  predicate LooksCurrent(folder: Folder, release: Release, codec: Codec, m: string)
  {
    && (release.file in folder || (release.file in release.stage && UpTo(release, release.file, m)))
    && !IsNewer(release.ts, TsAfter(folder, release, codec, m))
  }

  /** Something is still to come after `m`: an entry that is not in place, or a
      directory, which is taken away before it is put back. */
  ghost predicate Unfinished(folder: Folder, release: Release, host: Host, m: string)
  {
    exists n :: Lasting(release, n) && Before(release.stage, release.binary, m, n)
                && (release.stage[n].DirEntry? || !InPlace(release.stage, release.binary, host, folder, n))
  }

  /** Some item is reached after which the cache looks current and is not finished. */
  ghost predicate Stranding(folder: Folder, release: Release, codec: Codec, host: Host)
  {
    exists m :: Reaches(folder, release, host, m) && LooksCurrent(folder, release, codec, m)
                && Unfinished(folder, release, host, m)
  }

  // ----- what the next run does -----

  lemma SameInstalled(release: Release, a: Host, b: Host, folder: Folder)
    requires a.through == b.through
    ensures BundleInPlace(folder, release, a) <==> BundleInPlace(folder, release, b)
  {
    forall n | Lasting(release, n)
      ensures InPlace(release.stage, release.binary, a, folder, n) <==>
                InPlace(release.stage, release.binary, b, folder, n)
    {
    }
  }

  lemma RecordKeepsBundle(folder: Folder, release: Release, host: Host, content: Bytes)
    requires BundleInPlace(folder, release, host) && !HasDir(folder, VersionName(release.binary))
    ensures BundleInPlace(folder[VersionName(release.binary) := FileEntry(content)], release, host)
  {
    var after := folder[VersionName(release.binary) := FileEntry(content)];
    forall n | Lasting(release, n) ensures InPlace(release.stage, release.binary, host, after, n) {
      assert InPlace(release.stage, release.binary, host, folder, n);
    }
  }

  /** The next run for the same release, whoever makes it, leaves the bundle in place if it completes. */
  ghost predicate RepairedBy(seen: Folder, release: Release, codec: Codec, host: Host, listing: seq<string>)
  {
    && Lists(release.stage, listing) && NoTempClash(release.stage, release.binary, host)
    ==>
    var next := Fetch(seen, release, codec, host, listing);
    next.outcome != Failed ==> BundleInPlace(next.folder, release, host)
  }

  ghost predicate Repaired(seen: Folder, release: Release, codec: Codec, through: map<string, Bytes>)
  {
    forall host: Host, listing: seq<string> :: host.through == through ==>
        RepairedBy(seen, release, codec, host, listing)
  }

  lemma CompletedFetch(seen: Folder, release: Release, codec: Codec, host: Host, listing: seq<string>)
    requires Lists(release.stage, listing) && NoTempClash(release.stage, release.binary, host)
    requires Decides(seen, release, codec)
    ensures RepairedBy(seen, release, codec, host, listing)
  {
    var done := Install(release.stage, release.binary, host, seen, listing);
    if done.ok {
      InstallExact(release.stage, release.binary, host, seen, listing);
      if !HasDir(done.folder, VersionName(release.binary)) {
        RecordKeepsBundle(done.folder, release, host, codec.write(Version(release.tag, release.ts)));
      }
    }
  }

  /** A state is repaired exactly when the next run starts over or has nothing to do. */
  lemma RepairedIff(seen: Folder, release: Release, codec: Codec, host: Host, listing: seq<string>)
    requires Lists(release.stage, listing) && NoTempClash(release.stage, release.binary, host)
    ensures Repaired(seen, release, codec, host.through) <==>
              Decides(seen, release, codec) || BundleInPlace(seen, release, host)
  {
    if Decides(seen, release, codec) {
      forall other: Host, others: seq<string> | other.through == host.through
        ensures RepairedBy(seen, release, codec, other, others)
      {
        if Lists(release.stage, others) && NoTempClash(release.stage, release.binary, other) {
          CompletedFetch(seen, release, codec, other, others);
        }
      }
    } else if BundleInPlace(seen, release, host) {
      forall other: Host, others: seq<string> | other.through == host.through
        ensures RepairedBy(seen, release, codec, other, others)
      {
        SameInstalled(release, host, other, seen);
      }
    } else {
      assert !RepairedBy(seen, release, codec, host, listing);
    }
  }

  // ----- the states of a run that is cut short -----

  lemma NamesAreNoTemps(release: Release, host: Host)
    requires PlatformName(release)
    ensures !IsTemp(release.stage, release.binary, host, VersionName(release.binary))
    ensures !IsTemp(release.stage, release.binary, host, release.file)
  {
  }

  /** `k` items are installed. */
  ghost predicate PrefixDone(folder: Folder, release: Release, host: Host, order: seq<string>, k: nat, at: Folder)
  {
    && Items(release, order) && NoTempClash(release.stage, release.binary, host) && k <= |order|
    && (forall n :: n in order[..k] ==> n in release.stage)
    && InstallItems(release.stage, release.binary, host, folder, order[..k]) == Attempt(at, true)
  }

  lemma PrefixState(folder: Folder, release: Release, host: Host, order: seq<string>, k: nat, at: Folder, n: string)
    requires PrefixDone(folder, release, host, order, k, at)
    ensures n in order[..k] ==> InPlace(release.stage, release.binary, host, at, n)
    ensures n !in order[..k] && !IsTemp(release.stage, release.binary, host, n) ==> SameAt(folder, at, n)
  {
    ItemsEffect(release.stage, release.binary, host, folder, order[..k]);
  }

  /** After `k` items the run looks current exactly as the condition says. */
  lemma PrefixLooksCurrent(folder: Folder, release: Release, codec: Codec, host: Host, order: seq<string>, k: nat,
                           at: Folder)
    requires PrefixDone(folder, release, host, order, k, at) && k > 0 && PlatformName(release)
    ensures Decides(at, release, codec) <==> !LooksCurrent(folder, release, codec, order[k - 1])
  {
    var name, m := VersionName(release.binary), order[k - 1];
    NamesAreNoTemps(release, host);
    PrefixState(folder, release, host, order, k, at, name);
    PrefixState(folder, release, host, order, k, at, release.file);
    PrefixIsUpTo(release, order, k, name);
    PrefixIsUpTo(release, order, k, release.file);
    ReachesIff(folder, release, host, order, k);
    assert name in release.stage ==> !KindOf(release.stage, release.binary, name).BinaryKind?;
    if name in order[..k] && release.stage[name].DirEntry? {
      assert CanInstall(release.stage, release.binary, host, folder, name);
    }
    assert CachedTs(at, release.binary, codec) == TsAfter(folder, release, codec, m);
  }

  /** What is in motion while an item is installed never makes the cache look current. */
  lemma MidStillDecides(release: Release, codec: Codec, host: Host, before: Folder, name: string, seen: Folder)
    requires PlatformName(release) && MidItem(release.stage, release.binary, host, before, name, seen)
    requires name in release.stage && Decides(before, release, codec)
    ensures Decides(seen, release, codec)
  {
    NamesAreNoTemps(release, host);
    MidItemFrame(release.stage, release.binary, host, before, name, seen);
    var version := VersionName(release.binary);
    assert version != name ==> SameAt(before, seen, version);
    assert release.file != name ==> SameAt(before, seen, release.file);
  }

  lemma PrefixMembers(order: seq<string>, j: nat)
    requires j <= |order|
    ensures forall i :: 0 <= i < j ==> order[i] in order[..j]
  {
    assert forall i :: 0 <= i < j ==> order[..j][i] == order[i];
  }

  lemma NothingInstalled(folder: Folder, release: Release, host: Host, order: seq<string>)
    ensures order[..0] == []
    ensures InstallItems(release.stage, release.binary, host, folder, []) == Attempt(folder, true)
  {
  }

  /** What is not in place in a state of a run is still to come in it. */
  lemma MissingIsLater(folder: Folder, release: Release, host: Host, order: seq<string>, j: nat, seen: Folder,
                       n: string)
    requires Items(release, order) && NoTempClash(release.stage, release.binary, host) && j > 0
    requires SeenAfter(release.stage, release.binary, host, folder, order, j, seen)
    requires n in release.stage && !InPlace(release.stage, release.binary, host, seen, n)
    ensures Before(release.stage, release.binary, order[j - 1], n)
    ensures release.stage[n].DirEntry? || !InPlace(release.stage, release.binary, host, folder, n)
  {
    SeenState(release.stage, release.binary, host, folder, order, j, seen);
    assert n in order && n !in order[..j];
    var i :| 0 <= i < |order| && order[i] == n;
    PrefixMembers(order, j);
    assert Before(release.stage, release.binary, order[j - 1], order[i]);
    assert !IsTemp(release.stage, release.binary, host, n);
  }

  /** A state that the next run takes for current with something missing strands the bundle. */
  lemma StrandedState(folder: Folder, release: Release, codec: Codec, host: Host, order: seq<string>, j: nat,
                      seen: Folder)
    requires Items(release, order) && NoTempClash(release.stage, release.binary, host) && PlatformName(release)
    requires SeenAfter(release.stage, release.binary, host, folder, order, j, seen) && Decides(folder, release, codec)
    requires !Decides(seen, release, codec) && !BundleInPlace(seen, release, host)
    ensures Stranding(folder, release, codec, host)
  {
    var at := InstallItems(release.stage, release.binary, host, folder, order[..j]).folder;
    if j < |order| && Decides(at, release, codec) {
      assert order[j] in order;
      MidStillDecides(release, codec, host, at, order[j], seen);
    }
    assert !Decides(at, release, codec);
    NothingInstalled(folder, release, host, order);
    var m := order[j - 1];
    ReachesIff(folder, release, host, order, j);
    PrefixLooksCurrent(folder, release, codec, host, order, j, at);
    var n :| Lasting(release, n) && !InPlace(release.stage, release.binary, host, seen, n);
    MissingIsLater(folder, release, host, order, j, seen, n);
    assert Unfinished(folder, release, host, m);
  }

  // ----- a stranding crash, where there is one -----

  /** The state before the next item, when that already misses something. */
  lemma CrashBetween(folder: Folder, release: Release, codec: Codec, host: Host, order: seq<string>, k: nat,
                     at: Folder, n: string)
    requires PrefixDone(folder, release, host, order, k, at) && 0 < k < |order|
    requires LooksCurrent(folder, release, codec, order[k - 1]) && PlatformName(release)
    requires Lasting(release, n) && !InPlace(release.stage, release.binary, host, at, n)
    ensures SeenAfter(release.stage, release.binary, host, folder, order, k, at)
    ensures !Decides(at, release, codec) && !BundleInPlace(at, release, host)
  {
    PrefixLooksCurrent(folder, release, codec, host, order, k, at);
    assert forall x :: x in order[..k] ==> x in order;
    assert MidItem(release.stage, release.binary, host, at, order[k], at);
  }

  /** The state in which the next directory has been taken away. */
  lemma CrashInRemoval(folder: Folder, release: Release, codec: Codec, host: Host, order: seq<string>, k: nat,
                       at: Folder)
    requires PrefixDone(folder, release, host, order, k, at) && 0 < k < |order|
    requires LooksCurrent(folder, release, codec, order[k - 1]) && Decides(folder, release, codec) &&
        PlatformName(release)
    requires order[k] in release.stage && release.stage[order[k]].DirEntry?
    requires InPlace(release.stage, release.binary, host, at, order[k])
    ensures SeenAfter(release.stage, release.binary, host, folder, order, k, at - {order[k]})
    ensures !Decides(at - {order[k]}, release, codec) && !BundleInPlace(at - {order[k]}, release, host)
  {
    var next, seen, name := order[k], at - {order[k]}, VersionName(release.binary);
    PrefixLooksCurrent(folder, release, codec, host, order, k, at);
    assert forall x :: x in order[..k] ==> x in order;
    assert RemoveStale(at, next, host).folder == seen;
    assert CachedTs(seen, release.binary, codec) == CachedTs(at, release.binary, codec);
    assert release.file != next by { NextIsNotTheFile(folder, release, codec, order, k); }
    assert Lasting(release, next) && next !in seen;
  }

  /** The file the platform runs is not the next directory: it would have been in
      the folder from the start, and only a staged version file, which no directory
      follows, could then make the cache look current. */
  lemma NextIsNotTheFile(folder: Folder, release: Release, codec: Codec, order: seq<string>, k: nat)
    requires Items(release, order) && 0 < k < |order| && PlatformName(release)
    requires LooksCurrent(folder, release, codec, order[k - 1]) && Decides(folder, release, codec)
    requires order[k] in release.stage && release.stage[order[k]].DirEntry?
    ensures release.file != order[k]
  {
    var name, m, next := VersionName(release.binary), order[k - 1], order[k];
    assert Before(release.stage, release.binary, m, next);
    assert m in order;
    PrefixIsUpTo(release, order, k, name);
    PrefixIsUpTo(release, order, k, next);
    assert next !in order[..k];
    DirsComeFirst(release, name, m, next);
  }

  lemma DirsComeFirst(release: Release, name: string, m: string, next: string)
    requires m in release.stage && next in release.stage
    requires release.stage[next].DirEntry? && Before(release.stage, release.binary, m, next)
    ensures name in release.stage && UpTo(release, name, m) ==> release.stage[name].DirEntry?
  {
  }

  /** After the first `k` items the cache looks current, and `n` is still to come. */
  lemma CrashAfter(folder: Folder, release: Release, codec: Codec, host: Host, order: seq<string>, k: nat, at: Folder,
                   n: string)
    returns (seen: Folder)
    requires PrefixDone(folder, release, host, order, k, at) && 0 < k < |order| && PlatformName(release)
    requires LooksCurrent(folder, release, codec, order[k - 1]) && Decides(folder, release, codec)
    requires Lasting(release, n) && n !in order[..k]
    requires release.stage[n].DirEntry? || !InPlace(release.stage, release.binary, host, folder, n)
    ensures SeenAfter(release.stage, release.binary, host, folder, order, k, seen)
    ensures !Decides(seen, release, codec) && !BundleInPlace(seen, release, host)
  {
    PrefixState(folder, release, host, order, k, at, n);
    assert !IsTemp(release.stage, release.binary, host, n);
    seen := at;
    if !InPlace(release.stage, release.binary, host, at, n) {
      CrashBetween(folder, release, codec, host, order, k, at, n);
    } else {
      NextIsDir(release, order, k, n);
      if InPlace(release.stage, release.binary, host, at, order[k]) {
        CrashInRemoval(folder, release, codec, host, order, k, at);
        seen := at - {order[k]};
      } else {
        CrashBetween(folder, release, codec, host, order, k, at, order[k]);
      }
    }
  }

  lemma ReachedPrefix(folder: Folder, release: Release, host: Host, order: seq<string>, m: string)
    returns (k: nat, at: Folder)
    requires Items(release, order) && NoTempClash(release.stage, release.binary, host)
    requires Reaches(folder, release, host, m)
    ensures PrefixDone(folder, release, host, order, k, at) && k > 0 && order[k - 1] == m
  {
    assert m in order;
    var i :| 0 <= i < |order| && order[i] == m;
    k := i + 1;
    ReachesIff(folder, release, host, order, k);
    at := InstallItems(release.stage, release.binary, host, folder, order[..k]).folder;
  }

  lemma StrandingItems(folder: Folder, release: Release, codec: Codec, host: Host) returns (m: string, n: string)
    requires Stranding(folder, release, codec, host)
    ensures Reaches(folder, release, host, m) && LooksCurrent(folder, release, codec, m)
    ensures Lasting(release, n) && Before(release.stage, release.binary, m, n)
    ensures release.stage[n].DirEntry? || !InPlace(release.stage, release.binary, host, folder, n)
  {
    m :| Reaches(folder, release, host, m) && LooksCurrent(folder, release, codec, m)
         && Unfinished(folder, release, host, m);
    n :| Lasting(release, n) && Before(release.stage, release.binary, m, n)
         && (release.stage[n].DirEntry? || !InPlace(release.stage, release.binary, host, folder, n));
  }

  lemma StrandingCrash(folder: Folder, release: Release, codec: Codec, host: Host, order: seq<string>)
    returns (k: nat, seen: Folder)
    requires Items(release, order) && NoTempClash(release.stage, release.binary, host) && PlatformName(release)
    requires Decides(folder, release, codec) && Stranding(folder, release, codec, host)
    ensures SeenAfter(release.stage, release.binary, host, folder, order, k, seen)
    ensures !Decides(seen, release, codec) && !BundleInPlace(seen, release, host)
  {
    var m, n := StrandingItems(folder, release, codec, host);
    var at;
    k, at := ReachedPrefix(folder, release, host, order, m);
    LaterItem(release, order, k - 1, n);
    seen := CrashAfter(folder, release, codec, host, order, k, at, n);
  }

  lemma LaterItem(release: Release, order: seq<string>, i: nat, n: string)
    requires Items(release, order) && i < |order| && n in order && Before(release.stage, release.binary, order[i], n)
    ensures i + 1 < |order| && n !in order[..i + 1]
  {
    var k :| 0 <= k < |order| && order[k] == n;
    BeforeIsStrict(release.stage, release.binary, order[i], n);
    PrefixIsUpTo(release, order, i + 1, n);
  }

  lemma NextIsDir(release: Release, order: seq<string>, j: nat, n: string)
    requires Items(release, order) && 0 < j < |order| && n in order && n !in order[..j] && release.stage[n].DirEntry?
    ensures order[j] in release.stage && release.stage[order[j]].DirEntry?
  {
    var k :| 0 <= k < |order| && order[k] == n;
    PrefixMembers(order, j);
    assert order[j] in order;
    assert j < k ==> Before(release.stage, release.binary, order[j], order[k]);
  }

  // ----- the theorem -----

  lemma TornIsComplete(folder: Folder, release: Release, codec: Codec, host: Host, listing: seq<string>, seen: Folder)
    requires Lists(release.stage, listing) && NoTempClash(release.stage, release.binary, host)
    requires TornRecord(folder, release, codec, host, listing, seen)
    ensures BundleInPlace(seen, release, host)
  {
    InstallExact(release.stage, release.binary, host, folder, listing);
    var done := Install(release.stage, release.binary, host, folder, listing).folder;
    var torn :| codec.read(torn).ts == "" && seen == done[VersionName(release.binary) := FileEntry(torn)];
    RecordKeepsBundle(done, release, host, torn);
  }

  ghost predicate EveryCrashRepaired(folder: Folder, release: Release, codec: Codec, host: Host, listing: seq<string>)
    requires Lists(release.stage, listing)
  {
    forall j: nat, seen :: CutShort(folder, release, codec, host, listing, j, seen) ==>
        Repaired(seen, release, codec, host.through)
  }

  /** No half-installed state survives, exactly: a run that decided to download may be
      cut short anywhere before its record is whole, and the next completed run for
      the same release leaves the full bundle in place, if and only if the release
      does not strand this folder. */
  lemma CrashRecoveryIff(folder: Folder, release: Release, codec: Codec, host: Host, listing: seq<string>)
    requires Lists(release.stage, listing) && NoTempClash(release.stage, release.binary, host)
    requires PlatformName(release) && Decides(folder, release, codec)
    ensures EveryCrashRepaired(folder, release, codec, host, listing) <==> !Stranding(folder, release, codec, host)
  {
    SortNamesInOrder(release.stage, release.binary, listing);
    var order := SortNames(release.stage, release.binary, listing);
    if Stranding(folder, release, codec, host) {
      var j, seen := StrandingCrash(folder, release, codec, host, order);
      assert MidInstall(folder, release, host, listing, j, seen);
      assert CutShort(folder, release, codec, host, listing, j, seen);
      RepairedIff(seen, release, codec, host, listing);
    } else {
      forall j: nat, seen | CutShort(folder, release, codec, host, listing, j, seen)
        ensures Repaired(seen, release, codec, host.through)
      {
        RepairedIff(seen, release, codec, host, listing);
        if TornRecord(folder, release, codec, host, listing, seen) {
          TornIsComplete(folder, release, codec, host, listing, seen);
        } else if !Decides(seen, release, codec) && !BundleInPlace(seen, release, host) {
          StrandedState(folder, release, codec, host, order, j, seen);
        }
      }
    }
  }

  // ----- which releases strand a folder -----

  /** No second binary is installed after the file the platform runs. */
  predicate BinaryIsLast(release: Release)
  {
    var exe := release.binary + ".exe";
    release.file in release.stage ==>
      !release.stage[release.file].DirEntry?
      && (release.file == exe || exe !in release.stage || release.stage[exe].DirEntry?)
  }

  /** A release that stages no version file never strands a folder whose record it is
      newer than, nor, with its binary last, one from which the binary is gone. */
  lemma PlainReleaseRecovers(folder: Folder, release: Release, codec: Codec, host: Host)
    requires PlatformName(release) && Decides(folder, release, codec)
    requires var name := VersionName(release.binary); name in release.stage ==> release.stage[name].DirEntry?
    requires IsNewer(release.ts, CachedTs(folder, release.binary, codec)) || BinaryIsLast(release)
    ensures !Stranding(folder, release, codec, host)
  {
    forall m, n | m in release.stage && LooksCurrent(folder, release, codec, m) && Lasting(release, n)
      ensures !Before(release.stage, release.binary, m, n)
    {
      assert release.file !in folder && UpTo(release, release.file, m);
      NothingAfterBinary(release, m, n);
    }
  }

  lemma NothingAfterBinary(release: Release, m: string, n: string)
    requires PlatformName(release) && BinaryIsLast(release) && release.file in release.stage
    requires m in release.stage && n in release.stage && UpTo(release, release.file, m)
    ensures !Before(release.stage, release.binary, m, n)
  {
    var exe := release.binary + ".exe";
    BeforeIsStrict(release.stage, release.binary, m, n);
    BeforeIsStrict(release.stage, release.binary, release.file, m);
    LexPrefix(release.binary, ".exe");
    LexTotal(release.binary, exe);
  }

  /** A staged version file that is not older than the release strands every folder
      with an old binary: a crash just after that file is in place is taken for current. */
  lemma VersionFileStrands(folder: Folder, release: Release, codec: Codec, host: Host)
    requires PlatformName(release)
    requires var name := VersionName(release.binary);
             && name in release.stage && release.stage[name].FileEntry? && Reaches(folder, release, host, name)
             && !IsNewer(release.ts, codec.read(release.stage[name].content).ts)
    requires release.file in folder && release.file in release.stage && !release.stage[release.file].DirEntry?
    requires !InPlace(release.stage, release.binary, host, folder, release.file)
    ensures Stranding(folder, release, codec, host)
  {
    var name := VersionName(release.binary);
    assert LooksCurrent(folder, release, codec, name);
    assert Lasting(release, release.file) && Before(release.stage, release.binary, name, release.file);
  }

  /** So does a second binary that is not in place, where the first is gone and the
      release is not newer than the record. */
  lemma SecondBinaryStrands(folder: Folder, release: Release, codec: Codec, host: Host)
    requires release.file == release.binary && Reaches(folder, release, host, release.file)
    requires !release.stage[release.file].DirEntry? && VersionName(release.binary) !in release.stage
    requires var exe := release.binary + ".exe";
             && exe in release.stage && !release.stage[exe].DirEntry?
             && !InPlace(release.stage, release.binary, host, folder, exe)
    requires !IsNewer(release.ts, CachedTs(folder, release.binary, codec))
    ensures Stranding(folder, release, codec, host)
  {
    var exe := release.binary + ".exe";
    LexPrefix(release.binary, ".exe");
    assert LooksCurrent(folder, release, codec, release.file);
    assert Lasting(release, exe) && Before(release.stage, release.binary, release.file, exe);
  }

  /** And so does a directory under the file's own name with another one after it,
      also where that one is already in place. */
  lemma DirectoryAsFileStrands(folder: Folder, release: Release, codec: Codec, host: Host, n: string)
    requires Reaches(folder, release, host, release.file) && release.stage[release.file].DirEntry?
    requires n in release.stage && release.stage[n].DirEntry? && LexLess(release.file, n)
    requires !IsNewer(release.ts, CachedTs(folder, release.binary, codec))
    ensures Stranding(folder, release, codec, host)
  {
    DirsComeFirst(release, VersionName(release.binary), release.file, n);
    assert Lasting(release, n) && Before(release.stage, release.binary, release.file, n);
    assert LooksCurrent(folder, release, codec, release.file);
  }
}
