/** What a fetch records, and that a fetch on the cache directory, whole or cut short,
    is a step of the newest-wins account of it. */
module FetchRefinement {
  import opened Text
  import opened FileTree
  import opened BundleInstall
  import opened BundleFetch
  import opened BundleRecovery
  import opened Timestamps
  import NewestWins

  /** A record that was written reads back. */
  ghost predicate ReadsBack(codec: Codec)
  {
    forall v :: codec.read(codec.write(v)) == v
  }

  /** A directory in the place of the record keeps it from being written. */
  predicate Recordable(folder: Folder, release: Release)
  {
    var name := VersionName(release.binary);
    !HasDir(folder, name) && (name in release.stage ==> !release.stage[name].DirEntry?)
  }

  lemma InstallKeepsRecordable(folder: Folder, release: Release, host: Host, listing: seq<string>)
    requires Lists(release.stage, listing) && NoTempClash(release.stage, release.binary, host)
    requires Recordable(folder, release) && PlatformName(release)
    requires Install(release.stage, release.binary, host, folder, listing).ok
    ensures !HasDir(Install(release.stage, release.binary, host, folder, listing).folder, VersionName(release.binary))
  {
    var name := VersionName(release.binary);
    InstallExact(release.stage, release.binary, host, folder, listing);
    NamesAreNoTemps(release, host);
    assert !KindOf(release.stage, release.binary, name).BinaryKind?;
  }

  /** A completed fetch records the release's own tag and timestamp. */
  lemma FetchRecordsRelease(folder: Folder, release: Release, codec: Codec, host: Host, listing: seq<string>)
    requires Lists(release.stage, listing) && NoTempClash(release.stage, release.binary, host)
    requires Recordable(folder, release) && PlatformName(release) && ReadsBack(codec)
    requires Fetch(folder, release, codec, host, listing).outcome == Downloaded
    ensures var after := Fetch(folder, release, codec, host, listing).folder;
            CachedVersion(after, release.binary, codec) == Version(release.tag, release.ts)
  {
    InstallKeepsRecordable(folder, release, host, listing);
    var v := Version(release.tag, release.ts);
    assert codec.read(codec.write(v)) == v;
  }

  /** And leaves the file that the platform runs, when the bundle has it. */
  lemma FetchLeavesBinary(folder: Folder, release: Release, codec: Codec, host: Host, listing: seq<string>)
    requires Lists(release.stage, listing) && NoTempClash(release.stage, release.binary, host)
    requires PlatformName(release) && Fetch(folder, release, codec, host, listing).outcome == Downloaded
    ensures release.file in Fetch(folder, release, codec, host, listing).folder <==>
              release.file in release.stage || release.file in folder
  {
    InstallExact(release.stage, release.binary, host, folder, listing);
    NamesAreNoTemps(release, host);
  }

  /** After it, a release is fetched exactly when it is newer: the same one never,
      every later one always. */
  lemma NextFetchIff(folder: Folder, release: Release, codec: Codec, host: Host, listing: seq<string>, next: Release)
    requires Lists(release.stage, listing) && NoTempClash(release.stage, release.binary, host)
    requires Recordable(folder, release) && PlatformName(release) && ReadsBack(codec)
    requires Fetch(folder, release, codec, host, listing).outcome == Downloaded
    requires release.file in release.stage && next.binary == release.binary && next.file == release.file
    ensures var after := Fetch(folder, release, codec, host, listing).folder;
            Decides(after, next, codec) <==> IsNewer(next.ts, release.ts)
    ensures var after := Fetch(folder, release, codec, host, listing).folder;
            forall other: Host, others: seq<string> | Lists(release.stage, others) ::
              Fetch(after, release, codec, other, others) == Fetched(after, AlreadyCurrent)
  {
    FetchRecordsRelease(folder, release, codec, host, listing);
    FetchLeavesBinary(folder, release, codec, host, listing);
    LexTotal(release.ts, release.ts);
  }

  // ----- the account of one connector -----

  /** Complete bytes that are known, with the timestamp of their source. */
  type Known = map<Bytes, string>

  function BinaryOf(folder: Folder, file: string, known: Known): NewestWins.Binary
  {
    if file !in folder then NewestWins.Missing
    else if folder[file].FileEntry? && folder[file].content in known then NewestWins.Whole(known[folder[file].content])
    else NewestWins.Torn
  }

  function SlotIn(folder: Folder, release: Release, codec: Codec, known: Known): NewestWins.Slot
  {
    NewestWins.Slot(BinaryOf(folder, release.file, known), CachedTs(folder, release.binary, codec))
  }

  predicate Places(release: Release)
  {
    release.file in release.stage
  }

  /** A release whose bundle has no version file of its own, and whose binary, where
      it has one for this platform, is a file of known bytes. */
  predicate Accountable(release: Release, host: Host, known: Known)
  {
    && PlatformName(release) && VersionName(release.binary) !in release.stage
    && (Places(release) ==>
          && !release.stage[release.file].DirEntry?
          && var content := BinaryContent(release.stage, release.file, host);
             content.Some? ==> content.value in known && known[content.value] == release.ts)
  }

  lemma DecidesSame(folder: Folder, release: Release, codec: Codec, known: Known)
    ensures var slot := SlotIn(folder, release, codec, known);
            Decides(folder, release, codec) <==> ShouldDownload(!slot.binary.Missing?, slot.record, release.ts)
  {
  }

  /** The binary in place is the release's. */
  lemma InPlaceIsWhole(folder: Folder, release: Release, host: Host, known: Known, seen: Folder)
    requires Accountable(release, host, known) && Places(release)
    requires CanInstall(release.stage, release.binary, host, folder, release.file)
    requires InPlace(release.stage, release.binary, host, seen, release.file)
    ensures BinaryOf(seen, release.file, known) == NewestWins.Whole(release.ts)
  {
  }

  /** The steps that a fetch can be, by where it ended. */
  function Ended(folder: Folder, release: Release, codec: Codec, known: Known, end: NewestWins.FetchEnd)
    : NewestWins.Slot
  {
    NewestWins.FetchStep(SlotIn(folder, release, codec, known), release.ts, Places(release), end)
  }

  /** The slot's two parts, at any moment before the record is written. */
  lemma PrefixSlot(folder: Folder, release: Release, codec: Codec, host: Host, known: Known, order: seq<string>,
                   j: nat, seen: Folder)
    requires Accountable(release, host, known) && Items(release, order)
    requires NoTempClash(release.stage, release.binary, host)
    requires SeenAfter(release.stage, release.binary, host, folder, order, j, seen)
    ensures CachedTs(seen, release.binary, codec) == CachedTs(folder, release.binary, codec)
    ensures BinaryOf(seen, release.file, known) ==
              if release.file in order[..j] then NewestWins.Whole(release.ts) else BinaryOf(folder, release.file, known)
  {
    var file, name := release.file, VersionName(release.binary);
    NamesAreNoTemps(release, host);
    SeenState(release.stage, release.binary, host, folder, order, j, seen);
    assert name !in order && SameAt(folder, seen, name);
    if file in order[..j] {
      PrefixInstallable(folder, release, host, order, j, file);
      InPlaceIsWhole(folder, release, host, known, seen);
    } else {
      assert j < |order| && file == order[j] ==> !KindOf(release.stage, release.binary, file).DirKind?;
      assert SameAt(folder, seen, file);
    }
  }

  lemma PrefixRefines(folder: Folder, release: Release, codec: Codec, host: Host, known: Known, order: seq<string>,
                      j: nat, seen: Folder)
    requires Accountable(release, host, known) && Items(release, order) && Decides(folder, release, codec)
    requires NoTempClash(release.stage, release.binary, host)
    requires SeenAfter(release.stage, release.binary, host, folder, order, j, seen)
    ensures SlotIn(seen, release, codec, known) ==
              Ended(folder, release, codec, known,
                    if release.file in order[..j] then NewestWins.FetchUnrecorded else NewestWins.FetchNotInstalled)
  {
    DecidesSame(folder, release, codec, known);
    PrefixSlot(folder, release, codec, host, known, order, j, seen);
  }

  lemma PrefixInstallable(folder: Folder, release: Release, host: Host, order: seq<string>, j: nat, n: string)
    requires Items(release, order) && NoTempClash(release.stage, release.binary, host) && j <= |order|
    requires (forall x :: x in order[..j] ==> x in release.stage) && n in order[..j]
    requires InstallItems(release.stage, release.binary, host, folder, order[..j]).ok
    ensures CanInstall(release.stage, release.binary, host, folder, n)
  {
    ItemsInstallIff(release.stage, release.binary, host, folder, order[..j]);
  }

  lemma CompleteRefines(folder: Folder, release: Release, host: Host, known: Known, listing: seq<string>)
    requires Lists(release.stage, listing) && NoTempClash(release.stage, release.binary, host)
    requires Accountable(release, host, known) && Install(release.stage, release.binary, host, folder, listing).ok
    ensures var done := Install(release.stage, release.binary, host, folder, listing).folder;
            BinaryOf(done, release.file, known) ==
              if Places(release) then NewestWins.Whole(release.ts) else BinaryOf(folder, release.file, known)
  {
    InstallExact(release.stage, release.binary, host, folder, listing);
    NamesAreNoTemps(release, host);
    if Places(release) {
      InstallOkIff(release.stage, release.binary, host, folder, listing);
      var done := Install(release.stage, release.binary, host, folder, listing).folder;
      InPlaceIsWhole(folder, release, host, known, done);
    }
  }

  lemma TornRefines(folder: Folder, release: Release, codec: Codec, host: Host, known: Known, listing: seq<string>,
                    seen: Folder)
    requires Lists(release.stage, listing) && NoTempClash(release.stage, release.binary, host)
    requires Accountable(release, host, known) && Decides(folder, release, codec)
    requires TornRecord(folder, release, codec, host, listing, seen)
    ensures SlotIn(seen, release, codec, known) == Ended(folder, release, codec, known, NewestWins.FetchRecordTorn)
  {
    DecidesSame(folder, release, codec, known);
    CompleteRefines(folder, release, host, known, listing);
    var done := Install(release.stage, release.binary, host, folder, listing).folder;
    assert VersionName(release.binary) != release.file;
    assert BinaryOf(seen, release.file, known) == BinaryOf(done, release.file, known);
  }

  /** A fetch that is cut short, wherever that is, is a step that did not get to the
      binary, or to the record, or left the record torn. */
  lemma CutShortRefinesStep(folder: Folder, release: Release, codec: Codec, host: Host, known: Known,
                            listing: seq<string>, j: nat, seen: Folder)
    returns (end: NewestWins.FetchEnd)
    requires Lists(release.stage, listing) && NoTempClash(release.stage, release.binary, host)
    requires Accountable(release, host, known) && CutShort(folder, release, codec, host, listing, j, seen)
    ensures end != NewestWins.FetchDone
    ensures SlotIn(seen, release, codec, known) == Ended(folder, release, codec, known, end)
  {
    SortNamesInOrder(release.stage, release.binary, listing);
    var order := SortNames(release.stage, release.binary, listing);
    if MidInstall(folder, release, host, listing, j, seen) {
      end := if release.file in order[..j] then NewestWins.FetchUnrecorded else NewestWins.FetchNotInstalled;
      PrefixRefines(folder, release, codec, host, known, order, j, seen);
    } else {
      end := NewestWins.FetchRecordTorn;
      TornRefines(folder, release, codec, host, known, listing, seen);
    }
  }

  /** A fetch that is not interrupted is the completed step, or none, or, when the
      install fails on the way, one that did not get to the record. */
  lemma FetchRefinesStep(folder: Folder, release: Release, codec: Codec, host: Host, known: Known, listing: seq<string>)
    returns (end: NewestWins.FetchEnd)
    requires Lists(release.stage, listing) && NoTempClash(release.stage, release.binary, host)
    requires Accountable(release, host, known) && Recordable(folder, release) && ReadsBack(codec)
    ensures var next := Fetch(folder, release, codec, host, listing);
            && SlotIn(next.folder, release, codec, known) == Ended(folder, release, codec, known, end)
            && (next.outcome == Downloaded ==> end == NewestWins.FetchDone)
            && (next.outcome == Failed ==> end == NewestWins.FetchUnrecorded || end == NewestWins.FetchNotInstalled)
  {
    DecidesSame(folder, release, codec, known);
    var next := Fetch(folder, release, codec, host, listing);
    end := NewestWins.FetchDone;
    if next.outcome == Downloaded {
      FetchRecordsRelease(folder, release, codec, host, listing);
      CompleteRefines(folder, release, host, known, listing);
    } else if next.outcome == Failed {
      end := FailedRefines(folder, release, codec, host, known, listing);
    }
  }

  lemma FailedRefines(folder: Folder, release: Release, codec: Codec, host: Host, known: Known, listing: seq<string>)
    returns (end: NewestWins.FetchEnd)
    requires Lists(release.stage, listing) && NoTempClash(release.stage, release.binary, host)
    requires Accountable(release, host, known) && Fetch(folder, release, codec, host, listing).outcome == Failed
    ensures SlotIn(Fetch(folder, release, codec, host, listing).folder, release, codec, known) ==
              Ended(folder, release, codec, known, end)
    ensures end == NewestWins.FetchUnrecorded || end == NewestWins.FetchNotInstalled
  {
    SortNamesInOrder(release.stage, release.binary, listing);
    var order := SortNames(release.stage, release.binary, listing);
    var seen := Fetch(folder, release, codec, host, listing).folder;
    if listing == [] {
      end := NewestWins.FetchNotInstalled;
      DecidesSame(folder, release, codec, known);
    } else {
      var j := FailedInstallIsSeen(release.stage, release.binary, host, folder, order);
      PrefixRefines(folder, release, codec, host, known, order, j, seen);
      end := if release.file in order[..j] then NewestWins.FetchUnrecorded else NewestWins.FetchNotInstalled;
    }
  }

  // ----- seeding from the bundled copy -----

  /** The copy that comes with the hub: its record, its bytes and where they go. */
  datatype Bundle = Bundle(version: Version, content: Bytes, binary: string, file: string)

  function BundleSlot(folder: Folder, bundle: Bundle, codec: Codec, known: Known): NewestWins.Slot
  {
    NewestWins.Slot(BinaryOf(folder, bundle.file, known), CachedTs(folder, bundle.binary, codec))
  }

  /** What a seed that decided to copy can leave: `fs::copy` writes the binary in
      place, so it can be torn; then the record is written, which can be torn too. */
  ghost predicate SeedSeen(folder: Folder, bundle: Bundle, codec: Codec, known: Known, seen: Folder,
                           end: NewestWins.SeedEnd)
  {
    var copied, name := folder[bundle.file := FileEntry(bundle.content)], VersionName(bundle.binary);
    match end
    case SeedNotStarted => seen == folder
    case SeedTorn => exists part :: part !in known && seen == folder[bundle.file := FileEntry(part)]
    case SeedUnrecorded => seen == copied
    case SeedRecordTorn => exists torn :: codec.read(torn).ts == "" && seen == copied[name := FileEntry(torn)]
    case SeedDone => seen == copied[name := FileEntry(codec.write(bundle.version))]
  }

  /** Wherever it ends, a seed on the cache directory is that step of the account. */
  lemma SeedRefinesStep(folder: Folder, bundle: Bundle, codec: Codec, known: Known, seen: Folder,
                        end: NewestWins.SeedEnd)
    requires bundle.content in known && known[bundle.content] == bundle.version.ts && ReadsBack(codec)
    requires bundle.file == bundle.binary || bundle.file == bundle.binary + ".exe"
    requires DecideSeed(bundle.version.ts, CachedTs(folder, bundle.binary, codec), true)
    requires SeedSeen(folder, bundle, codec, known, seen, end)
    ensures BundleSlot(seen, bundle, codec, known) ==
              NewestWins.SeedStep(BundleSlot(folder, bundle, codec, known), bundle.version.ts, true, end)
  {
    var name := VersionName(bundle.binary);
    assert name != bundle.file;
    assert codec.read(codec.write(bundle.version)) == bundle.version;
  }
}
