/** One fetch of a connector: decide, install the staged bundle, record the
    version last. A run that crashes on the way is repaired by the next. */
module BundleFetch {
  import opened FileTree
  import opened BundleInstall
  import opened Timestamps

  /** A version record: the release's tag and timestamp. */
  datatype Version = Version(tag: string, ts: string)

  /** How a version record is written to a file and read back; anything that is not a
      record reads with the empty timestamp. */
  datatype Codec = Codec(read: Bytes -> Version, write: Version -> Bytes)

  /** A release: its record, its staged bundle, the connector's binary name, and
      the file name that the platform runs. */
  datatype Release = Release(tag: string, ts: string, stage: Folder, binary: string, file: string)

  predicate PlatformName(release: Release)
  {
    release.file == release.binary || release.file == release.binary + ".exe"
  }

  function VersionName(binary: string): string
  {
    binary + ".version"
  }

  function CachedVersion(folder: Folder, binary: string, codec: Codec): Version
  {
    var name := VersionName(binary);
    if name in folder && folder[name].FileEntry? then codec.read(folder[name].content) else Version("", "")
  }

  function CachedTs(folder: Folder, binary: string, codec: Codec): string
  {
    CachedVersion(folder, binary, codec).ts
  }

  predicate Decides(folder: Folder, release: Release, codec: Codec)
  {
    ShouldDownload(release.file in folder, CachedTs(folder, release.binary, codec), release.ts)
  }

  datatype Outcome = AlreadyCurrent | Downloaded | Failed

  datatype Fetched = Fetched(folder: Folder, outcome: Outcome)

  /** `fs::write` of the record; its failure is only logged. */
  function Record(folder: Folder, release: Release, codec: Codec): Folder
  {
    var name := VersionName(release.binary);
    if HasDir(folder, name) then folder else folder[name := FileEntry(codec.write(Version(release.tag, release.ts)))]
  }

  /** A run that is not interrupted, from a verified download. */
  function Fetch(folder: Folder, release: Release, codec: Codec, host: Host, listing: seq<string>): Fetched
    requires Lists(release.stage, listing)
  {
    if !Decides(folder, release, codec) then Fetched(folder, AlreadyCurrent)
    else
      var a := Install(release.stage, release.binary, host, folder, listing);
      if !a.ok then Fetched(a.folder, Failed) else Fetched(Record(a.folder, release, codec), Downloaded)
  }

  /** `seen` is what a run that decided to download leaves when it is cut short
      before its record is whole: a state of the install after `j` items, or a
      completed install with a torn record that does not read as a record. */
  ghost predicate CutShort(folder: Folder, release: Release, codec: Codec, host: Host, listing: seq<string>, j: nat,
                           seen: Folder)
    requires Lists(release.stage, listing)
  {
    && Decides(folder, release, codec)
    && (MidInstall(folder, release, host, listing, j, seen) || TornRecord(folder, release, codec, host, listing, seen))
  }

  ghost predicate MidInstall(folder: Folder, release: Release, host: Host, listing: seq<string>, j: nat, seen: Folder)
    requires Lists(release.stage, listing)
  {
    SortNamesInOrder(release.stage, release.binary, listing);
    SeenAfter(release.stage, release.binary, host, folder, SortNames(release.stage, release.binary, listing), j, seen)
  }

  ghost predicate TornRecord(folder: Folder, release: Release, codec: Codec, host: Host, listing: seq<string>,
                             seen: Folder)
    requires Lists(release.stage, listing)
  {
    var done, name := Install(release.stage, release.binary, host, folder, listing), VersionName(release.binary);
    && done.ok && !HasDir(done.folder, name)
    && exists torn :: codec.read(torn).ts == "" && seen == done.folder[name := FileEntry(torn)]
  }

  /** The staged entries that a successful run leaves in place: all but a file or
      link named like the version record, which the record then replaces. */
  predicate Lasting(release: Release, name: string)
  {
    name in release.stage && (name != VersionName(release.binary) || release.stage[name].DirEntry?)
  }

  ghost predicate BundleInPlace(folder: Folder, release: Release, host: Host)
  {
    forall n :: Lasting(release, n) ==> InPlace(release.stage, release.binary, host, folder, n)
  }
}
