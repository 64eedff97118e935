/** Moving a staged bundle into the cache directory: directories, then files,
    then the binary, with the states a crash can leave behind. */
module BundleInstall {
  import opened Text
  import opened FileTree

  datatype Leaf = DirLeaf | FileLeaf(content: Bytes) | LinkLeaf(target: string)

  /** One name in a directory; a subdirectory holds its whole subtree. */
  datatype Entry = DirEntry(tree: map<Path, Leaf>) | FileEntry(content: Bytes) | LinkEntry(target: string)

  type Folder = map<string, Entry>

  /** What the host decides: which links of the cache lead somewhere, what a
      staged link named like the binary reads, and the process id. */
  datatype Host = Host(live: set<string>, through: map<string, Bytes>, tag: string)

  // ----- the order of the items -----

  datatype Kind = DirKind | FileKind | BinaryKind

  function KindOf(stage: Folder, binary: string, name: string): Kind
  {
    if name in stage && stage[name].DirEntry? then DirKind
    else if name == binary || name == binary + ".exe" then BinaryKind
    else FileKind
  }

  function Rank(k: Kind): nat
  {
    match k
    case DirKind => 0
    case FileKind => 1
    case BinaryKind => 2
  }

  predicate Before(stage: Folder, binary: string, a: string, b: string)
  {
    var ra, rb := Rank(KindOf(stage, binary, a)), Rank(KindOf(stage, binary, b));
    ra < rb || (ra == rb && LexLess(a, b))
  }

  function Insert(stage: Folder, binary: string, name: string, order: seq<string>): seq<string>
  {
    if order == [] || Before(stage, binary, name, order[0]) then [name] + order
    else [order[0]] + Insert(stage, binary, name, order[1..])
  }

  /** The items by kind, then by name. */
  function SortNames(stage: Folder, binary: string, listing: seq<string>): seq<string>
  {
    if listing == [] then [] else Insert(stage, binary, listing[0], SortNames(stage, binary, listing[1..]))
  }

  predicate InOrder(stage: Folder, binary: string, order: seq<string>)
  {
    forall i, j :: 0 <= i < j < |order| ==> Before(stage, binary, order[i], order[j])
  }

  predicate Distinct(names: seq<string>)
  {
    forall i, j :: 0 <= i < j < |names| ==> names[i] != names[j]
  }

  lemma {:induction false} InsertInOrder(stage: Folder, binary: string, name: string, order: seq<string>)
    requires InOrder(stage, binary, order) && name !in order
    ensures InOrder(stage, binary, Insert(stage, binary, name, order))
    ensures forall n :: n in Insert(stage, binary, name, order) <==> n == name || n in order
  {
    if order != [] {
      LexTotal(name, order[0]);
      if Before(stage, binary, name, order[0]) {
        forall j | 0 < j < |order| ensures Before(stage, binary, name, order[j]) {
          BeforeTransitive(stage, binary, name, order[0], order[j]);
        }
      } else {
        InsertInOrder(stage, binary, name, order[1..]);
        var rest := Insert(stage, binary, name, order[1..]);
        forall n | n in rest ensures Before(stage, binary, order[0], n) {
          if n != name {
            var i :| 0 <= i < |order[1..]| && order[1..][i] == n;
            assert order[i + 1] == n;
          }
        }
        assert order == [order[0]] + order[1..];
      }
    }
  }

  lemma BeforeTransitive(stage: Folder, binary: string, a: string, b: string, c: string)
    requires Before(stage, binary, a, b) && Before(stage, binary, b, c)
    ensures Before(stage, binary, a, c)
  {
    if LexLess(a, b) && LexLess(b, c) {
      LexTransitive(a, b, c);
    }
  }

  /** The items are the listed names, each before every later one. */
  lemma {:induction false} SortNamesInOrder(stage: Folder, binary: string, listing: seq<string>)
    requires Distinct(listing)
    ensures InOrder(stage, binary, SortNames(stage, binary, listing))
    ensures Distinct(SortNames(stage, binary, listing))
    ensures forall n :: n in SortNames(stage, binary, listing) <==> n in listing
  {
    if listing != [] {
      assert listing[0] !in listing[1..];
      SortNamesInOrder(stage, binary, listing[1..]);
      InsertInOrder(stage, binary, listing[0], SortNames(stage, binary, listing[1..]));
    }
    var order := SortNames(stage, binary, listing);
    forall i, j | 0 <= i < j < |order| ensures order[i] != order[j] {
      LexTotal(order[i], order[j]);
      assert Before(stage, binary, order[i], order[j]);
    }
  }

  // ----- installing -----

  /** The folder a run has reached, and whether it may go on. */
  datatype Attempt = Attempt(folder: Folder, ok: bool)

  function TempName(name: string, tag: string): string
  {
    "." + name + ".strikehub-tmp-" + tag
  }

  /** Reading the staged binary, through a link when it is one. */
  function BinaryContent(stage: Folder, name: string, host: Host): Option<Bytes>
  {
    if name !in stage then None
    else match stage[name]
      case FileEntry(content) => Some(content)
      case LinkEntry(_) => if name in host.through then Some(host.through[name]) else None
      case DirEntry(_) => None
  }

  predicate HasDir(folder: Folder, name: string)
  {
    name in folder && folder[name].DirEntry?
  }

  /** Temp file beside the target, read back, then renamed over the target. */
  function WriteBinaryAtomic(folder: Folder, name: string, content: Bytes, tag: string): Attempt
  {
    var tmp := TempName(name, tag);
    if HasDir(folder, tmp) then Attempt(folder, false)
    else if HasDir(folder, name) then Attempt(folder - {tmp}, false)
    else Attempt((folder - {tmp})[name := FileEntry(content)], true)
  }

  /** `target.exists()` then `remove_dir_all`: a file in the way is an error,
      a link is unlinked when it leads somewhere and left alone otherwise. */
  function RemoveStale(folder: Folder, name: string, host: Host): Attempt
  {
    if name !in folder then Attempt(folder, true)
    else match folder[name]
      case DirEntry(_) => Attempt(folder - {name}, true)
      case FileEntry(_) => Attempt(folder, false)
      case LinkEntry(_) => Attempt(if name in host.live then folder - {name} else folder, true)
  }

  function InstallItem(stage: Folder, binary: string, host: Host, folder: Folder, name: string): Attempt
    requires name in stage
  {
    match KindOf(stage, binary, name)
    case DirKind =>
      var cleared := RemoveStale(folder, name, host);
      if !cleared.ok || name in cleared.folder then Attempt(cleared.folder, false)
      else Attempt(cleared.folder[name := stage[name]], true)
    case FileKind =>
      if HasDir(folder, name) then Attempt(folder, false) else Attempt(folder[name := stage[name]], true)
    case BinaryKind =>
      var content := BinaryContent(stage, name, host);
      if content.None? then Attempt(folder, false)
      else WriteBinaryAtomic(folder, name, content.value, host.tag)
  }

  function InstallItems(stage: Folder, binary: string, host: Host, folder: Folder, order: seq<string>): Attempt
    requires forall n :: n in order ==> n in stage
    decreases |order|
  {
    if order == [] then Attempt(folder, true)
    else
      var a := InstallItem(stage, binary, host, folder, order[0]);
      if !a.ok then a else InstallItems(stage, binary, host, a.folder, order[1..])
  }

  /** The listing of the staging directory names each entry once. */
  ghost predicate Lists(stage: Folder, listing: seq<string>)
  {
    Distinct(listing) && forall n :: n in listing <==> n in stage
  }

  function Install(stage: Folder, binary: string, host: Host, folder: Folder, listing: seq<string>): Attempt
    requires Lists(stage, listing)
  {
    SortNamesInOrder(stage, binary, listing);
    if listing == [] then Attempt(folder, false)
    else InstallItems(stage, binary, host, folder, SortNames(stage, binary, listing))
  }

  class CacheFolder {
    var entries: Folder

    constructor (entries: Folder)
      ensures this.entries == entries
    {
      this.entries := entries;
    }

    method ReplaceBinary(name: string, content: Bytes, tag: string) returns (ok: bool)
      modifies this
      ensures Attempt(entries, ok) == WriteBinaryAtomic(old(entries), name, content, tag)
    {
      var tmp := TempName(name, tag);
      if HasDir(entries, tmp) {
        return false;
      }
      entries := entries[tmp := FileEntry(content)];
      assert |tmp| > |name|;
      if HasDir(entries, name) {
        entries := entries - {tmp};
        return false;
      }
      entries := (entries - {tmp})[name := entries[tmp]];
      return true;
    }

    /** One turn of the loop. */
    method InstallOne(stage: Folder, binary: string, host: Host, name: string) returns (ok: bool)
      requires name in stage
      modifies this
      ensures Attempt(entries, ok) == InstallItem(stage, binary, host, old(entries), name)
    {
      match KindOf(stage, binary, name)
      case DirKind =>
        var cleared := RemoveStale(entries, name, host);
        entries := cleared.folder;
        if !cleared.ok || name in entries {
          return false;
        }
        entries := entries[name := stage[name]];
        return true;
      case BinaryKind =>
        var content := BinaryContent(stage, name, host);
        if content.None? {
          return false;
        }
        ok := ReplaceBinary(name, content.value, host.tag);
      case FileKind =>
        if HasDir(entries, name) {
          return false;
        }
        entries := entries[name := stage[name]];
        return true;
    }

    /** `install_staged_bundle` */
    method InstallStagedBundle(stage: Folder, listing: seq<string>, binary: string, host: Host) returns (ok: bool)
      requires Lists(stage, listing)
      modifies this
      ensures Attempt(entries, ok) == Install(stage, binary, host, old(entries), listing)
    {
      SortNamesInOrder(stage, binary, listing);
      if |listing| == 0 {
        return false;
      }
      var items := SortNames(stage, binary, listing);
      var i := 0;
      while i < |items|
        invariant 0 <= i <= |items|
        invariant InstallItems(stage, binary, host, old(entries), items) == InstallItems(stage, binary, host, entries,
            items[i..])
      {
        assert items[i..][1..] == items[i + 1..];
        assert items[i] in items;
        ok := InstallOne(stage, binary, host, items[i]);
        if !ok {
          return;
        }
        i := i + 1;
      }
      return true;
    }
  }

  // ----- what a completed install leaves -----

  /** What the cache holds under a staged name once it is installed: the staged
      entry, or, for the binary, a plain file with its bytes. */
  function Installed(stage: Folder, binary: string, host: Host, name: string): Entry
    requires name in stage
  {
    if KindOf(stage, binary, name).BinaryKind? && BinaryContent(stage, name, host).Some?
    then FileEntry(BinaryContent(stage, name, host).value)
    else stage[name]
  }

  predicate IsTemp(stage: Folder, binary: string, host: Host, name: string)
  {
    exists b :: b in stage && KindOf(stage, binary, b).BinaryKind? && name == TempName(b, host.tag)
  }

  /** No staged entry is named like the temp file of a staged binary. */
  predicate NoTempClash(stage: Folder, binary: string, host: Host)
  {
    forall n :: n in stage ==> !IsTemp(stage, binary, host, n)
  }

  predicate InPlace(stage: Folder, binary: string, host: Host, folder: Folder, name: string)
    requires name in stage
  {
    name in folder && folder[name] == Installed(stage, binary, host, name)
  }

  predicate SameAt(a: Folder, b: Folder, name: string)
  {
    (name in a <==> name in b) && (name in a && name in b ==> a[name] == b[name])
  }

  lemma ItemEffect(stage: Folder, binary: string, host: Host, folder: Folder, name: string)
    requires name in stage
    ensures var a := InstallItem(stage, binary, host, folder, name);
            && (a.ok ==> InPlace(stage, binary, host, a.folder, name))
            && forall n :: n != name && !IsTemp(stage, binary, host, n) ==> SameAt(folder, a.folder, n)
    ensures var a := InstallItem(stage, binary, host, folder, name);
            a.ok && KindOf(stage, binary, name).BinaryKind? ==> TempName(name, host.tag) !in a.folder
  {
    assert |TempName(name, host.tag)| > |name|;
  }

  /** Every item of a completed run is in place, and nothing else but temp names changed. */
  lemma {:induction false} ItemsEffect(stage: Folder, binary: string, host: Host, folder: Folder, order: seq<string>)
    requires Distinct(order) && NoTempClash(stage, binary, host)
    requires forall n :: n in order ==> n in stage
    requires InstallItems(stage, binary, host, folder, order).ok
    ensures var r := InstallItems(stage, binary, host, folder, order).folder;
            && (forall n :: n in order ==> InPlace(stage, binary, host, r, n))
            && (forall n :: n !in order && !IsTemp(stage, binary, host, n) ==> SameAt(folder, r, n))
    decreases |order|
  {
    if order != [] {
      ItemEffect(stage, binary, host, folder, order[0]);
      var a := InstallItem(stage, binary, host, folder, order[0]);
      ItemsEffect(stage, binary, host, a.folder, order[1..]);
      assert order[0] !in order[1..];
      assert forall n :: n in order <==> n == order[0] || n in order[1..];
    }
  }

  /** Install exactness and frame: after success each staged name holds exactly
      its staged entry, with no stale file inside, and every other name is untouched. */
  lemma InstallExact(stage: Folder, binary: string, host: Host, folder: Folder, listing: seq<string>)
    requires Lists(stage, listing) && Install(stage, binary, host, folder, listing).ok
    requires NoTempClash(stage, binary, host)
    ensures var r := Install(stage, binary, host, folder, listing).folder;
            && (forall n :: n in stage ==> InPlace(stage, binary, host, r, n))
            && (forall n :: n !in stage && !IsTemp(stage, binary, host, n) ==> SameAt(folder, r, n))
  {
    SortNamesInOrder(stage, binary, listing);
    ItemsEffect(stage, binary, host, folder, SortNames(stage, binary, listing));
  }

  /** The temp name of an installed binary is gone, and later items do not bring it back. */
  lemma {:induction false} TempGone(stage: Folder, binary: string, host: Host, folder: Folder, order: seq<string>,
                                    tmp: string)
    requires InOrder(stage, binary, order) && (forall n :: n in order ==> n in stage)
    requires InstallItems(stage, binary, host, folder, order).ok
    requires exists b :: b in order && KindOf(stage, binary, b).BinaryKind? && tmp == TempName(b, host.tag)
    requires |tmp| > |binary| + 4
    ensures tmp !in InstallItems(stage, binary, host, folder, order).folder
    decreases |order|
  {
    var a := InstallItem(stage, binary, host, folder, order[0]);
    var b :| b in order && KindOf(stage, binary, b).BinaryKind? && tmp == TempName(b, host.tag);
    if b in order[1..] {
      TempGone(stage, binary, host, a.folder, order[1..], tmp);
    } else {
      assert b == order[0];
      ItemEffect(stage, binary, host, folder, b);
      OnlyBinaries(stage, binary, order);
      StaysGone(stage, binary, host, a.folder, order[1..], tmp);
    }
  }

  lemma OnlyBinaries(stage: Folder, binary: string, order: seq<string>)
    requires InOrder(stage, binary, order) && order != [] && KindOf(stage, binary, order[0]).BinaryKind?
    ensures forall n :: n in order ==> KindOf(stage, binary, n).BinaryKind?
  {
    forall n | n in order ensures KindOf(stage, binary, n).BinaryKind? {
      var i :| 0 <= i < |order| && order[i] == n;
      assert i > 0 ==> Before(stage, binary, order[0], order[i]);
    }
  }

  lemma {:induction false} StaysGone(stage: Folder, binary: string, host: Host, folder: Folder, order: seq<string>,
                                     tmp: string)
    requires forall n :: n in order ==> n in stage && KindOf(stage, binary, n).BinaryKind?
    requires InstallItems(stage, binary, host, folder, order).ok && tmp !in folder && |tmp| > |binary| + 4
    ensures tmp !in InstallItems(stage, binary, host, folder, order).folder
    decreases |order|
  {
    if order != [] {
      StaysGone(stage, binary, host, InstallItem(stage, binary, host, folder, order[0]).folder, order[1..], tmp);
    }
  }

  /** Exactly when every staged entry arrives: an entry named like a staged
      binary's temp file is the only one a successful install loses. */
  lemma InstallExactIff(stage: Folder, binary: string, host: Host, folder: Folder, listing: seq<string>)
    requires Lists(stage, listing) && Install(stage, binary, host, folder, listing).ok
    ensures var r := Install(stage, binary, host, folder, listing).folder;
            (forall n :: n in stage ==> InPlace(stage, binary, host, r, n)) <==> NoTempClash(stage, binary, host)
  {
    if NoTempClash(stage, binary, host) {
      InstallExact(stage, binary, host, folder, listing);
    } else {
      SortNamesInOrder(stage, binary, listing);
      var order := SortNames(stage, binary, listing);
      var tmp :| tmp in stage && IsTemp(stage, binary, host, tmp);
      var b :| b in stage && KindOf(stage, binary, b).BinaryKind? && tmp == TempName(b, host.tag);
      assert b in order;
      TempGone(stage, binary, host, folder, order, tmp);
      assert !InPlace(stage, binary, host, Install(stage, binary, host, folder, listing).folder, tmp);
    }
  }

  // ----- the states in between -----

  /** A state the cache can be seen in while `name` is being installed from
      `before`: a stale directory partly or wholly removed, or a temp file of any
      content beside an untouched binary. A crash or a failing call stops here. */
  ghost predicate MidItem(stage: Folder, binary: string, host: Host, before: Folder, name: string, seen: Folder)
  {
    || seen == before
    || (KindOf(stage, binary, name).DirKind? && seen == RemoveStale(before, name, host).folder)
    || (KindOf(stage, binary, name).DirKind? && HasDir(before, name) && HasDir(seen, name)
        && (forall p :: p in seen[name].tree ==> p in before[name].tree && seen[name].tree[p] == before[name].tree[p])
        && seen - {name} == before - {name})
    || (KindOf(stage, binary, name).BinaryKind?
        && exists torn :: seen == before[TempName(name, host.tag) := FileEntry(torn)])
    || (KindOf(stage, binary, name).BinaryKind? && seen == before - {TempName(name, host.tag)})
  }

  /** `seen` is a state of the run after `j` items, before the next is complete. */
  ghost predicate SeenAfter(stage: Folder, binary: string, host: Host, folder: Folder, order: seq<string>, j: nat,
                            seen: Folder)
    requires forall n :: n in order ==> n in stage
  {
    && j <= |order|
    && (forall n :: n in order[..j] ==> n in order)
    && var a := InstallItems(stage, binary, host, folder, order[..j]);
       && a.ok
       && if j == |order| then seen == a.folder else MidItem(stage, binary, host, a.folder, order[j], seen)
  }

  lemma MidItemFrame(stage: Folder, binary: string, host: Host, before: Folder, name: string, seen: Folder)
    requires MidItem(stage, binary, host, before, name, seen) && name in stage
    ensures forall n :: n != name && !IsTemp(stage, binary, host, n) ==> SameAt(before, seen, n)
    ensures KindOf(stage, binary, name).BinaryKind? || KindOf(stage, binary, name).FileKind? ==>
              SameAt(before, seen, name)
  {
    assert |TempName(name, host.tag)| > |name|;
    if HasDir(before, name) && HasDir(seen, name) && seen - {name} == before - {name} {
      forall n | n != name ensures SameAt(before, seen, n) {
        assert n in before <==> n in before - {name};
        assert n in seen <==> n in seen - {name};
      }
    }
  }

  /** What holds at every moment of a run: an installed prefix of the items,
      and only the current one in motion. */
  lemma SeenState(stage: Folder, binary: string, host: Host, folder: Folder, order: seq<string>, j: nat, seen: Folder)
    requires Distinct(order) && NoTempClash(stage, binary, host) && forall n :: n in order ==> n in stage
    requires SeenAfter(stage, binary, host, folder, order, j, seen)
    ensures forall n :: n in order[..j] ==> InPlace(stage, binary, host, seen, n)
    ensures forall n :: (n !in order[..j] && !IsTemp(stage, binary, host, n)
                         && (j < |order| && n == order[j] ==> !KindOf(stage, binary, n).DirKind?)) ==>
                             SameAt(folder, seen, n)
  {
    var a := InstallItems(stage, binary, host, folder, order[..j]);
    ItemsEffect(stage, binary, host, folder, order[..j]);
    if j < |order| {
      MidItemFrame(stage, binary, host, a.folder, order[j], seen);
      assert order[j] !in order[..j];
    }
  }

  lemma FailedItemIsSeen(stage: Folder, binary: string, host: Host, before: Folder, name: string)
    requires name in stage && !InstallItem(stage, binary, host, before, name).ok
    ensures MidItem(stage, binary, host, before, name, InstallItem(stage, binary, host, before, name).folder)
  {
  }

  lemma SeenLater(stage: Folder, binary: string, host: Host, folder: Folder, order: seq<string>, j: nat, seen: Folder)
    requires order != [] && (forall n :: n in order ==> n in stage)
    requires var a := InstallItem(stage, binary, host, folder, order[0]);
             a.ok && SeenAfter(stage, binary, host, a.folder, order[1..], j, seen)
    ensures SeenAfter(stage, binary, host, folder, order, j + 1, seen)
  {
    var prefix := order[..j + 1];
    assert prefix[0] == order[0] && prefix[1..] == order[1..][..j];
    assert forall n :: n in prefix ==> n in order;
  }

  /** A failed install stops in one of these states: what holds of them holds of it. */
  lemma {:induction false} FailedInstallIsSeen(stage: Folder, binary: string, host: Host, folder: Folder,
                                               order: seq<string>)
    returns (j: nat)
    requires (forall n :: n in order ==> n in stage) && !InstallItems(stage, binary, host, folder, order).ok
    ensures SeenAfter(stage, binary, host, folder, order, j, InstallItems(stage, binary, host, folder, order).folder)
    decreases |order|
  {
    var a := InstallItem(stage, binary, host, folder, order[0]);
    if a.ok {
      j := FailedInstallIsSeen(stage, binary, host, a.folder, order[1..]);
      SeenLater(stage, binary, host, folder, order, j, InstallItems(stage, binary, host, folder, order).folder);
      j := j + 1;
    } else {
      j := 0;
      assert order[..0] == [];
      FailedItemIsSeen(stage, binary, host, folder, order[0]);
    }
  }

  lemma NeverAfterBinary(stage: Folder, binary: string, b: string, n: string)
    requires KindOf(stage, binary, b).BinaryKind? && !KindOf(stage, binary, n).BinaryKind?
    ensures b != n && !Before(stage, binary, b, n)
  {
  }

  /** At every moment of a run the binary is wholly old or wholly new, and it is
      new only when every staged directory and file is already in place. */
  lemma BinaryOldOrNew(stage: Folder, binary: string, host: Host, folder: Folder, order: seq<string>, j: nat,
                       seen: Folder, b: string)
    requires InOrder(stage, binary, order) && Distinct(order) && NoTempClash(stage, binary, host)
    requires forall n :: n in order <==> n in stage
    requires SeenAfter(stage, binary, host, folder, order, j, seen)
    requires b in stage && KindOf(stage, binary, b).BinaryKind?
    ensures || (b !in order[..j] && SameAt(folder, seen, b))
            || (b in order[..j] && InPlace(stage, binary, host, seen, b)
                && forall n :: n in stage && !KindOf(stage, binary, n).BinaryKind? ==>
                    InPlace(stage, binary, host, seen, n))
  {
    SeenState(stage, binary, host, folder, order, j, seen);
    if b in order[..j] {
      forall n | n in stage && !KindOf(stage, binary, n).BinaryKind? ensures n in order[..j] {
        var i :| 0 <= i < j && order[i] == b;
        var k :| 0 <= k < |order| && order[k] == n;
        NeverAfterBinary(stage, binary, b, n);
        assert order[i] == b && order[k] == n;
      }
    }
  }
}
