/** The tar and the zip extractor stage the same bundle from the same files,
    although one compares path components and the other raw strings. */
module BundleAgreement {
  import opened Text
  import opened FileTree
  import opened BundleExtract

  /** A name that means the same to both extractors: plain components, no
      backslash, and no leading drive letter (which only zip refuses). */
  predicate Portable(names: seq<string>)
  {
    names != [] && PlainPath(names) && (forall c :: c in names ==> '\\' !in c) && !HasDriveLetter(names[0])
  }

  lemma {:induction false} JoinAppend(a: seq<string>, b: seq<string>)
    requires a != [] && b != []
    ensures Join(a + b, '/') == Join(a, '/') + ['/'] + Join(b, '/')
  {
    if |a| == 1 {
      assert (a + b)[1..] == b;
    } else {
      assert (a + b)[1..] == a[1..] + b;
      JoinAppend(a[1..], b);
    }
  }

  lemma {:induction false} SplitAfterJoin(a: seq<string>, tail: string)
    requires a != [] && PlainPath(a)
    ensures Split(Join(a, '/') + ['/'] + tail, '/') == a + Split(tail, '/')
  {
    assert a[0] in a;
    if |a| == 1 {
      SplitPiece(a[0], tail, '/');
      assert a == [a[0]];
    } else {
      assert PlainPath(a[1..]) by { assert forall x :: x in a[1..] ==> x in a; }
      SplitAfterJoin(a[1..], tail);
      var rest := Join(a[1..], '/') + ['/'] + tail;
      assert Join(a, '/') + ['/'] + tail == a[0] + ['/'] + rest;
      SplitPiece(a[0], rest, '/');
      assert [a[0]] + (a[1..] + Split(tail, '/')) == a + Split(tail, '/');
    }
  }

  lemma JoinedParts(names: seq<string>)
    requires names != [] && PlainPath(names)
    ensures Split(Join(names, '/'), '/') == names && Join(names, '/') != ""
  {
    assert forall i :: 0 <= i < |names| ==> names[i] in names;
    SplitJoin(names, '/');
    assert Split("", '/') == [""];
  }

  lemma {:induction false} JoinChars(names: seq<string>, c: char)
    requires c != '/' && forall n :: n in names ==> c !in n
    ensures c !in Join(names, '/')
  {
    if |names| > 1 {
      JoinChars(names[1..], c);
    }
  }

  lemma {:induction false} SlashedKeeps(name: string)
    requires '\\' !in name
    ensures Slashed(name) == name
  {
    if name != "" {
      SlashedKeeps(name[1..]);
    }
  }

  lemma WithinSplits(names: seq<string>, prefix: seq<string>)
    requires names != [] && PlainPath(names) && PlainPath(prefix) && prefix != [] && PathWithin(names, prefix)
    ensures names[|prefix|..] != [] && Join(names, '/') == Join(prefix, '/') + ['/'] + Join(names[|prefix|..], '/')
  {
    assert names == prefix + names[|prefix|..];
    JoinAppend(prefix, names[|prefix|..]);
  }

  lemma StringWithin(names: seq<string>, prefix: seq<string>)
    requires names != [] && PlainPath(names) && PlainPath(prefix) && prefix != []
    requires ZipStrWithin(Join(names, '/'), Join(prefix, '/'))
    ensures PathWithin(names, prefix)
  {
    var n, p := Join(names, '/'), Join(prefix, '/');
    JoinedParts(names);
    JoinedParts(prefix);
    var tail := n[|p| + 1..];
    assert n == p + ['/'] + tail;
    SplitAfterJoin(prefix, tail);
    assert names == prefix + Split(tail, '/');
  }

  /** The string test on joined names is the component test on the names. */
  lemma WithinAgrees(names: seq<string>, prefix: seq<string>)
    requires names != [] && PlainPath(names) && PlainPath(prefix)
    ensures ZipStrWithin(Join(names, '/'), Join(prefix, '/')) <==> PathWithin(names, prefix)
    ensures PathWithin(names, prefix) && prefix != [] ==>
              names[|prefix|..] != [] && Join(names, '/') == Join(prefix, '/') + ['/'] + Join(names[|prefix|..], '/')
  {
    if prefix != [] {
      JoinedParts(prefix);
      if PathWithin(names, prefix) {
        WithinSplits(names, prefix);
      }
      if ZipStrWithin(Join(names, '/'), Join(prefix, '/')) {
        StringWithin(names, prefix);
      }
    }
  }

  lemma PortableAccepted(names: seq<string>)
    requires Portable(names)
    ensures var n := Join(names, '/');
            && Slashed(n) == n && Components(n) == names
            && RefuseUnsafeRelPath(n) == Proceed && RefuseUnsafePosixRel(n) == Proceed
  {
    var n := Join(names, '/');
    JoinChars(names, '\\');
    SlashedKeeps(n);
    JoinedParts(names);
    FilterNothing(names, "");
    FilterNothing(names, ".");
    assert names[0] in names;
    assert names[0] <= n;
  }

  lemma PlacesAgree(names: seq<string>, prefix: seq<string>)
    requires Portable(names) && PlainPath(prefix)
    ensures TarPlace(Join(names, '/'), prefix) == ZipPlace(Join(names, '/'), Join(prefix, '/'))
  {
    PortableAccepted(names);
    WithinAgrees(names, prefix);
    var n, p := Join(names, '/'), Join(prefix, '/');
    if prefix == [] {
      JoinedParts(names);
      FilterNothing(names, "");
      assert names[|prefix|..] == names;
    } else {
      JoinedParts(prefix);
      if PathWithin(names, prefix) {
        var rest := names[|prefix|..];
        assert forall x :: x in rest ==> x in names;
        assert n[|p| + 1..] == Join(rest, '/');
        JoinedParts(rest);
        FilterNothing(rest, "");
      }
    }
  }

  // ----- the same bundle in the two formats -----

  datatype Item = FileItem(names: seq<string>, content: Bytes, mode: nat, fault: Fault)
                | LinkItem(names: seq<string>, target: string, fault: Fault)

  function AsTar(item: Item): TarEntry
  {
    match item
    case FileItem(names, content, mode, fault) => TarEntry(Join(names, '/'), Some(mode), Regular(content), fault)
    case LinkItem(names, target, fault) => TarEntry(Join(names, '/'), Some(0x1FF), SymlinkTo(Some(target)), fault)
  }

  function AsZip(item: Item): ZipEntry
  {
    match item
    case FileItem(names, content, mode, fault) => ZipEntry(Join(names, '/'), ZipFile(content, Some(mode)), fault)
    case LinkItem(names, target, fault) => ZipEntry(Join(names, '/'), ZipSymlink(target), fault)
  }

  function TarOf(items: seq<Item>): (entries: seq<TarEntry>)
    ensures |entries| == |items|
  {
    if items == [] then [] else [AsTar(items[0])] + TarOf(items[1..])
  }

  function ZipOf(items: seq<Item>): (entries: seq<ZipEntry>)
    ensures |entries| == |items|
  {
    if items == [] then [] else [AsZip(items[0])] + ZipOf(items[1..])
  }

  /** What either extractor does with an item, once its place is known. */
  function StageItem(fs: Fs, root: Path, item: Item, place: Place): Staging
  {
    if item.fault.ReadFault? then Staging(fs, Refuse(IoFailed))
    else match place
      case Skip => Staging(fs, Proceed)
      case Refused(why) => Staging(fs, Refuse(why))
      case Target(rel) =>
        if LinkOnPath(fs, root, Parent(rel)) then Staging(fs, Refuse(ThroughLink))
        else match item
          case FileItem(_, content, mode, fault) => StageFile(fs, root, rel, content, Some(mode), fault)
          case LinkItem(_, target, fault) => StageLink(fs, root, rel, Some(target), fault)
  }

  lemma TarStepOfItem(fs: Fs, root: Path, item: Item, prefix: seq<string>)
    ensures TarStep(fs, root, AsTar(item), prefix) == StageItem(fs, root, item, TarPlace(Join(item.names, '/'), prefix))
  {
  }

  lemma ZipStepOfItem(fs: Fs, root: Path, item: Item, prefix: string)
    ensures ZipStep(fs, root, AsZip(item), prefix) == StageItem(fs, root, item, ZipPlace(Join(item.names, '/'), prefix))
  {
  }

  lemma StepsAgree(fs: Fs, root: Path, item: Item, prefix: seq<string>)
    requires PlainPath(prefix) && Portable(item.names)
    ensures TarStep(fs, root, AsTar(item), prefix) == ZipStep(fs, root, AsZip(item), Join(prefix, '/'))
  {
    PlacesAgree(item.names, prefix);
    TarStepOfItem(fs, root, item, prefix);
    ZipStepOfItem(fs, root, item, Join(prefix, '/'));
  }

  /** Pass 2 ends in the same tree with the same verdict, whatever is staged
      already, whatever the links point to and wherever the host fails. */
  lemma {:induction false} RunsAgree(fs: Fs, root: Path, items: seq<Item>, prefix: seq<string>)
    requires PlainPath(prefix) && forall i :: i in items ==> Portable(i.names)
    ensures TarRun(fs, root, TarOf(items), prefix) == ZipRun(fs, root, ZipOf(items), Join(prefix, '/'))
    decreases |items|
  {
    if items != [] {
      assert items[0] in items;
      StepsAgree(fs, root, items[0], prefix);
      RunsAgree(TarStep(fs, root, AsTar(items[0]), prefix).fs, root, items[1..], prefix);
      assert TarOf(items)[1..] == TarOf(items[1..]) && ZipOf(items)[1..] == ZipOf(items[1..]);
    }
  }

  lemma PlainFront(names: seq<string>)
    requires names != [] && PlainPath(names)
    ensures PlainPath(names[..|names| - 1]) && PlainName(names[|names| - 1])
  {
    assert names[|names| - 1] in names;
    forall c | c in names[..|names| - 1] ensures PlainName(c) {
      assert c in names;
    }
  }

  lemma ItemNames(names: seq<string>)
    requires names != [] && PlainPath(names)
    ensures var n := Join(names, '/');
            BaseName(n) == names[|names| - 1] && DirName(n) == Join(names[..|names| - 1], '/')
  {
    JoinedParts(names);
  }

  /** What both formats read of one item's name. */
  lemma HeadAgrees(item: Item)
    requires Portable(item.names)
    ensures var e, z := AsTar(item), AsZip(item);
            && RefuseUnsafeRelPath(e.path) == Proceed
            && Components(e.path) == item.names
            && z.name == e.path && Slashed(z.name) == z.name && RefuseUnsafePosixRel(z.name) == Proceed
            && BaseName(z.name) == item.names[|item.names| - 1]
            && DirName(z.name) == Join(item.names[..|item.names| - 1], '/')
  {
    PortableAccepted(item.names);
    ItemNames(item.names);
  }

  /** A file under the binary's name, or, where `exeToo`, under its Windows name. */
  predicate IsNamed(item: Item, binary: string, exeToo: bool)
    requires item.names != []
  {
    var name := item.names[|item.names| - 1];
    item.FileItem? && (name == binary || (exeToo && name == binary + ".exe"))
  }

  predicate AllPortable(items: seq<Item>)
  {
    forall i :: 0 <= i < |items| ==> Portable(items[i].names)
  }

  /** The first such file, if the archive can be read that far. */
  function FirstNamed(items: seq<Item>, binary: string, exeToo: bool): (first: Option<nat>)
    requires AllPortable(items)
    ensures first.Some? ==> first.value < |items| && IsNamed(items[first.value], binary, exeToo)
    ensures first.Some? ==> forall j :: 0 <= j <= first.value ==> items[j].fault != ReadFault
    ensures first.Some? ==> forall j :: 0 <= j < first.value ==> !IsNamed(items[j], binary, exeToo)
    ensures first.None? ==> forall k :: 0 <= k < |items| && IsNamed(items[k], binary, exeToo) ==>
                              exists j :: 0 <= j <= k && items[j].fault == ReadFault
  {
    if items == [] || items[0].fault.ReadFault? then None
    else if IsNamed(items[0], binary, exeToo) then Some(0)
    else
      var rest := FirstNamed(items[1..], binary, exeToo);
      if rest.Some? then Some(rest.value + 1) else None
  }

  /** Why a pass 1 without a hit stops. */
  function NoHit(items: seq<Item>): Why
  {
    if items == [] then BinaryNotFound else if items[0].fault.ReadFault? then IoFailed else NoHit(items[1..])
  }

  function DirOf(item: Item): seq<string>
    requires item.names != []
  {
    item.names[..|item.names| - 1]
  }

  lemma TarHead(items: seq<Item>, binary: string)
    requires AllPortable(items) && items != []
    ensures TarPrefix(TarOf(items), binary) ==
              if items[0].fault.ReadFault? then Stop(IoFailed)
              else if IsNamed(items[0], binary, false) then Found(DirOf(items[0]))
              else TarPrefix(TarOf(items[1..]), binary)
  {
    HeadAgrees(items[0]);
    assert items[0].names[|items[0].names| - 1] in items[0].names;
    assert TarOf(items)[0] == AsTar(items[0]) && TarOf(items)[1..] == TarOf(items[1..]);
  }

  lemma ZipHead(items: seq<Item>, binary: string)
    requires AllPortable(items) && items != []
    ensures ZipPrefix(ZipOf(items), binary) ==
              if items[0].fault.ReadFault? then Stop(IoFailed)
              else if IsNamed(items[0], binary, true) then Found(Join(DirOf(items[0]), '/'))
              else ZipPrefix(ZipOf(items[1..]), binary)
  {
    HeadAgrees(items[0]);
    assert ZipOf(items)[0] == AsZip(items[0]) && ZipOf(items)[1..] == ZipOf(items[1..]);
  }

  lemma {:induction false} TarFinds(items: seq<Item>, binary: string)
    requires AllPortable(items)
    ensures var first := FirstNamed(items, binary, false);
            TarPrefix(TarOf(items), binary) ==
              if first.Some? then Found(DirOf(items[first.value])) else Stop(NoHit(items))
  {
    if items != [] {
      TarHead(items, binary);
      TarFinds(items[1..], binary);
    }
  }

  lemma {:induction false} ZipFinds(items: seq<Item>, binary: string)
    requires AllPortable(items)
    ensures var first := FirstNamed(items, binary, true);
            ZipPrefix(ZipOf(items), binary) ==
              if first.Some? then Found(Join(DirOf(items[first.value]), '/')) else Stop(NoHit(items))
  {
    if items != [] {
      ZipHead(items, binary);
      ZipFinds(items[1..], binary);
    }
  }

  lemma {:induction false} ExeIsNoEarlierMiss(items: seq<Item>, binary: string)
    requires AllPortable(items)
    ensures FirstNamed(items, binary, false).Some? ==> FirstNamed(items, binary, true).Some?
  {
    if items != [] && !items[0].fault.ReadFault? {
      ExeIsNoEarlierMiss(items[1..], binary);
    }
  }

  predicate SameSearch(t: Search<seq<string>>, z: Search<string>)
  {
    match t
    case Found(dir) => z == Found(Join(dir, '/'))
    case Stop(why) => z == Stop(why)
  }

  lemma JoinInjective(a: seq<string>, b: seq<string>)
    requires PlainPath(a) && PlainPath(b) && Join(a, '/') == Join(b, '/')
    ensures a == b
  {
    if a != [] {
      JoinedParts(a);
    }
    if b != [] {
      JoinedParts(b);
    }
  }

  /** Pass 1 of the two formats agrees exactly when no file is found, or the first
      file under the binary's name has the directory of the first one under either
      name: zip alone takes `name.exe` for the binary. */
  lemma PassOneAgreesIff(items: seq<Item>, binary: string)
    requires AllPortable(items)
    ensures var tarHit, zipHit := FirstNamed(items, binary, false), FirstNamed(items, binary, true);
            SameSearch(TarPrefix(TarOf(items), binary), ZipPrefix(ZipOf(items), binary)) <==>
              (zipHit.None? || (tarHit.Some? && DirOf(items[tarHit.value]) == DirOf(items[zipHit.value])))
  {
    var tarHit, zipHit := FirstNamed(items, binary, false), FirstNamed(items, binary, true);
    TarFinds(items, binary);
    ZipFinds(items, binary);
    ExeIsNoEarlierMiss(items, binary);
    if tarHit.Some? && zipHit.Some? {
      PlainFront(items[tarHit.value].names);
      PlainFront(items[zipHit.value].names);
      if Join(DirOf(items[tarHit.value]), '/') == Join(DirOf(items[zipHit.value]), '/') {
        JoinInjective(DirOf(items[tarHit.value]), DirOf(items[zipHit.value]));
      }
    }
  }
}
