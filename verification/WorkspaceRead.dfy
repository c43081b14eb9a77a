/** Every stored selection reads back: opening any path below the stored root
    finds exactly the selected files, with exactly their bytes. */
module WorkspaceRead {
  import opened Prelude
  import opened Text
  import opened MsgPack
  import opened Canonical
  import opened Manifest
  import opened Blobs
  import opened Grouping
  import opened Forest
  import opened Selection
  import opened DirTree
  import opened DirBuild
  import opened ManifestSize
  import opened Workspace
  import FileRead
  import Digits
  import FileBuild
  import DirRead
  import NameSort
  import Sorting
  import opened Legible

  // ------------------------------------------------------------------
  // Entries are valid

  lemma TypeMeta(file: File)
    requires TypeOK(file)
    ensures MetaOK(FileMeta(file), 0) && Encodable(FileMeta(file)) && |Write(FileMeta(file))| <= |Utf8(MimeOf(file))| + 100
    ensures Fits(FileMeta(file), 3) && Unmerged(FileMeta(file))
  {
    hide Utf8, StrBytes, EncFields, MimeOf, StripText, Sort;
    var f := Field("type", Str(MimeOf(file)));
    Utf8Length("type");
    CanonOne(f);
    TextLength("type");
    TextLength(MimeOf(file));
    FieldsLength([f], |Utf8(MimeOf(file))| + 50);
  }

  /** An entry the builder takes, with metadata the reader can read. */
  ghost predicate EntryOK(x: Link) {
    LinkOK(x, 2) && MetaSmall(x) && (x.m.Some? ==> Fits(x.m.value, 3) && Unmerged(x.m.value))
  }

  lemma FileEntryOK(c: Crypto, f: NamedFile)
    requires NameOK(f.name) && TypeOK(f.file) && |f.file.data| <= MAX_FILE_BYTES
    ensures EntryOK(FileEntry(c, f)) && FileEntry(c, f).s == |f.file.data| && FileEntry(c, f).t <= 1
  {
    hide NameOK, MetaOK, Encodable, MsgPack.Unmerged, Fits, FileMeta, FileBuild.TreeLink;
    TypeMeta(f.file);
    var data := f.file.data;
    FileBuild.LinkSizeExact(c, FileTree(data));
    FileFringe(data);
    ChunksJoin(data);
  }

  lemma FileFringe(data: Bytes)
    ensures Fringe(FileTree(data)) == ChunksOf(data)
  {
    var chunks := ChunksOf(data);
    if |chunks| == 1 {
      assert chunks == [chunks[0]];
    } else {
      GrowFringe(Leaves(chunks), FANOUT);
      FringeOfLeaves(chunks);
    }
  }

  lemma FolderEntryOK(c: Crypto, d: NamedDir)
    requires NameOK(d.name) && 0 <= FolderRef(c, d.folder).s <= MAX_SAFE
    ensures EntryOK(FolderRef(c, d.folder).(n := Some(d.name))) && FolderRef(c, d.folder).t >= 2
  {
    hide NameOK, MetaOK, FolderTree, DirLink;
  }

  // ------------------------------------------------------------------
  // Sizes add up

  lemma {:induction false} InsertTotal(x: Link, s: seq<Link>)
    ensures Total(Sorting.InsertBy(x, s, NameSort.NameOf)) == x.s + Total(s)
  {
    hide Total, Compare;
    var r := Sorting.InsertBy(x, s, NameSort.NameOf);
    if s == [] || Compare(NameSort.NameOf(x), NameSort.NameOf(s[0])) <= 0 {
      TotalCons(x, s);
    } else {
      InsertTotal(x, s[1..]);
      TotalCons(s[0], Sorting.InsertBy(x, s[1..], NameSort.NameOf));
      TotalCons(s[0], s[1..]);
      assert s == [s[0]] + s[1..];
    }
  }

  lemma TotalCons(x: Link, s: seq<Link>)
    ensures Total([x] + s) == x.s + Total(s)
  {
    assert FileRead.Sizes([x] + s)[1..] == FileRead.Sizes(s);
  }

  lemma {:induction false} SortTotal(s: seq<Link>)
    ensures Total(NameSort.Sort(s)) == Total(s)
  {
    hide Total, Sorting.InsertBy;
    if s != [] {
      SortTotal(s[1..]);
      InsertTotal(s[0], NameSort.Sort(s[1..]));
      TotalCons(s[0], s[1..]);
      assert s == [s[0]] + s[1..];
    }
  }

  lemma {:induction false} FilesTotal(c: Crypto, files: seq<NamedFile>)
    ensures Total(FileEntries(c, files)) == FileBytes(files)
  {
    hide Total, FileEntry;
    if files == [] {
      assert FileEntries(c, files) == [];
      NoTotal();
    } else {
      FilesTotal(c, files[1..]);
      assert FileEntries(c, files) == [FileEntry(c, files[0])] + FileEntries(c, files[1..]);
      TotalCons(FileEntry(c, files[0]), FileEntries(c, files[1..]));
      FileEntrySize(c, files[0]);
    }
  }

  lemma FileEntrySize(c: Crypto, f: NamedFile)
    ensures FileEntry(c, f).s == |f.file.data|
  {
    hide FileBuild.TreeLink;
    FileBuild.LinkSizeExact(c, FileTree(f.file.data));
    FileFringe(f.file.data);
    ChunksJoin(f.file.data);
  }

  lemma NoTotal()
    ensures Total([]) == 0
  {}

  /** A folder's reference claims exactly the bytes of the files below it. */
  lemma {:induction false} FolderTotal(c: Crypto, folder: Folder)
    ensures Total(Entries(c, folder)) == TreeBytes(folder) == Total(Listed(c, folder)) == FolderRef(c, folder).s
    decreases folder, 1
  {
    hide Total, FileEntry, DirLink, NameSort.Sort;
    FilesTotal(c, folder.files);
    DirsTotal(c, folder.dirs);
    TotalConcat(FileEntries(c, folder.files), DirEntries(c, folder.dirs));
    SortTotal(Entries(c, folder));
    RootBelow(Listed(c, folder), FANOUT);
  }

  lemma {:induction false} DirsTotal(c: Crypto, dirs: seq<NamedDir>)
    ensures Total(DirEntries(c, dirs)) == TreeBytesAll(dirs)
    decreases dirs, 0
  {
    hide Total, FolderRef;
    if dirs == [] {
      NoTotal();
    } else {
      FolderTotal(c, dirs[0].folder);
      DirsTotal(c, dirs[1..]);
      TotalCons(FolderRef(c, dirs[0].folder).(n := Some(dirs[0].name)), DirEntries(c, dirs[1..]));
    }
  }

  // ------------------------------------------------------------------
  // The whole list of entries

  lemma EntryAt(c: Crypto, folder: Folder, i: nat)
    requires Small(folder) && i < |Entries(c, folder)|
    ensures EntryOK(Entries(c, folder)[i]) && i < |Names(folder)| && Entries(c, folder)[i].n == Some(Names(folder)[i])
  {
    hide EntryOK, Small, Entries, Names;
    EntriesLength(c, folder);
    EntriesAt(c, folder, i);
    if i < |folder.files| {
      FileEntryAt(c, folder, folder.files[i]);
    } else {
      FolderEntryAt(c, folder, folder.dirs[i - |folder.files|]);
    }
  }

  lemma EntriesAt(c: Crypto, folder: Folder, i: nat)
    requires i < |Entries(c, folder)|
    ensures i < |Names(folder)| && |Entries(c, folder)| == |folder.files| + |folder.dirs|
    ensures i < |folder.files| ==> Entries(c, folder)[i] == FileEntry(c, folder.files[i]) && Names(folder)[i] == folder.files[i].name
    ensures i >= |folder.files| ==> var d := folder.dirs[i - |folder.files|];
      Entries(c, folder)[i] == FolderRef(c, d.folder).(n := Some(d.name)) && Names(folder)[i] == d.name
  {
    hide FileEntry, FolderRef, FileEntries, DirEntries, FileNames, DirNames;
    EntriesSplit(c, folder);
    if i >= |folder.files| {
      assert Names(folder)[i] == DirNames(folder.dirs)[i - |folder.files|];
    }
  }

  lemma EntriesSplit(c: Crypto, folder: Folder)
    ensures Entries(c, folder) == FileEntries(c, folder.files) + DirEntries(c, folder.dirs)
  {}

  lemma FileEntryAt(c: Crypto, folder: Folder, f: NamedFile)
    requires Small(folder) && f in folder.files
    ensures EntryOK(FileEntry(c, f)) && FileEntry(c, f).n == Some(f.name)
  {
    hide EntryOK, FileEntry, NameOK, TypeOK, Distinct, Count, TreeBytes;
    FileEntryOK(c, f);
    FileEntryName(c, f);
  }

  lemma FolderEntryAt(c: Crypto, folder: Folder, d: NamedDir)
    requires Small(folder) && d in folder.dirs
    ensures EntryOK(FolderRef(c, d.folder).(n := Some(d.name)))
  {
    hide EntryOK, Small, FolderRef, TreeBytes;
    SmallChild(folder, d);
    FolderTotal(c, d.folder);
    ChildSize(d.folder);
    FolderEntryOK(c, d);
  }

  lemma ChildSize(folder: Folder)
    requires Small(folder)
    ensures 0 <= TreeBytes(folder) <= MAX_SAFE
  {}

  lemma FileEntryName(c: Crypto, f: NamedFile)
    ensures FileEntry(c, f).n == Some(f.name)
  {}

  lemma EntriesOK(c: Crypto, folder: Folder)
    requires Small(folder)
    ensures forall x :: x in Entries(c, folder) ==> EntryOK(x) && x.n.Some?
    ensures NameSort.Distinct(Entries(c, folder)) && NameSort.HasNames(Entries(c, folder))
    ensures |Entries(c, folder)| == |folder.files| + |folder.dirs| <= Count(folder)
  {
    hide EntryOK, FileEntry, FolderRef, NameOK, TypesOK, Count, TreeBytes, Entries;
    var l := Entries(c, folder);
    EntriesLength(c, folder);
    forall x | x in l ensures EntryOK(x) && x.n.Some? {
      var i :| 0 <= i < |l| && l[i] == x;
      EntryAt(c, folder, i);
    }
    forall i, j | 0 <= i < j < |l| ensures NameSort.NameOf(l[i]) != NameSort.NameOf(l[j]) {
      EntryAt(c, folder, i);
      EntryAt(c, folder, j);
      SmallDistinct(folder);
    }
    FewEntries(folder);
  }

  lemma SmallDistinct(folder: Folder)
    requires Small(folder)
    ensures Distinct(Names(folder))
  {}

  lemma EntriesLength(c: Crypto, folder: Folder)
    ensures |Entries(c, folder)| == |folder.files| + |folder.dirs| == |Names(folder)|
  {}

  lemma SortedOK(c: Crypto, folder: Folder)
    requires Small(folder)
    ensures var s := Listed(c, folder);
      && (forall x :: x in s ==> EntryOK(x)) && (forall x :: x in s <==> x in Entries(c, folder))
      && Buildable(s) && (TopPlain(folder) ==> Readable(s)) && |s| == |Entries(c, folder)| <= MAX_FILES
  {
    hide EntryOK, Entries, Total, DirRead.Ascending, NameSort.Sort;
    EntriesOK(c, folder);
    NameSort.SortAscends(Entries(c, folder));
    FolderTotal(c, folder);
    ChildSize(folder);
    forall x | x in Listed(c, folder) ensures LinkOK(x, 2) && MetaSmall(x) { EntryParts(x); }
    if TopPlain(folder) {
      forall x | x in Listed(c, folder) ensures LinkLegible(x) { EntryReadable(c, folder, x); }
    }
  }

  lemma EntryReadable(c: Crypto, folder: Folder, x: Link)
    requires Small(folder) && TopPlain(folder) && x in Entries(c, folder)
    ensures LinkLegible(x)
  {
    hide Small, Entries, StartsWithBom;
    var l := Entries(c, folder);
    var i :| 0 <= i < |l| && l[i] == x;
    EntryAt(c, folder, i);
    PlainAt(folder, i);
  }

  lemma PlainAt(folder: Folder, i: nat)
    requires TopPlain(folder) && i < |Names(folder)|
    ensures !StartsWithBom(Names(folder)[i])
  {
    hide StartsWithBom;
    if i < |folder.files| {
      assert folder.files[i] in folder.files;
    } else {
      assert folder.dirs[i - |folder.files|] in folder.dirs;
    }
  }

  lemma EntryParts(x: Link)
    requires EntryOK(x)
    ensures LinkOK(x, 2) && MetaSmall(x)
  {}

  // ------------------------------------------------------------------
  // Limits

  /** Pages of a stored folder, all together. */
  lemma {:induction false} PagesCost(c: Crypto, runs: seq<seq<Link>>)
    ensures var cost := CostAll(c, Leaves(runs)); cost.count == |Concat(runs)| && cost.manifests == |runs|
  {
    hide CostOf;
    if runs != [] {
      PagesCost(c, runs[1..]);
      PageCounts(c, runs[0]);
      assert Leaves(runs)[1..] == Leaves(runs[1..]);
    }
  }

  lemma PageCounts(c: Crypto, l: seq<Link>)
    ensures CostOf(c, Leaf(l)).count == |l| && CostOf(c, Leaf(l)).manifests == 1
  {
    hide DirBytes, Blob;
  }

  /** With metadata of at most m bytes an entry. */
  lemma {:induction false} PagesFetched(c: Crypto, runs: seq<seq<Link>>, m: nat)
    requires Sound(c) && m <= META_BYTES && forall r :: r in runs ==> Stored(c, Leaf(r))
    requires forall r, x :: r in runs && x in r ==> EntryShort(x, m)
    ensures CostAll(c, Leaves(runs)).fetched <= 56 * |runs| + (1160 + m) * |Concat(runs)|
  {
    hide Sound, EntryShort, Stored, CostOf, Concat;
    if runs == [] {
      ConcatNone();
    } else {
      var r, more := runs[0], runs[1..];
      assert runs == [r] + more;
      PagesFetched(c, more, m);
      PageFetched(c, r, m);
      assert Leaves(runs)[1..] == Leaves(more);
      ConcatSplit([r], more);
      ConcatOne(r);
      AddCosts(1160 + m, |r|, |Concat(more)|, |more|, CostOf(c, Leaf(r)).fetched, CostAll(c, Leaves(more)).fetched);
    }
  }

  lemma ConcatNone()
    ensures Concat<Link>([]) == []
  {}

  lemma AddCosts(b: nat, x: nat, y: nat, n: nat, first: nat, rest: nat)
    requires first <= 56 + b * x && rest <= 56 * n + b * y
    ensures first + rest <= 56 * (n + 1) + b * (x + y)
  {}

  ghost predicate EntryShort(x: Link, m: nat) { x.m.Some? ==> Encodable(x.m.value) && |Write(x.m.value)| <= m }

  lemma PageFetched(c: Crypto, l: seq<Link>, m: nat)
    requires Sound(c) && Stored(c, Leaf(l)) && m <= META_BYTES && forall x :: x in l ==> EntryShort(x, m)
    ensures CostOf(c, Leaf(l)).fetched <= 56 + (1160 + m) * |l|
  {
    hide Sound, NodeOK, NodeBytes, Blob, LinkOK, Encodable;
    SmallNodeEncodes(Node(l, 2), m);
    BlobLength(c, DirBytes(c, Leaf(l)));
  }

  lemma RunOf<T>(s: seq<T>, n: nat, r: seq<T>)
    requires n > 0 && r in Runs(s, n)
    ensures |r| <= n && forall x :: x in r ==> x in s
  {
    var i :| 0 <= i < |Runs(s, n)| && Runs(s, n)[i] == r;
    forall x | x in r ensures x in s { RunMember(s, n, i, x); }
  }

  lemma StoredPages(c: Crypto, kids: seq<Dir>)
    requires Stored(c, Inner(kids))
    ensures StoredAll(c, kids)
  {
    hide EncodeManifest;
  }

  /** Reading a folder of up to 10000 entries meets no limit but the one on
      bytes, and no cycle. */
  lemma FolderRoomy(c: Crypto, s: seq<Link>)
    requires |s| <= MAX_FILES
    ensures var t := RootTree(s, FANOUT);
      && KidsAcyclic(c, t, {})
      && (DirTree.Roomy(DIR_LIMITS, DirRead.START, NodeCost(c, t)) <==> NodeCost(c, t).fetched <= DIR_LIMITS.maxBytes)
  {
    hide CostAll, Grow, Runs, DirBytes, BlobHash;
    if |s| > FANOUT {
      var runs := Runs(s, FANOUT);
      RunsCounted(s, FANOUT);
      RunCountBound(|s|, FANOUT, 58);
      RunsConcat(s, FANOUT);
      SmallGrow(Leaves(runs));
      PagesCost(c, runs);
    }
  }

  /** Media types of at most 5000 bytes never reach the limit on bytes. */
  lemma ShortTypesFit(c: Crypto, folder: Folder)
    requires Sound(c) && Small(folder) && ShortTypes(folder)
    ensures FolderFits(c, folder)
    decreases folder
  {
    hide Sound, Small, TopFits;
    TopShortFits(c, folder);
    forall d | d in folder.dirs ensures FolderFits(c, d.folder) {
      SmallChild(folder, d);
      ShortTypesFit(c, d.folder);
    }
  }

  ghost predicate ShortTypes(folder: Folder) {
    && (forall f :: f in folder.files ==> |Utf8(MimeOf(f.file))| <= 5000)
    && forall d :: d in folder.dirs ==> ShortTypes(d.folder)
  }

  lemma TopShortFits(c: Crypto, folder: Folder)
    requires Sound(c) && Small(folder) && ShortTypes(folder)
    ensures TopFits(c, folder)
  {
    hide Sound, EntryShort, Stored, CostAll, Grow, Runs, DirBytes, Small, Entries, NameSort.Sort, EntryOK, Buildable, Readable;
    var s := Listed(c, folder);
    SortedOK(c, folder);
    BuildSucceeds(c, s, FANOUT);
    if |s| > FANOUT {
      var runs := Runs(s, FANOUT);
      RunsCounted(s, FANOUT);
      RunCountBound(|s|, FANOUT, 58);
      RunsConcat(s, FANOUT);
      SmallGrow(Leaves(runs));
      StoredPages(c, Leaves(runs));
      forall r | r in runs ensures Stored(c, Leaf(r)) && forall x :: x in r ==> EntryShort(x, 5100) {
        RunOf(s, FANOUT, r);
        var i :| 0 <= i < |runs| && runs[i] == r;
        assert Leaves(runs)[i] in Leaves(runs);
        forall x | x in r ensures EntryShort(x, 5100) { ShortEntry(c, folder, x); }
      }
      PagesFetched(c, runs, 5100);
      Digits.MulMono(|s|, MAX_FILES, 6260);
    }
  }

  lemma ShortEntry(c: Crypto, folder: Folder, x: Link)
    requires Small(folder) && ShortTypes(folder) && x in Entries(c, folder)
    ensures EntryShort(x, 5100)
  {
    hide Small, Entries, Names, Utf8, FileMeta, Encodable;
    var l := Entries(c, folder);
    var i :| 0 <= i < |l| && l[i] == x;
    EntriesAt(c, folder, i);
    if i < |folder.files| {
      var f := folder.files[i];
      assert f in folder.files;
      SmallTypes(folder);
      TypeMeta(f.file);
      FileEntryMeta(c, f);
    } else {
      FolderRefMeta(c, folder.dirs[i - |folder.files|].folder);
    }
  }

  lemma SmallTypes(folder: Folder)
    requires Small(folder)
    ensures forall f :: f in folder.files ==> TypeOK(f.file)
  {}

  lemma FileEntryMeta(c: Crypto, f: NamedFile)
    ensures FileEntry(c, f).m == Some(FileMeta(f.file))
  {}

  lemma FolderRefMeta(c: Crypto, folder: Folder)
    ensures FolderRef(c, folder).m == None
  {
    hide FolderTree, DirLink;
  }

  lemma {:induction false} PageBytesSmall(c: Crypto, store: Store, f: seq<Dir>)
    requires Sound(c) && StoredAll(c, f) && forall p :: p in BytesOf(c, f) ==> Holds(c, store, p)
    ensures forall p :: p in BytesOf(c, f) ==> Holds(c, Visible(store), p)
  {
    hide Sound, Holds, EncodeManifest, DirNode;
    forall p | p in BytesOf(c, f) ensures Holds(c, Visible(store), p) {
      var i :| 0 <= i < |f| && BytesOf(c, f)[i] == p;
      assert f[i] in f;
      EncodedSmall(DirNode(c, f[i]));
      VisibleHolds(c, store, p);
    }
  }

  lemma EncodedSmall(node: Node)
    requires EncodeManifest(node).Some?
    ensures |EncodeManifest(node).value| <= MAX_MANIFEST_BYTES
  {
    hide NodeOK, NodeBytes, MetasEncodable;
  }

  lemma DirVisible(c: Crypto, store: Store, s: seq<Link>)
    requires Sound(c) && |s| <= MAX_FILES && Stored(c, RootTree(s, FANOUT)) && DirStored(c, store, s, FANOUT)
    ensures DirStored(c, Visible(store), s, FANOUT)
    ensures |DirBytes(c, RootTree(s, FANOUT))| <= MAX_FETCH_BYTES - 16 && Holds(c, store, DirBytes(c, RootTree(s, FANOUT)))
  {
    hide Sound, Holds, EncodeManifest, DirNode, Stored, Grow, Runs, Fans, DirBytes, StoredAll;
    var t := RootTree(s, FANOUT);
    RootBytes(c, t);
    assert Pages(c, s, FANOUT)[|Pages(c, s, FANOUT)| - 1] in Pages(c, s, FANOUT);
    VisibleHolds(c, store, DirBytes(c, t));
    if |s| > FANOUT {
      var f := Leaves(Runs(s, FANOUT));
      RunsCounted(s, FANOUT);
      RunCountBound(|s|, FANOUT, 58);
      SmallGrow(f);
      SmallFans(c, f);
      StoredPages(c, f);
      PageBytesSmall(c, store, f);
    }
  }

  lemma RootBytes(c: Crypto, t: Dir)
    requires Stored(c, t)
    ensures |DirBytes(c, t)| <= MAX_FETCH_BYTES - 16
  {
    hide DirNode, EncodeManifest;
    EncodedSmall(DirNode(c, t));
  }

  lemma SmallFans(c: Crypto, f: seq<Dir>)
    requires |f| <= FANOUT
    ensures Fans(c, f, FANOUT) == [DirBytes(c, Inner(f))]
  {}

  // ------------------------------------------------------------------
  // Opening a folder

  lemma FolderLoads(c: Crypto, store: Store, folder: Folder, ref: Link)
    requires Sound(c) && Small(folder) && TopPlain(folder) && TopFits(c, folder) && FolderStored(c, store, folder)
    requires var r := FolderRef(c, folder); ref.h == r.h && ref.k == r.k && ref.t == r.t
    ensures Load(c, store, ref) == Some(Seen(Listed(c, folder)))
  {
    hide Sound, Holds, EncodeManifest, DecodeManifest, DirNode, Stored, DirBytes, DirRead.ResolveDirectory, Entries, EntryOK, NameSort.Sort, NodeCost, DirTree.Roomy, KidsAcyclic, Buildable, Readable, Plaintext, Seen, DirStored, RootTree, Levels, Small;
    var s := Listed(c, folder);
    var t := FolderTree(c, folder);
    SortedOK(c, folder);
    EntriesOK(c, folder);
    BuildSucceeds(c, s, FANOUT);
    FolderRoomy(c, s);
    DirVisible(c, store, s);
    LinkParts(c, t);
    KeyParts(c, t);
    PlaintextFound(c, store, DirBytes(c, t), ref);
    SmallLevels(|s|);
    ReadableEntries(s, Entries(c, folder));
    DirectoryRoundTrip(DirEnv(c, store), Visible(store), Entries(c, folder), FANOUT);
  }

  lemma ReadableEntries(s: seq<Link>, l: seq<Link>)
    requires Readable(s) && |s| == |l| && forall x :: x in s <==> x in l
    ensures Readable(l)
  {
    hide LinkLegible;
  }

  lemma KeyParts(c: Crypto, t: Dir)
    ensures DirLink(c, t).k == BlobKey(c, DirBytes(c, t)) && DirLink(c, t).t >= 2
  {
    hide DirBytes, Below, Summary, Meta, Total;
  }

  // ------------------------------------------------------------------
  // Finding an entry

  lemma FoundByName(l: seq<Link>, s: seq<Link>, x: Link)
    requires NameSort.Distinct(l) && (forall y :: y in s <==> y in l) && x in l && x.n.Some? && Readable(s)
    ensures FindEntry(Seen(s), x.n.value) == Some(SeenLink(x))
  {
    hide SeenLink, LinkLegible, NameSort.Distinct, NameSort.NameOf;
    var name := x.n.value;
    var i :| 0 <= i < |s| && s[i] == x;
    LegibleName(x);
    assert Seen(s)[i] in Seen(s);
    var r := FindEntry(Seen(s), name);
    var j :| 0 <= j < |s| && Seen(s)[j] == r.value;
    assert s[j] in s;
    LegibleName(s[j]);
    SameName(l, s[j], x) by { SameNameOf(s[j], x); }
  }

  lemma LegibleName(x: Link)
    requires LinkLegible(x)
    ensures SeenLink(x).n == x.n
  {
    hide Fits, MsgPack.Unmerged, StartsWithBom;
    SeenSame(x);
  }

  lemma SameNameOf(x: Link, y: Link)
    requires x.n == y.n
    ensures NameSort.NameOf(x) == NameSort.NameOf(y)
  {}

  lemma SameName(l: seq<Link>, x: Link, y: Link)
    requires NameSort.Distinct(l) && x in l && y in l && NameSort.NameOf(x) == NameSort.NameOf(y)
    ensures x == y
  {
    hide NameSort.NameOf;
    var i :| 0 <= i < |l| && l[i] == x;
    var j :| 0 <= j < |l| && l[j] == y;
  }

  lemma NotFound(c: Crypto, folder: Folder, name: string)
    requires Small(folder) && TopPlain(folder) && GetFile(folder.files, name) == None && GetDir(folder.dirs, name) == None
    ensures FindEntry(Seen(Listed(c, folder)), name) == None
  {
    hide SeenLink, LinkLegible, Small, Entries, NameSort.Sort, EntryOK, Buildable, TopPlain;
    SortedOK(c, folder);
    var l, s := Entries(c, folder), Listed(c, folder);
    var r := FindEntry(Seen(s), name);
    if r.Some? {
      var j :| 0 <= j < |s| && Seen(s)[j] == r.value;
      assert s[j] in s && s[j] in l;
      LegibleName(s[j]);
      var i :| 0 <= i < |l| && l[i] == s[j];
      EntryAt(c, folder, i);
      NameUsed(folder, i);
    }
  }

  lemma NameUsed(folder: Folder, i: nat)
    requires i < |Names(folder)|
    ensures GetFile(folder.files, Names(folder)[i]).Some? || GetDir(folder.dirs, Names(folder)[i]).Some?
  {
    if i < |folder.files| {
      assert folder.files[i] in folder.files;
    } else {
      assert folder.dirs[i - |folder.files|] in folder.dirs;
    }
  }

  lemma FoundFile(c: Crypto, folder: Folder, name: string)
    requires Small(folder) && TopPlain(folder) && GetFile(folder.files, name).Some?
    ensures FindEntry(Seen(Listed(c, folder)), name)
         == Some(SeenLink(FileEntry(c, NamedFile(name, GetFile(folder.files, name).value))))
  {
    hide SeenLink, Small, NameSort.Sort, EntryOK, Buildable, Readable, FileEntry, Entries, Listed, TopPlain;
    SortedOK(c, folder);
    EntriesOK(c, folder);
    var f := NamedFile(name, GetFile(folder.files, name).value);
    FileAmong(c, folder, f);
    FileEntryName(c, f);
    FoundByName(Entries(c, folder), Listed(c, folder), FileEntry(c, f));
  }

  lemma FileAmong(c: Crypto, folder: Folder, f: NamedFile)
    requires f in folder.files
    ensures FileEntry(c, f) in Entries(c, folder)
  {
    hide FileEntry;
    var i :| 0 <= i < |folder.files| && folder.files[i] == f;
    assert Entries(c, folder)[i] == FileEntry(c, f);
  }

  lemma DirAmong(c: Crypto, folder: Folder, d: NamedDir)
    requires d in folder.dirs
    ensures FolderRef(c, d.folder).(n := Some(d.name)) in Entries(c, folder)
  {
    hide FileEntry, FolderRef;
    var i :| 0 <= i < |folder.dirs| && folder.dirs[i] == d;
    assert Entries(c, folder)[|folder.files| + i] == FolderRef(c, d.folder).(n := Some(d.name));
  }

  lemma FoundDir(c: Crypto, folder: Folder, name: string)
    requires Small(folder) && TopPlain(folder) && GetDir(folder.dirs, name).Some?
    ensures FindEntry(Seen(Listed(c, folder)), name)
         == Some(SeenLink(FolderRef(c, GetDir(folder.dirs, name).value).(n := Some(name))))
  {
    hide SeenLink, Small, NameSort.Sort, EntryOK, Buildable, Readable, FolderRef, Entries, Listed, TopPlain;
    SortedOK(c, folder);
    EntriesOK(c, folder);
    var d := NamedDir(name, GetDir(folder.dirs, name).value);
    DirAmong(c, folder, d);
    FoundByName(Entries(c, folder), Listed(c, folder), FolderRef(c, d.folder).(n := Some(name)));
  }

  /** No name is both a file and a folder. */
  lemma NotBoth(folder: Folder, name: string)
    requires WellFormed(folder) && GetFile(folder.files, name).Some?
    ensures GetDir(folder.dirs, name) == None
  {
    hide NameOK;
    if GetDir(folder.dirs, name).Some? {
      var i :| 0 <= i < |folder.files| && folder.files[i] == NamedFile(name, GetFile(folder.files, name).value);
      var j :| 0 <= j < |folder.dirs| && folder.dirs[j] == NamedDir(name, GetDir(folder.dirs, name).value);
      NamesClash(folder, i, j);
    }
  }

  lemma NamesClash(folder: Folder, i: nat, j: nat)
    requires i < |folder.files| && j < |folder.dirs| && folder.files[i].name == folder.dirs[j].name
    ensures !Distinct(Names(folder))
  {
    var n := Names(folder);
    assert n[i] == n[|folder.files| + j];
  }

  // ------------------------------------------------------------------
  // Reading back

  ghost predicate SameRef(x: Link, y: Link) { x.h == y.h && x.k == y.k && x.s == y.s && x.t == y.t }

  /** Below a stored folder, a path opens exactly when a file was selected
      there, and gives that file's bytes. */
  lemma {:induction false} ReadBack(c: Crypto, store: Store, folder: Folder, ref: Link, path: Path)
    requires Sound(c) && Small(folder) && NamesPlain(folder) && FolderFits(c, folder)
    requires FolderStored(c, store, folder) && SameRef(ref, FolderRef(c, folder))
    ensures var found := Find(folder, path);
      OpenPath(c, store, ref, path) == if found.Some? then Some(found.value.data) else None
    decreases |path|
  {
    hide Sound, Small, FolderRef, Load, Listed, FileEntry, Seen, Download, TopPlain, TopFits, SeenLink;
    if path != [] {
      var name := path[0];
      FolderLoads(c, store, folder, ref);
      if GetFile(folder.files, name).Some? {
        SmallWellFormed(folder);
        NotBoth(folder, name);
        FoundFile(c, folder, name);
        FileOpens(c, store, folder, name);
      } else if GetDir(folder.dirs, name).Some? {
        var child := GetDir(folder.dirs, name).value;
        FoundDir(c, folder, name);
        SmallChild(folder, NamedDir(name, child));
        RefType(c, child);
        SeenRef(FolderRef(c, child).(n := Some(name)));
        ReadBack(c, store, child, SeenLink(FolderRef(c, child).(n := Some(name))), path[1..]);
      } else {
        NotFound(c, folder, name);
      }
    }
  }

  lemma SeenRef(x: Link)
    ensures SameRef(SeenLink(x), x)
  {}

  lemma SmallWellFormed(folder: Folder)
    requires Small(folder)
    ensures WellFormed(folder)
  {}

  lemma RefType(c: Crypto, folder: Folder)
    ensures FolderRef(c, folder).t >= 2
  {
    hide FolderTree, DirLink;
  }

  lemma FileOpens(c: Crypto, store: Store, folder: Folder, name: string)
    requires Sound(c) && Small(folder) && FolderStored(c, store, folder) && GetFile(folder.files, name).Some?
    ensures var f := NamedFile(name, GetFile(folder.files, name).value);
      var x := SeenLink(FileEntry(c, f));
      x.t <= 1 && Download(c, store, x) == Some(f.file.data)
  {
    hide Sound, FileRef, FileStored, Download, Canon, MsgPack.Strip, StripText, Listed;
    var f := NamedFile(name, GetFile(folder.files, name).value);
    assert f in folder.files;
    FileEntryOK(c, f);
    FileReadBack(c, store, f.file.data, SeenLink(FileEntry(c, f)));
  }

  lemma AcceptableFine(files: seq<File>)
    requires Acceptable(files)
    ensures |files| <= MAX_FILES && Sum(Selection.Sizes(files[..|files|])) <= MAX_FOLDER_BYTES
  {}

  /** Storing an accepted selection and opening a path gives the selected file's
      bytes at its path, less a root shared by all, and nothing anywhere else,
      whatever order the files were selected in. */
  lemma SelectionReadBack(c: Crypto, store: Store, files: seq<File>, root: Folder, k: nat, path: Path)
    requires Sound(c) && Selectable(files, k) && Represents(root, files, |files|) && Dropped(files, k)
    requires TypesOK(root) && NamesPlain(root) && FolderFits(c, root) && FolderStored(c, store, root)
    ensures var got := OpenPath(c, store, FolderRef(c, root), path);
      && (forall f :: f in files ==> k <= |f.path| && (path == Split(f.path[k..]) ==> got == Some(f.data)))
      && (got.Some? ==> exists f :: f in files && k <= |f.path| && path == Split(f.path[k..]))
  {
    hide Sound, WellFormed, TypesOK, NamesPlain, FolderStored, FolderRef, OpenPath, PathOf, Find, FileOK, Apart, FolderFits, Split, Dropped, Selectable, Fine;
    SelectableExact(files, k);
    AcceptableFine(files);
    assert files[..|files|] == files;
    ReadBack(c, store, root, FolderRef(c, root), path);
    HoldsFromRepresents(root, files, k);
  }
}
