/** Storing a selected folder and reading it back, as
    tinyclient/file-workspace.js does: files become encrypted chunks, folders
    become directories of references, and the reader opens one folder at a
    time. */
module Workspace {
  import opened Prelude
  import opened Text
  import opened MsgPack
  import opened Canonical
  import opened Manifest
  import opened Blobs
  import opened Grouping
  import opened Forest
  import opened Selection
  import opened DirTree
  import opened DirBuild
  import opened ManifestSize
  import FileRead
  import FileBuild
  import DirRead
  import NameSort

  const FANOUT: nat := 174
  const CHUNK_SIZE: nat := FileBuild.CHUNK_SIZE
  const MAX_FETCH_BYTES: nat := 16 * 1024 * 1024 + 16

  // ------------------------------------------------------------------
  // What is stored

  /** The slices of a file; an empty file is one empty slice. */
  function ChunksOf(data: Bytes): seq<Bytes> {
    if data == [] then [[]] else Runs(data, CHUNK_SIZE)
  }

  /** Every 2 MiB of the file start a chunk; an empty file is one empty chunk. */
  lemma ChunkAt(data: Bytes, i: nat)
    requires i < |ChunksOf(data)|
    ensures data == [] ==> ChunksOf(data) == [[]]
    ensures data != [] ==> (
      && i * 2097152 < |data|
      && ChunksOf(data)[i] == data[i * 2097152..if (i + 1) * 2097152 < |data| then (i + 1) * 2097152 else |data|])
  {
    if data != [] { RunAt(data, 2097152, i); }
  }

  ghost function FileTree(data: Bytes): Tree<Bytes> {
    var chunks := ChunksOf(data);
    if |chunks| == 1 then Leaf(chunks[0]) else Inner(Grow(Leaves(chunks), FANOUT))
  }

  /** storeFile's result: a single chunk, or the root of a file manifest. */
  ghost function FileRef(c: Crypto, data: Bytes): Link { FileBuild.TreeLink(c, FileTree(data)) }

  ghost function FilePlains(c: Crypto, data: Bytes): seq<Bytes> {
    var chunks := ChunksOf(data);
    if |chunks| == 1 then chunks else chunks + FileBuild.Pages(c, Leaves(chunks), FANOUT)
  }

  function MimeOf(file: File): string { if file.mime == "" then "application/octet-stream" else file.mime }

  function FileMeta(file: File): Value { Obj([Field("type", Str(MimeOf(file)))]) }

  ghost function FileEntry(c: Crypto, f: NamedFile): Link {
    FileRef(c, f.file.data).(m := Some(FileMeta(f.file)), n := Some(f.name))
  }

  ghost function FileEntries(c: Crypto, files: seq<NamedFile>): (r: seq<Link>)
    ensures |r| == |files| && forall i :: 0 <= i < |r| ==> r[i] == FileEntry(c, files[i])
  {
    seq(|files|, i requires 0 <= i < |files| => FileEntry(c, files[i]))
  }

  ghost function Entries(c: Crypto, folder: Folder): seq<Link>
    decreases folder, 1
  {
    FileEntries(c, folder.files) + DirEntries(c, folder.dirs)
  }

  ghost function DirEntries(c: Crypto, dirs: seq<NamedDir>): (r: seq<Link>)
    ensures |r| == |dirs| && forall i :: 0 <= i < |r| ==> r[i] == FolderRef(c, dirs[i].folder).(n := Some(dirs[i].name))
    decreases dirs, 0
  {
    if dirs == [] then []
    else [FolderRef(c, dirs[0].folder).(n := Some(dirs[0].name))] + DirEntries(c, dirs[1..])
  }

  ghost function Listed(c: Crypto, folder: Folder): seq<Link>
    decreases folder, 2
  {
    NameSort.Sort(Entries(c, folder))
  }

  ghost function FolderTree(c: Crypto, folder: Folder): Dir
    decreases folder, 3
  {
    RootTree(Listed(c, folder), FANOUT)
  }

  /** storeDirectory's result. */
  ghost function FolderRef(c: Crypto, folder: Folder): Link
    decreases folder, 4
  {
    DirLink(c, FolderTree(c, folder)).(m := None)
  }

  /** Everything storeDirectory puts into the store. */
  ghost predicate FolderStored(c: Crypto, store: Store, folder: Folder) {
    && (forall f :: f in folder.files ==> FileStored(c, store, f.file.data))
    && (forall d :: d in folder.dirs ==> FolderStored(c, store, d.folder))
    && DirStored(c, store, Listed(c, folder), FANOUT)
  }

  ghost predicate FileStored(c: Crypto, store: Store, data: Bytes) {
    forall p :: p in FilePlains(c, data) ==> Holds(c, store, p)
  }

  // ------------------------------------------------------------------
  // Reading

  /** fetchBlob gives up on blobs over its limit. */
  function Visible(store: Store): Store {
    map h | h in store && |store[h]| <= MAX_FETCH_BYTES :: store[h]
  }

  function Plaintext(c: Crypto, store: Store, ref: Link): Option<Bytes> {
    if ref.h !in Visible(store) then None
    else
      var raw := store[ref.h];
      if c.sha(raw) != ref.h then None else Open(c, raw, ref)
  }

  const DIR_LIMITS: DirRead.Limits := DirRead.Limits(32, 10000, 10000, 64 * 1024 * 1024)
  const FILE_LIMITS: FileRead.Limits :=
    FileRead.Limits(32, 256 * 1024 * 1024, 10000, 256 * 1024 * 1024 + 16 * 1024 * 1024)

  function DirEnv(c: Crypto, store: Store): DirRead.Env { DirRead.Env(c, FromStore(Visible(store)), DIR_LIMITS) }
  function FileEnv(c: Crypto, store: Store): FileRead.Env { FileRead.Env(c, FromStore(Visible(store)), FILE_LIMITS) }

  /** Root.load on a folder. */
  ghost function Load(c: Crypto, store: Store, ref: Link): Option<seq<Link>> {
    match Plaintext(c, store, ref)
    case None => None
    case Some(plain) =>
      match DecodeManifest(plain)
      case None => None
      case Some(root) =>
        if root.t != ref.t || ref.t < 2 then None
        else
          match DirRead.ResolveDirectory(DirEnv(c, store), root)
          case Ok(l) => Some(l)
          case Err(_) => None
  }

  /** Root.download. */
  ghost function Download(c: Crypto, store: Store, link: Link): Option<Bytes> {
    match Plaintext(c, store, link)
    case None => None
    case Some(plain) =>
      var data :=
        if link.t == 0 then Some(plain)
        else if link.t != 1 then None
        else ReadManifest(c, store, plain);
      if data.Some? && |data.value| == link.s then data else None
  }

  ghost function ReadManifest(c: Crypto, store: Store, plain: Bytes): Option<Bytes> {
    match DecodeManifest(plain)
    case None => None
    case Some(root) =>
      match FileRead.ReadFile(FileEnv(c, store), root)
      case Ok(data) => Some(data)
      case Err(_) => None
  }

  function FindEntry(l: seq<Link>, name: string): (r: Option<Link>)
    ensures r.Some? ==> r.value in l && r.value.n == Some(name)
    ensures r == None ==> forall x :: x in l ==> x.n != Some(name)
  {
    if l == [] then None else if l[0].n == Some(name) then Some(l[0]) else FindEntry(l[1..], name)
  }

  /** Opens folder after folder along a path, then downloads the file. */
  ghost function OpenPath(c: Crypto, store: Store, ref: Link, path: Path): Option<Bytes>
    decreases |path|
  {
    if path == [] then None
    else
      match Load(c, store, ref)
      case None => None
      case Some(l) =>
        match FindEntry(l, path[0])
        case None => None
        case Some(x) =>
          if x.t >= 2 then OpenPath(c, store, x, path[1..])
          else if |path| == 1 then Download(c, store, x)
          else None
  }

  // ------------------------------------------------------------------
  // Conditions on the selection

  /** No name in the tree starts with a byte order mark. */
  ghost predicate NamesPlain(folder: Folder) {
    TopPlain(folder) && forall d :: d in folder.dirs ==> NamesPlain(d.folder)
  }

  predicate TopPlain(folder: Folder) {
    && (forall f :: f in folder.files ==> !StartsWithBom(f.name))
    && forall d :: d in folder.dirs ==> !StartsWithBom(d.name)
  }

  /** Every media type is short enough for the writer. */
  ghost predicate TypesOK(folder: Folder) {
    && (forall f :: f in folder.files ==> TypeOK(f.file))
    && forall d :: d in folder.dirs ==> TypesOK(d.folder)
  }

  predicate TypeOK(file: File) { ShortText(MimeOf(file)) }

  /** The pages a reader fetches to list a folder, and those below it, stay
      within its limit of 64 MiB. */
  ghost predicate FolderFits(c: Crypto, folder: Folder) {
    TopFits(c, folder) && forall d :: d in folder.dirs ==> FolderFits(c, d.folder)
  }

  ghost predicate TopFits(c: Crypto, folder: Folder) {
    NodeCost(c, FolderTree(c, folder)).fetched <= 67108864
  }

  ghost predicate Small(folder: Folder) {
    WellFormed(folder) && TypesOK(folder) && Count(folder) <= 10000 && TreeBytes(folder) <= 1073741824
  }

  lemma {:induction false} CountParts(dirs: seq<NamedDir>, d: NamedDir)
    requires d in dirs
    ensures Count(d.folder) <= CountAll(dirs) && TreeBytes(d.folder) <= TreeBytesAll(dirs)
  {
    hide Count, TreeBytes;
    assert dirs == [dirs[0]] + dirs[1..];
    if d != dirs[0] {
      CountParts(dirs[1..], d);
    }
  }

  lemma SmallChild(folder: Folder, d: NamedDir)
    requires Small(folder) && d in folder.dirs
    ensures Small(d.folder) && NonEmpty(d.folder) && NameOK(d.name)
  {
    CountParts(folder.dirs, d);
  }

  /** A folder has at most as many entries as there are files below it. */
  lemma {:induction false} FewEntries(folder: Folder)
    requires WellFormed(folder)
    ensures |folder.files| + |folder.dirs| <= Count(folder)
    ensures NonEmpty(folder) ==> Count(folder) > 0
    decreases folder, 1
  {
    hide NameOK, Distinct;
    FewDirs(folder.dirs);
  }

  lemma {:induction false} FewDirs(dirs: seq<NamedDir>)
    requires forall d :: d in dirs ==> NonEmpty(d.folder) && WellFormed(d.folder)
    ensures |dirs| <= CountAll(dirs)
    decreases dirs, 0
  {
    hide WellFormed, Count;
    if dirs != [] {
      assert dirs[0] in dirs;
      FewEntries(dirs[0].folder);
      FewDirs(dirs[1..]);
    }
  }

  // ------------------------------------------------------------------
  // Files

  lemma {:induction false} ChunkSizes(data: Bytes)
    ensures |Runs(data, CHUNK_SIZE)| == RunCount(|data|, CHUNK_SIZE)
    ensures |data| <= MAX_FILE_BYTES ==> |Runs(data, CHUNK_SIZE)| <= 128
  {
    RunsCounted(data, CHUNK_SIZE);
    RunCountBound(|data|, CHUNK_SIZE, 128);
  }

  lemma ChunksJoin(data: Bytes)
    ensures Concat(ChunksOf(data)) == data && ChunksOf(data) != []
    ensures forall x :: x in ChunksOf(data) ==> |x| <= CHUNK_SIZE
    ensures |data| <= MAX_FILE_BYTES ==> |ChunksOf(data)| <= 128
  {
    if data == [] {
      var none: Bytes := [];
      ConcatOne(none);
    } else {
      RunsConcat(data, CHUNK_SIZE);
      ChunkSizes(data);
    }
  }

  /** What a file's chunks cost to fetch: themselves and a tag each. */
  lemma {:induction false} ChunksCost(c: Crypto, chunks: seq<Bytes>)
    requires Sound(c)
    ensures FileBuild.CostAll(c, Leaves(chunks)).manifests == 0
    ensures FileBuild.CostAll(c, Leaves(chunks)).fetched <= |Concat(chunks)| + 16 * |chunks|
  {
    hide Sound, Blob;
    if chunks != [] {
      ChunksCost(c, chunks[1..]);
      BlobLength(c, chunks[0]);
      assert Leaves(chunks)[1..] == Leaves(chunks[1..]);
    }
  }

  lemma LeavesAcyclic(c: Crypto, chunks: seq<Bytes>)
    ensures FileBuild.AcyclicAll(c, Leaves(chunks), {})
  {}

  lemma VisibleHolds(c: Crypto, store: Store, plain: Bytes)
    requires Sound(c) && Holds(c, store, plain) && |plain| <= MAX_FETCH_BYTES - 16
    ensures Holds(c, Visible(store), plain)
  {
    BlobLength(c, plain);
  }

  lemma PlaintextFound(c: Crypto, store: Store, plain: Bytes, ref: Link)
    requires Sound(c) && Holds(c, store, plain) && |plain| <= MAX_FETCH_BYTES - 16
    requires ref.h == BlobHash(c, plain) && ref.k == BlobKey(c, plain)
    ensures Plaintext(c, store, ref) == Some(plain)
  {
    hide Open, Blob;
    VisibleHolds(c, store, plain);
    OpenBlob(c, plain, ref);
  }

  lemma SmallGrow<T>(f: seq<Tree<T>>)
    requires |f| <= FANOUT
    ensures Grow(f, FANOUT) == f
  {}

  lemma SmallPages(c: Crypto, f: seq<Tree<Bytes>>)
    requires |f| <= FANOUT
    ensures FileBuild.Pages(c, f, FANOUT) == [FileBuild.Page(c, f)]
  {}

  /** A stored file downloads to its bytes. */
  lemma FileReadBack(c: Crypto, store: Store, data: Bytes, x: Link)
    requires Sound(c) && |data| <= MAX_FILE_BYTES && FileStored(c, store, data)
    requires var ref := FileRef(c, data); x.h == ref.h && x.k == ref.k && x.s == ref.s && x.t == ref.t
    ensures Download(c, store, x) == Some(data)
  {
    hide Sound, Holds, Open, Blob, BlobHash, BlobKey, Plaintext, FileBuild.Page, FileBuild.TreeLinks, Runs, ReadManifest;
    var chunks := ChunksOf(data);
    ChunksJoin(data);
    if |chunks| == 1 {
      assert chunks == [chunks[0]];
      ConcatOne(chunks[0]);
      assert chunks[0] in FilePlains(c, data);
      PlaintextFound(c, store, chunks[0], x);
    } else {
      ManyChunks(c, store, data, x);
    }
  }

  lemma ManyChunks(c: Crypto, store: Store, data: Bytes, x: Link)
    requires Sound(c) && |data| <= MAX_FILE_BYTES && FileStored(c, store, data) && |ChunksOf(data)| > 1
    requires var ref := FileRef(c, data); x.h == ref.h && x.k == ref.k && x.s == ref.s && x.t == ref.t
    ensures Download(c, store, x) == Some(data)
  {
    hide Sound, Holds, Open, Blob, BlobHash, BlobKey, Plaintext, FileBuild.Page, FileBuild.TreeLinks, Runs, ReadManifest, ChunksOf, FileBuild.Pages, Grow;
    var chunks := ChunksOf(data);
    var f := Leaves(chunks);
    ChunksJoin(data);
    SmallGrow(f);
    SmallPages(c, f);
    assert FileTree(data) == Inner(f);
    var page := FileBuild.Page(c, f);
    assert page in FilePlains(c, data);
    FileManifest(c, store, chunks);
    PlaintextFound(c, store, page, x);
    FileBuild.LinkSizeExact(c, Inner(f));
    FringeOfLeaves(chunks);
    FringeInnerFile(f);
  }

  lemma FringeInnerFile(kids: seq<Tree<Bytes>>)
    ensures Fringe(Inner(kids)) == FringeAll(kids)
  {}

  lemma FileManifest(c: Crypto, store: Store, chunks: seq<Bytes>)
    requires Sound(c) && |chunks| <= 128 && |Concat(chunks)| <= MAX_FILE_BYTES
    requires forall p :: p in chunks ==> Holds(c, store, p) && |p| <= CHUNK_SIZE
    requires Holds(c, store, FileBuild.Page(c, Leaves(chunks)))
    ensures |FileBuild.Page(c, Leaves(chunks))| <= MAX_FETCH_BYTES - 16
    ensures ReadManifest(c, store, FileBuild.Page(c, Leaves(chunks))) == Some(Concat(chunks))
  {
    hide Sound, Holds, FileBuild.TreeLinks, FileRead.ReadFile, FileBuild.CostAll, Grow, FileBuild.Pages, FileBuild.Page, FileBuild.AcyclicAll, Levels, EncodeManifest, DecodeManifest;
    var f := Leaves(chunks);
    FringeOfLeaves(chunks);
    FileBuild.PageEncodes(c, f);
    PageSmall(c, f);
    FileBuild.PageReadable(c, f);
    SmallGrow(f);
    SmallPages(c, f);
    forall p | p in chunks ensures Holds(c, Visible(store), p) { VisibleHolds(c, store, p); }
    VisibleHolds(c, store, FileBuild.Page(c, f));
    ChunksCost(c, chunks);
    SmallLevels(|chunks|);
    FileBuild.FileRoundTrip(FileEnv(c, store), Visible(store), chunks, FANOUT);
    LeavesAcyclic(c, chunks);
  }

  lemma SmallLevels(n: nat)
    ensures n <= FANOUT ==> Levels(n, FANOUT) == 0
    ensures n <= MAX_FILES ==> Levels(n, FANOUT) <= 1
  {
    if n > FANOUT && n <= MAX_FILES {
      RunsShrink(n, FANOUT);
      RunCountBound(n, FANOUT, FANOUT);
    }
  }

  lemma PageSmall(c: Crypto, f: seq<Tree<Bytes>>)
    requires EncodeManifest(Node(FileBuild.TreeLinks(c, f), 1)).Some?
    ensures |FileBuild.Page(c, f)| <= MAX_MANIFEST_BYTES
  {
    hide NodeOK, NodeBytes, MetasEncodable, FileBuild.TreeLinks;
  }
}
