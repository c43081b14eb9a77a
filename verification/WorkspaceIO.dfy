/** storeEncrypted, storeFile and storeDirectory of
    tinyclient/file-workspace.js as they run, with the session that lets a
    retry skip what is already stored. */
module WorkspaceIO {
  import opened Prelude
  import opened Manifest
  import opened Blobs
  import opened Grouping
  import opened Forest
  import opened Selection
  import opened DirTree
  import opened DirBuild
  import opened Workspace
  import opened WorkspaceRead
  import FileBuild
  import FileIO
  import DirIO
  import ManifestIO
  import MsgPackIO
  import NameSort
  import Sorting
  import MsgPack

  datatype Ref = Ref(hash: Bytes, key: Option<Bytes>)

  ghost function RefOf(c: Crypto, plain: Bytes): Ref { Ref(BlobHash(c, plain), BlobKey(c, plain)) }

  /** The server's blobs and what this page knows it has stored. Upload number
      i fails when `fails(i)`. */
  class Session {
    const c: Crypto
    const fails: nat -> bool
    var store: Store
    var completed: map<Bytes, Ref>
    var uploads: nat

    /** Everything remembered is stored, and is one of these plaintexts. */
    ghost predicate Valid(plains: set<Bytes>)
      reads this
    {
      forall h :: h in completed ==> exists p :: p in plains && Remembered(p, h)
    }

    ghost predicate Remembered(p: Bytes, h: Bytes)
      reads this
      requires h in completed
    {
      h == BlobHash(c, p) && completed[h] == RefOf(c, p) && Holds(c, store, p)
    }

    constructor (c: Crypto, fails: nat -> bool, store: Store)
      ensures this.c == c && this.fails == fails && this.store == store && uploads == 0
      ensures completed == map[] && Valid({})
    {
      this.c, this.fails, this.store := c, fails, store;
      completed, uploads := map[], 0;
    }

    ghost predicate Reliable() { forall i :: !fails(i) }

    /** What was stored before is stored still. */
    twostate predicate Keeps(plains: set<Bytes>)
      reads this
    {
      forall p :: p in plains && old(Holds(c, store, p)) ==> Holds(c, store, p)
    }

    /** The reference is the same whether the blob is uploaded now or the
        session remembers it, and remembered blobs are not uploaded again. */
    method StoreEncrypted(plain: Bytes, ghost plains: set<Bytes>) returns (r: Option<Ref>)
      requires Valid(plains) && plain in plains && Collisionless(c, plains)
      modifies this
      ensures Valid(plains) && Keeps(plains)
      ensures r.Some? ==> r.value == RefOf(c, plain) && Holds(c, store, plain)
      ensures old(BlobHash(c, plain) in completed) ==> r.Some? && uploads == old(uploads) && store == old(store)
      ensures Reliable() ==> r.Some?
    {
      hide Blob, BlobKey;
      var hash := BlobHash(c, plain);
      if hash in completed {
        Recall(hash, plain, plains);
        return Some(completed[hash]);
      }
      var fate := fails(uploads);
      uploads := uploads + 1;
      if fate {
        return None;
      }
      PutHolds(c, store, plain, plains);
      ghost var before := completed;
      store := Put(c, store, plain);
      completed := completed[hash := Ref(hash, BlobKey(c, plain))];
      assert Remembered(plain, hash);
      forall h | h in completed ensures exists p :: p in plains && Remembered(p, h) {
        if h != hash {
          var p :| p in plains && old(h in completed && Remembered(p, h));
          assert Remembered(p, h);
        }
      }
      return Some(completed[hash]);
    }

    lemma Recall(h: Bytes, plain: Bytes, plains: set<Bytes>)
      requires Valid(plains) && plain in plains && Collisionless(c, plains) && h in completed && h == BlobHash(c, plain)
      ensures completed[h] == RefOf(c, plain) && Holds(c, store, plain)
    {
      hide Blob, BlobKey, BlobHash, Holds;
      var p :| p in plains && Remembered(p, h);
      assert p == plain;
    }

    /** Stores manifests one after the other. */
    method StoreAll(pages: seq<Bytes>, ghost plains: set<Bytes>) returns (ok: bool)
      requires Valid(plains) && Collisionless(c, plains) && forall p :: p in pages ==> p in plains
      modifies this
      ensures Valid(plains) && Keeps(plains)
      ensures ok ==> forall p :: p in pages ==> Holds(c, store, p)
      ensures Reliable() ==> ok
    {
      hide Holds, BlobHash, Collisionless;
      for i := 0 to |pages|
        invariant Valid(plains) && Keeps(plains)
        invariant forall p :: p in pages[..i] ==> Holds(c, store, p)
      {
        var stored := StoreEncrypted(pages[i], plains);
        if stored == None {
          return false;
        }
        assert pages[..i + 1] == pages[..i] + [pages[i]];
      }
      assert pages[..|pages|] == pages;
      return true;
    }

    method StoreChunks(data: Bytes, ghost plains: set<Bytes>) returns (r: Option<seq<Link>>)
      requires Valid(plains) && Collisionless(c, plains) && forall p :: p in ChunksOf(data) ==> p in plains
      modifies this
      ensures Valid(plains) && Keeps(plains)
      ensures r.Some? ==> r.value == FileBuild.TreeLinks(c, Leaves(ChunksOf(data)))
      ensures r.Some? ==> forall p :: p in ChunksOf(data) ==> Holds(c, store, p)
      ensures Reliable() ==> r.Some?
    {
      hide Holds, BlobHash, BlobKey, Collisionless, Cut, Runs, ChunksOf, FileBuild.TreeLinks, FileBuild.TreeLink, Valid;
      var chunks: seq<Link> := [];
      ghost var done: seq<Bytes> := [];
      var offset := 0;
      CutStart(data, CHUNK_SIZE);
      NoChunks(c);
      while offset < |data| || (offset == 0 && chunks == [])
        invariant offset <= |data| && Valid(plains) && Keeps(plains)
        invariant |chunks| == |done|
        invariant if offset == 0 && |data| == 0 then done == [] || done == ChunksOf(data) else Cut(data, CHUNK_SIZE, offset, done)
        invariant chunks == FileBuild.TreeLinks(c, Leaves(done))
        invariant forall p :: p in done ==> p in plains && Holds(c, store, p)
        decreases |data| - offset, if chunks == [] then 1 else 0
      {
        var end := if offset + CHUNK_SIZE < |data| then offset + CHUNK_SIZE else |data|;
        var plain := data[offset..end];
        NextChunk(data, offset, end, done);
        var stored := StoreEncrypted(plain, plains);
        if stored == None {
          return None;
        }
        LeafLink(c, plain);
        ChunkAdded(c, done, plain);
        chunks := chunks + [Link(stored.value.hash, stored.value.key, None, None, |plain|, 0)];
        done := done + [plain];
        offset := end;
      }
      AllChunks(data, done);
      return Some(chunks);
    }

    /** storeFile. */
    method StoreFile(data: Bytes, ghost plains: set<Bytes>) returns (r: Option<Link>)
      requires Valid(plains) && Collisionless(c, plains) && forall p :: p in FilePlains(c, data) ==> p in plains
      modifies this
      ensures Valid(plains) && Keeps(plains)
      ensures r.Some? ==> r.value == FileRef(c, data) && FileStored(c, store, data)
      ensures Reliable() && |data| <= MAX_FILE_BYTES ==> r.Some?
    {
      hide Holds, BlobHash, BlobKey, Collisionless, Runs, ChunksOf, FileBuild.TreeLinks, FileBuild.TreeLink, Valid, FileBuild.Pages, FileBuild.Page, Grow;
      if |data| > MAX_FILE_BYTES {
        return None;
      }
      ChunksJoin(data);
      ghost var chunks := ChunksOf(data);
      var links := StoreChunks(data, plains);
      if links == None {
        return None;
      }
      ChunkLinks(c, chunks);
      if |links.value| == 1 {
        return Some(links.value[0]);
      }
      var built := FileIO.BuildFile(c, links.value, FANOUT, chunks);
      if built.Err? {
        return None;
      }
      var ok := StoreAll(built.value.manifests, plains);
      if !ok {
        return None;
      }
      var root, pages := built.value.root, built.value.manifests;
      RootRef(c, chunks);
      return Some(Link(BlobHash(c, pages[|pages| - 1]), BlobKey(c, pages[|pages| - 1]), None, None, FileIO.SumSizes(root.l), 1));
    }
  }

  lemma NoChunks(c: Crypto)
    ensures FileBuild.TreeLinks(c, Leaves<Bytes>([])) == []
  {}

  lemma LeafLink(c: Crypto, plain: Bytes)
    ensures FileBuild.TreeLink(c, Leaf(plain)) == Link(BlobHash(c, plain), BlobKey(c, plain), None, None, |plain|, 0)
  {}

  lemma ChunkAdded(c: Crypto, done: seq<Bytes>, plain: Bytes)
    ensures FileBuild.TreeLinks(c, Leaves(done + [plain])) == FileBuild.TreeLinks(c, Leaves(done)) + [FileBuild.TreeLink(c, Leaf(plain))]
  {
    hide FileBuild.TreeLink;
    assert Leaves(done + [plain]) == Leaves(done) + [Leaf(plain)];
  }

  /** The next slice is the next chunk. */
  lemma NextChunk(data: Bytes, offset: nat, end: nat, done: seq<Bytes>)
    requires offset <= |data| && end == (if offset + CHUNK_SIZE < |data| then offset + CHUNK_SIZE else |data|)
    requires if |data| == 0 then done == [] else offset < |data| && Cut(data, CHUNK_SIZE, offset, done)
    ensures data[offset..end] in ChunksOf(data)
    ensures if |data| == 0 then done + [data[offset..end]] == ChunksOf(data) else Cut(data, CHUNK_SIZE, end, done + [data[offset..end]])
  {
    hide Runs, Cut;
    if |data| == 0 {
      assert data[offset..end] == [];
      assert ChunksOf(data) == [[]];
    } else {
      CutNext(data, CHUNK_SIZE, offset, done, end);
    }
  }

  lemma AllChunks(data: Bytes, done: seq<Bytes>)
    requires if |data| == 0 then done == ChunksOf(data) else Cut(data, CHUNK_SIZE, |data|, done)
    ensures done == ChunksOf(data)
  {
    hide Runs, Cut;
    if |data| > 0 {
      CutDone(data, CHUNK_SIZE, done);
    }
  }

  lemma ChunkLinks(c: Crypto, chunks: seq<Bytes>)
    requires |Concat(chunks)| <= MAX_FILE_BYTES && forall x :: x in chunks ==> |x| <= CHUNK_SIZE
    ensures var l := FileBuild.TreeLinks(c, Leaves(chunks));
      && |l| == |chunks| && (forall x :: x in l ==> x.s <= CHUNK_SIZE)
      && (|chunks| == 1 ==> l[0] == FileBuild.TreeLink(c, Leaf(chunks[0])))
  {
    var l := FileBuild.TreeLinks(c, Leaves(chunks));
    forall x | x in l ensures x.s <= CHUNK_SIZE {
      var i :| 0 <= i < |l| && l[i] == x;
      assert chunks[i] in chunks;
    }
  }

  /** rootReference: the last manifest stored, and the sum of its links. */
  lemma RootRef(c: Crypto, chunks: seq<Bytes>)
    ensures var g := Grow(Leaves(chunks), FANOUT);
      var pages := FileBuild.Pages(c, Leaves(chunks), FANOUT);
      var page := pages[|pages| - 1];
      FileBuild.TreeLink(c, Inner(g))
        == Link(BlobHash(c, page), BlobKey(c, page), None, None, FileIO.SumSizes(FileBuild.Root(c, chunks, FANOUT).l), 1)
  {
    hide Grow, FileBuild.Page, FileBuild.TreeLinks, Blob;
  }

  // ------------------------------------------------------------------
  // Folders

  /** Everything stored for the folder is among these plaintexts. */
  ghost predicate FolderWithin(c: Crypto, plains: set<Bytes>, folder: Folder) {
    && (forall f :: f in folder.files ==> FileWithin(c, plains, f.file.data))
    && (forall d :: d in folder.dirs ==> FolderWithin(c, plains, d.folder))
    && forall p :: p in Pages(c, Listed(c, folder), FANOUT) ==> p in plains
  }

  ghost predicate FileWithin(c: Crypto, plains: set<Bytes>, data: Bytes) {
    forall p :: p in FilePlains(c, data) ==> p in plains
  }

  /** What was stored below stays stored when more is. */
  ghost predicate Carries(c: Crypto, plains: set<Bytes>, before: Store, after: Store) {
    forall p :: p in plains && Holds(c, before, p) ==> Holds(c, after, p)
  }

  lemma {:induction false} FolderCarried(c: Crypto, plains: set<Bytes>, before: Store, after: Store, folder: Folder)
    requires FolderWithin(c, plains, folder) && FolderStored(c, before, folder) && Carries(c, plains, before, after)
    ensures FolderStored(c, after, folder)
    decreases folder
  {
    hide Holds, FilePlains, Pages, Listed;
    forall d | d in folder.dirs ensures FolderStored(c, after, d.folder) {
      FolderCarried(c, plains, before, after, d.folder);
    }
  }

  lemma FileCarried(c: Crypto, plains: set<Bytes>, before: Store, after: Store, data: Bytes)
    requires FileWithin(c, plains, data) && FileStored(c, before, data) && Carries(c, plains, before, after)
    ensures FileStored(c, after, data)
  {
    hide Holds, FilePlains;
  }

  ghost predicate FilesStored(c: Crypto, store: Store, files: seq<NamedFile>) {
    forall f :: f in files ==> FileStored(c, store, f.file.data)
  }

  ghost predicate DirsStored(c: Crypto, store: Store, dirs: seq<NamedDir>) {
    forall d :: d in dirs ==> FolderStored(c, store, d.folder)
  }

  method StoreFiles(s: Session, files: seq<NamedFile>, ghost plains: set<Bytes>) returns (r: Option<seq<Link>>)
    requires s.Valid(plains) && Collisionless(s.c, plains) && forall f :: f in files ==> FileWithin(s.c, plains, f.file.data)
    modifies s
    ensures s.Valid(plains) && Carries(s.c, plains, old(s.store), s.store)
    ensures r.Some? ==> r.value == FileEntries(s.c, files) && FilesStored(s.c, s.store, files)
    ensures s.Reliable() && (forall f :: f in files ==> |f.file.data| <= MAX_FILE_BYTES) ==> r.Some?
  {
    hide Holds, BlobHash, Collisionless, FileRef, FilePlains, FileStored;
    var entries: seq<Link> := [];
    for i := 0 to |files|
      invariant s.Valid(plains) && Carries(s.c, plains, old(s.store), s.store)
      invariant entries == FileEntries(s.c, files[..i]) && FilesStored(s.c, s.store, files[..i])
    {
      var f := files[i];
      assert f in files && FileWithin(s.c, plains, f.file.data);
      ghost var before := s.store;
      var stored := s.StoreFile(f.file.data, plains);
      if stored == None {
        return None;
      }
      forall g | g in files[..i] ensures FileStored(s.c, s.store, g.file.data) {
        assert g in files;
        FileCarried(s.c, plains, before, s.store, g.file.data);
      }
      entries := entries + [stored.value.(m := Some(FileMeta(f.file)), n := Some(f.name))];
      assert files[..i + 1] == files[..i] + [f];
    }
    assert files[..|files|] == files;
    return Some(entries);
  }

  lemma EntriesPlain(c: Crypto, folder: Folder)
    ensures ManifestIO.MetasPlain(Entries(c, folder)) && NameSort.HasNames(Entries(c, folder))
  {
    hide FolderRef, FileRef;
    var l := Entries(c, folder);
    forall x | x in l ensures x.n.Some? && (x.m.Some? ==> MsgPackIO.Plain(x.m.value)) {
      var i :| 0 <= i < |l| && l[i] == x;
      if i < |folder.files| {
        assert x == FileEntry(c, folder.files[i]);
      } else {
        FolderMeta(c, folder.dirs[i - |folder.files|].folder);
      }
    }
  }

  lemma FolderMeta(c: Crypto, folder: Folder)
    ensures FolderRef(c, folder).m == None
  {
    hide FolderTree, DirLink;
  }

  lemma DirEntryNext(c: Crypto, dirs: seq<NamedDir>, i: nat)
    requires i < |dirs|
    ensures DirEntries(c, dirs[..i + 1]) == DirEntries(c, dirs[..i]) + [FolderRef(c, dirs[i].folder).(n := Some(dirs[i].name))]
  {
    hide FolderRef;
  }

  /** rootReference of a built directory. */
  lemma DirRef(c: Crypto, folder: Folder)
    ensures var t := FolderTree(c, folder);
      var pages := Pages(c, Listed(c, folder), FANOUT);
      var page := pages[|pages| - 1];
      FolderRef(c, folder) == Link(BlobHash(c, page), BlobKey(c, page), None, None, Total(Entries(c, folder)), DirNode(c, t).t)
  {
    hide Entries, Total, DirBytes, BlobHash, BlobKey, NameSort.Sort, RootTree, Meta, Summary, Below;
    FolderTotal(c, folder);
  }

  /** A root's links claim what its entries claim. */
  lemma RootTotal(c: Crypto, folder: Folder)
    ensures Total(DirNode(c, FolderTree(c, folder)).l) == Total(Entries(c, folder))
  {
    hide Entries, Total, NameSort.Sort, Grow, Runs, DirLinks, Below, BelowAll;
    var s := Listed(c, folder);
    WorkspaceRead.SortTotal(Entries(c, folder));
    if |s| > FANOUT {
      var g := Grow(Leaves(Runs(s, FANOUT)), FANOUT);
      DirIO.ClaimsTotal(c, g);
      RootBelow(s, FANOUT);
      BelowInner(g);
    }
  }

  /** storeDirectory: files first, then sub-folders, then the folder's own
      manifests. */
  method StoreDirectory(s: Session, folder: Folder, ghost plains: set<Bytes>) returns (r: Option<Link>)
    requires s.Valid(plains) && Collisionless(s.c, plains) && FolderWithin(s.c, plains, folder)
    modifies s
    ensures s.Valid(plains) && Carries(s.c, plains, old(s.store), s.store)
    ensures r.Some? ==> r.value == FolderRef(s.c, folder) && FolderStored(s.c, s.store, folder) && TypesOK(folder)
    ensures s.Reliable() && Small(folder) ==> r.Some?
    decreases folder
  {
    hide Holds, BlobHash, BlobKey, Collisionless, FileStored, FileWithin, FolderRef, FileEntry, Pages, Listed, Small, FolderStored, FolderWithin, FilesStored, DirsStored, FileEntries, DirEntries, Carries, TypeOK;
    ghost var start := s.store;
    if Small(folder) { SmallFiles(folder); }
    WithinParts(s.c, plains, folder);
    var files := StoreFiles(s, folder.files, plains);
    if files == None {
      return None;
    }
    var entries := files.value;
    NoDirs(s.c, s.store);
    for i := 0 to |folder.dirs|
      invariant s.Valid(plains) && Carries(s.c, plains, start, s.store)
      invariant entries == FileEntries(s.c, folder.files) + DirEntries(s.c, folder.dirs[..i])
      invariant FilesStored(s.c, s.store, folder.files) && DirsStored(s.c, s.store, folder.dirs[..i])
      invariant forall d :: d in folder.dirs[..i] ==> TypesOK(d.folder)
    {
      var d := folder.dirs[i];
      assert d in folder.dirs;
      if Small(folder) { SmallChild(folder, d); }
      ghost var before := s.store;
      var stored := StoreDirectory(s, d.folder, plains);
      CarriesOn(s.c, plains, start, before, s.store);
      if stored == None {
        return None;
      }
      StillStored(s.c, plains, before, s.store, folder, folder.dirs[..i]);
      DirEntryNext(s.c, folder.dirs, i);
      DirStoredNext(s.c, s.store, folder.dirs, i);
      assert folder.dirs[..i + 1] == folder.dirs[..i] + [d];
      entries := entries + [stored.value.(n := Some(d.name))];
    }
    assert folder.dirs[..|folder.dirs|] == folder.dirs;
    EntriesParts(s.c, folder);
    ghost var before := s.store;
    r := StoreManifests(s, folder, entries, plains);
    CarriesOn(s.c, plains, start, before, s.store);
  }

  lemma WithinParts(c: Crypto, plains: set<Bytes>, folder: Folder)
    requires FolderWithin(c, plains, folder)
    ensures forall f :: f in folder.files ==> FileWithin(c, plains, f.file.data)
    ensures forall d :: d in folder.dirs ==> FolderWithin(c, plains, d.folder)
  {}

  lemma NoDirs(c: Crypto, store: Store)
    ensures DirEntries(c, []) == [] && DirsStored(c, store, [])
  {}

  lemma EntriesParts(c: Crypto, folder: Folder)
    ensures Entries(c, folder) == FileEntries(c, folder.files) + DirEntries(c, folder.dirs)
  {}

  lemma CarriesOn(c: Crypto, plains: set<Bytes>, a: Store, b: Store, d: Store)
    requires Carries(c, plains, a, b) && Carries(c, plains, b, d)
    ensures Carries(c, plains, a, d)
  {
    hide Holds;
  }

  lemma DirStoredNext(c: Crypto, store: Store, dirs: seq<NamedDir>, i: nat)
    requires i < |dirs| && DirsStored(c, store, dirs[..i]) && FolderStored(c, store, dirs[i].folder)
    ensures DirsStored(c, store, dirs[..i + 1])
  {
    hide FolderStored;
    assert dirs[..i + 1] == dirs[..i] + [dirs[i]];
  }

  lemma SmallFiles(folder: Folder)
    requires Small(folder)
    ensures forall f :: f in folder.files ==> |f.file.data| <= MAX_FILE_BYTES
  {}

  lemma StillStored(c: Crypto, plains: set<Bytes>, before: Store, after: Store, folder: Folder, dirs: seq<NamedDir>)
    requires FolderWithin(c, plains, folder) && Carries(c, plains, before, after)
    requires FilesStored(c, before, folder.files) && DirsStored(c, before, dirs) && forall d :: d in dirs ==> d in folder.dirs
    ensures FilesStored(c, after, folder.files) && DirsStored(c, after, dirs)
  {
    hide FileStored, FileWithin, FolderStored, Carries, Pages, Listed;
    forall f | f in folder.files ensures FileStored(c, after, f.file.data) {
      FileCarried(c, plains, before, after, f.file.data);
    }
    forall d | d in dirs ensures FolderStored(c, after, d.folder) {
      FolderCarried(c, plains, before, after, d.folder);
    }
  }

  /** A folder whose manifests could be written has only short media types. */
  lemma TypesWritten(c: Crypto, folder: Folder)
    requires Stored(c, FolderTree(c, folder))
    ensures forall f :: f in folder.files ==> TypeOK(f.file)
  {
    hide Stored, Entries, NameSort.Sort, FileEntry, TypeOK, Writable;
    var s := Listed(c, folder);
    StoredEntries(c, FolderTree(c, folder));
    RootBelow(s, FANOUT);
    Sorting.SameMembers(s, Entries(c, folder));
    forall f | f in folder.files ensures TypeOK(f.file) {
      FileAmong(c, folder, f);
      TypeWritten(c, f);
    }
  }

  lemma TypeWritten(c: Crypto, f: NamedFile)
    requires Writable(FileEntry(c, f))
    ensures TypeOK(f.file)
  {
    hide LinkOK, MsgPack.ShortText, FileRef;
    var field := MsgPack.Field("type", MsgPack.Str(MimeOf(f.file)));
    FileEntryMeta(c, f);
    assert MsgPack.Encodable(FileMeta(f.file));
    assert field in FileMeta(f.file).fields;
    assert MsgPack.Encodable(field.val);
  }

  method StoreManifests(s: Session, folder: Folder, entries: seq<Link>, ghost plains: set<Bytes>) returns (r: Option<Link>)
    requires s.Valid(plains) && Collisionless(s.c, plains) && FolderWithin(s.c, plains, folder)
    requires entries == Entries(s.c, folder) && FilesStored(s.c, s.store, folder.files) && DirsStored(s.c, s.store, folder.dirs)
    modifies s
    ensures s.Valid(plains) && Carries(s.c, plains, old(s.store), s.store)
    ensures r.Some? ==> r.value == FolderRef(s.c, folder) && FolderStored(s.c, s.store, folder)
    ensures r.Some? ==> forall f :: f in folder.files ==> TypeOK(f.file)
    ensures s.Reliable() && Small(folder) ==> r.Some?
  {
    hide Holds, BlobHash, BlobKey, Collisionless, FileStored, FileWithin, FolderRef, FileEntry, Pages, Small, TypeOK, NameSort.Distinct, Total, Entries, DirBytes, DirNode, Stored, NameSort.Sort, RootTree;
    EntriesPlain(s.c, folder);
    if Small(folder) {
      EntriesOK(s.c, folder);
      SortedOK(s.c, folder);
      BuildSucceeds(s.c, Listed(s.c, folder), FANOUT);
    }
    var built := DirIO.BuildDirectory(s.c, entries, FANOUT);
    if built.Err? {
      return None;
    }
    var root, pages := built.value.root, built.value.manifests;
    ghost var before := s.store;
    var ok := s.StoreAll(pages, plains);
    if !ok {
      return None;
    }
    StillStored(s.c, plains, before, s.store, folder, folder.dirs);
    TypesWritten(s.c, folder);
    DirRef(s.c, folder);
    RootTotal(s.c, folder);
    var page := pages[|pages| - 1];
    return Some(Link(BlobHash(s.c, page), BlobKey(s.c, page), None, None, Total(root.l), root.t));
  }
}
