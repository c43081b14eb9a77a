/** When a stored folder does not read back. selectionTree accepts names that
    start with a byte order mark and the writer stores them, but the reader's
    text decoder drops the mark; and media types of any length are stored, but
    the reader fetches only so many bytes of listings. */
module WorkspaceMarks {
  import opened Prelude
  import opened Text
  import opened Manifest
  import opened Blobs
  import opened Grouping
  import opened Forest
  import opened Selection
  import opened DirTree
  import opened DirBuild
  import opened Workspace
  import opened WorkspaceRead
  import DirRead
  import NameSort
  import MsgPack
  import opened Legible
  import Canonical

  /** x is what the reader makes of y's name. */
  ghost predicate Stripped(x: Link, y: Link) { y.n.Some? && x.n == Some(StripText(y.n.value)) }

  ghost predicate FromEntries(l: seq<Link>, s: seq<Link>) {
    forall x :: x in l ==> exists y :: y in s && Stripped(x, y)
  }

  lemma StrippedLinks(l: seq<Link>)
    requires forall x :: x in l ==> x.n.Some?
    ensures FromEntries(StripLinks(CanonLinks(l)), l)
  {
    hide Canonical.Canon, StripText, MsgPack.Strip;
    var r := StripLinks(CanonLinks(l));
    forall x | x in r ensures exists y :: y in l && Stripped(x, y) {
      var i :| 0 <= i < |r| && r[i] == x;
      assert l[i] in l && Stripped(x, l[i]);
    }
  }

  lemma PageDecodes(c: Crypto, l: seq<Link>)
    requires Stored(c, Leaf(l)) && DecodeManifest(DirBytes(c, Leaf(l))).Some?
    ensures DecodeManifest(DirBytes(c, Leaf(l))).value.t == 2
    ensures FromEntries(DecodeManifest(DirBytes(c, Leaf(l))).value.l, l)
  {
    hide EncodeManifest, DecodeManifest, FromEntries, StripLinks, CanonLinks;
    DecodeStripped(Node(l, 2));
    StoredEntries(c, Leaf(l));
    OnePage(l);
    forall x | x in l ensures x.n.Some? { EntryNamed(x); }
    StrippedLinks(l);
  }

  ghost predicate SameBlob(x: Link, y: Link) { x.h == y.h && x.k == y.k && x.t == y.t }

  /** What a walk finds below the link of a stored page. */
  lemma PageNames(env: DirRead.Env, store: Store, l: seq<Link>, link: Link, depth: nat, st: DirRead.State)
    requires env.fetch == FromStore(store) && Sound(env.c) && depth <= env.limits.maxDepth
    requires Stored(env.c, Leaf(l)) && Holds(env.c, store, DirBytes(env.c, Leaf(l))) && SameBlob(link, DirLink(env.c, Leaf(l)))
    requires DirRead.WalkLink(env, link, depth, st).status == DirRead.Done
    ensures FromEntries(DirRead.WalkLink(env, link, depth, st).entries, l)
    ensures DirRead.WalkLink(env, link, depth, st).st.fetched == st.fetched + |Blob(env.c, DirBytes(env.c, Leaf(l)))|
  {
    hide Sound, Open, Stored, DirLink, DirBytes, DecodeManifest, FromEntries, NodeOK, DirRead.Describes, DirRead.Claim, DirRead.Listing, DirRead.WalkLinks;
    var page := DirBytes(env.c, Leaf(l));
    DirRead.LinkSound(env, link, depth, st);
    LinkParts(env.c, Leaf(l));
    KeyParts(env.c, Leaf(l));
    OpenBlob(env.c, page, link);
    assert env.fetch(st.fetches, link.h) == Some(Blob(env.c, page));
    var after := DirRead.After(env, link, st);
    assert DirRead.WalkLink(env, link, depth, st) == DirRead.WalkChild(env, link, page, depth, after);
    assert DecodeManifest(page).Some?;
    PageDecodes(env.c, l);
    var o := DirRead.WalkNode(env, DecodeManifest(page).value, depth + 1, after);
    assert o.entries == DecodeManifest(page).value.l && o.st.fetched == after.fetched;
  }

  lemma LeafFetched(c: Crypto, l: seq<Link>)
    ensures CostOf(c, Leaf(l)).fetched == |Blob(c, DirBytes(c, Leaf(l)))|
  {
    hide DirBytes, Blob;
  }

  lemma {:induction false} FanNames(env: DirRead.Env, store: Store, runs: seq<seq<Link>>, links: seq<Link>, s: seq<Link>,
                                    depth: nat, previous: string, result: seq<Link>, st: DirRead.State)
    requires env.fetch == FromStore(store) && Sound(env.c) && depth <= env.limits.maxDepth && |links| == |runs|
    requires forall r :: r in runs ==> Stored(env.c, Leaf(r)) && Holds(env.c, store, DirBytes(env.c, Leaf(r)))
    requires forall i :: 0 <= i < |runs| ==> SameBlob(links[i], DirLink(env.c, Leaf(runs[i])))
    requires FromEntries(result, s) && forall r, y :: r in runs && y in r ==> y in s
    requires DirRead.WalkLinks(env, links, depth, previous, result, st).status == DirRead.Done
    ensures FromEntries(DirRead.WalkLinks(env, links, depth, previous, result, st).entries, s)
    ensures DirRead.WalkLinks(env, links, depth, previous, result, st).st.fetched == st.fetched + CostAll(env.c, Leaves(runs)).fetched
    decreases |links|
  {
    hide Sound, Holds, Stored, DirLink, DirBytes, DirRead.WalkLink, DirRead.Claim, Compare, SameBlob, Stripped, CostOf, Blob;
    if links != [] {
      assert Leaves(runs)[1..] == Leaves(runs[1..]);
      LeafFetched(env.c, runs[0]);
      var o := DirRead.WalkLink(env, links[0], depth, st);
      assert runs[0] in runs;
      PageNames(env, store, runs[0], links[0], depth, st);
      FanNames(env, store, runs[1..], links[1..], s, depth, DirRead.Claim(links[0]).last, result + o.entries, o.st);
    }
  }

  lemma FanDecodes(c: Crypto, kids: seq<Dir>, root: Node)
    requires EncodeManifest(DirNode(c, Inner(kids))).Some? && DecodeManifest(DirBytes(c, Inner(kids))) == Some(root)
    ensures root.t == 3 && |root.l| == |kids| && forall i :: 0 <= i < |kids| ==> SameBlob(root.l[i], DirLink(c, kids[i]))
  {
    hide EncodeManifest, DecodeManifest, DirLink, MsgPack.Strip, StripText, Canonical.Canon;
    DecodeStripped(DirNode(c, Inner(kids)));
  }

  /** Whatever opens as this folder lists stripped names of its entries. */
  lemma LoadedNames(c: Crypto, store: Store, folder: Folder, ref: Link)
    requires Sound(c) && Small(folder) && FolderStored(c, store, folder) && SameRef(ref, FolderRef(c, folder))
    requires Load(c, store, ref).Some?
    ensures FromEntries(Load(c, store, ref).value, Listed(c, folder)) && TopFits(c, folder)
  {
    hide Sound, Holds, EncodeManifest, DecodeManifest, DirNode, Stored, DirBytes, DirRead.WalkNode, Entries, EntryOK, NameSort.Sort, Buildable, Readable, Plaintext, DirStored, RootTree, Small, FromEntries, NodeCost;
    var s := Listed(c, folder);
    var t := FolderTree(c, folder);
    SortedOK(c, folder);
    BuildSucceeds(c, s, FANOUT);
    DirVisible(c, store, s);
    LinkParts(c, t);
    KeyParts(c, t);
    PlaintextFound(c, store, DirBytes(c, t), ref);
    var root := DecodeManifest(DirBytes(c, t)).value;
    RootNames(c, store, s, root);
  }

  lemma RootNames(c: Crypto, store: Store, s: seq<Link>, root: Node)
    requires Sound(c) && Stored(c, RootTree(s, FANOUT)) && DirStored(c, Visible(store), s, FANOUT) && |s| <= MAX_FILES
    requires DecodeManifest(DirBytes(c, RootTree(s, FANOUT))) == Some(root)
    requires DirRead.ResolveDirectory(DirEnv(c, store), root).Ok?
    ensures FromEntries(DirRead.ResolveDirectory(DirEnv(c, store), root).value, s)
    ensures NodeCost(c, RootTree(s, FANOUT)).fetched <= DIR_LIMITS.maxBytes
  {
    hide Sound, Holds, EncodeManifest, DecodeManifest, DirNode, Stored, DirBytes, Runs, FromEntries, DirRead.WalkLinks, NodeOK, Grow, Fans, DirRead.Ascending, DirLink, CostAll, DirRead.Listing, DirRead.Claims;
    DirRead.NodeSound(DirEnv(c, store), root, 0, DirRead.START);
    if |s| <= FANOUT {
      PageDecodes(c, s);
    } else {
      var runs := Runs(s, FANOUT);
      var f := Leaves(runs);
      RunsCounted(s, FANOUT);
      RunCountBound(|s|, FANOUT, 58);
      SmallGrow(f);
      StoredRoot(c, Inner(f));
      FanDecodes(c, f, root);
      StoredPages(c, f);
      PagesHeld(c, Visible(store), s);
      forall r | r in runs ensures Stored(c, Leaf(r)) && forall y :: y in r ==> y in s {
        RunOf(s, FANOUT, r);
        var i :| 0 <= i < |runs| && runs[i] == r;
        assert f[i] in f;
      }
      NoEntries(s);
      FanNames(DirEnv(c, store), Visible(store), runs, root.l, s, 0, "", [], DirRead.START.(manifests := 1));
    }
  }

  lemma NoEntries(s: seq<Link>)
    ensures FromEntries([], s)
  {}

  lemma PagesHeld(c: Crypto, store: Store, s: seq<Link>)
    requires |s| > FANOUT && DirStored(c, store, s, FANOUT)
    ensures forall r :: r in Runs(s, FANOUT) ==> Holds(c, store, DirBytes(c, Leaf(r)))
  {
    hide Holds, DirBytes, Fans, Runs;
    var runs := Runs(s, FANOUT);
    var f := Leaves(runs);
    forall r | r in runs ensures Holds(c, store, DirBytes(c, Leaf(r))) {
      var i :| 0 <= i < |runs| && runs[i] == r;
      assert BytesOf(c, f)[i] in BytesOf(c, f);
    }
  }

  // ------------------------------------------------------------------
  // The longest marked name is lost

  lemma {:induction false} LongestMarked(names: seq<string>) returns (i: nat)
    requires exists n :: n in names && StartsWithBom(n)
    ensures i < |names| && StartsWithBom(names[i])
    ensures forall n :: n in names && StartsWithBom(n) ==> |n| <= |names[i]|
  {
    hide StartsWithBom;
    var first, more := names[0], names[1..];
    assert names == [first] + more;
    if exists n :: n in more && StartsWithBom(n) {
      var j := LongestMarked(more);
      i := if StartsWithBom(first) && |first| > |more[j]| then 0 else j + 1;
    } else {
      i := 0;
    }
  }

  /** No listing made of stripped names has the longest marked one. */
  lemma MarkedMissing(l: seq<Link>, s: seq<Link>, name: string)
    requires FromEntries(l, s) && StartsWithBom(name)
    requires forall y :: y in s && y.n.Some? && StartsWithBom(y.n.value) ==> |y.n.value| <= |name|
    ensures FindEntry(l, name) == None
  {
    var r := FindEntry(l, name);
    if r.Some? {
      var y :| y in s && Stripped(r.value, y);
      LongerMark(y.n.value);
    }
  }

  /** A text that is marked when stripped was marked before, and longer. */
  lemma LongerMark(text: string)
    ensures StartsWithBom(StripText(text)) ==> StartsWithBom(text) && |text| > |StripText(text)|
  {}

  lemma ListedName(c: Crypto, folder: Folder, y: Link)
    requires Small(folder) && y in Listed(c, folder) && y.n.Some?
    ensures y.n.value in Names(folder)
  {
    hide Small, Entries, NameSort.Sort, EntryOK, Buildable, Readable;
    SortedOK(c, folder);
    var l := Entries(c, folder);
    var i :| 0 <= i < |l| && l[i] == y;
    EntryAt(c, folder, i);
  }

  /** A folder with a marked name loses the file, or what is below the folder,
      with the longest one. */
  lemma TopMarkLost(c: Crypto, store: Store, folder: Folder, ref: Link) returns (path: Path)
    requires Sound(c) && Small(folder) && !TopPlain(folder) && FolderStored(c, store, folder) && SameRef(ref, FolderRef(c, folder))
    ensures Find(folder, path).Some? && OpenPath(c, store, ref, path) == None
  {
    hide Sound, FolderRef, Load, Listed, Small, FolderStored, StartsWithBom, FromEntries;
    SomeMarked(folder);
    var i := LongestMarked(Names(folder));
    var name := Names(folder)[i];
    path := PathThrough(folder, i);
    if Load(c, store, ref).Some? {
      LoadedNames(c, store, folder, ref);
      forall y | y in Listed(c, folder) && y.n.Some? && StartsWithBom(y.n.value) ensures |y.n.value| <= |name| {
        ListedName(c, folder, y);
      }
      MarkedMissing(Load(c, store, ref).value, Listed(c, folder), name);
    }
  }

  lemma SomeMarked(folder: Folder)
    requires !TopPlain(folder)
    ensures exists n :: n in Names(folder) && StartsWithBom(n)
  {
    hide StartsWithBom;
    var n := Names(folder);
    if f :| f in folder.files && StartsWithBom(f.name) {
      var i :| 0 <= i < |folder.files| && folder.files[i] == f;
      assert n[i] in n;
    } else {
      var d :| d in folder.dirs && StartsWithBom(d.name);
      var i :| 0 <= i < |folder.dirs| && folder.dirs[i] == d;
      assert n[|folder.files| + i] in n;
    }
  }

  lemma PathThrough(folder: Folder, i: nat) returns (path: Path)
    requires Small(folder) && i < |Names(folder)|
    ensures path != [] && path[0] == Names(folder)[i] && Find(folder, path).Some?
  {
    hide Small;
    var name := Names(folder)[i];
    SmallWellFormed(folder);
    NameUsed(folder, i);
    if GetFile(folder.files, name).Some? {
      path := [name];
    } else {
      WellFormedChild(folder, name);
      var below := SomeFile(GetDir(folder.dirs, name).value);
      path := [name] + below;
      assert path[1..] == below;
    }
  }

  /** A folder whose listing is over the limit loses everything in it. */
  lemma HeavyLost(c: Crypto, store: Store, folder: Folder, ref: Link) returns (path: Path)
    requires Sound(c) && Small(folder) && !TopFits(c, folder) && FolderStored(c, store, folder) && SameRef(ref, FolderRef(c, folder))
    ensures Find(folder, path).Some? && OpenPath(c, store, ref, path) == None
  {
    hide Sound, FolderRef, Load, Listed, Small, FolderStored, TopFits, FromEntries;
    SmallWellFormed(folder);
    HeavyNonEmpty(c, folder);
    path := SomeFile(folder);
    if Load(c, store, ref).Some? {
      LoadedNames(c, store, folder, ref);
    }
  }

  lemma HeavyNonEmpty(c: Crypto, folder: Folder)
    requires !TopFits(c, folder)
    ensures NonEmpty(folder)
  {
    if !NonEmpty(folder) {
      assert Entries(c, folder) == [];
      assert FolderTree(c, folder) == Leaf([]);
    }
  }

  /** Any folder with a marked name or a listing over the limit, at any depth,
      loses some file. */
  lemma {:induction false} FileLost(c: Crypto, store: Store, folder: Folder, ref: Link) returns (path: Path)
    requires Sound(c) && Small(folder) && !(NamesPlain(folder) && FolderFits(c, folder))
    requires FolderStored(c, store, folder) && SameRef(ref, FolderRef(c, folder))
    ensures Find(folder, path).Some? && OpenPath(c, store, ref, path) == None
    decreases folder
  {
    hide Sound, FolderRef, Load, Listed, Small, TopPlain, TopFits, SeenLink;
    if !TopPlain(folder) {
      path := TopMarkLost(c, store, folder, ref);
    } else if !TopFits(c, folder) {
      path := HeavyLost(c, store, folder, ref);
    } else {
      var d :| d in folder.dirs && !(NamesPlain(d.folder) && FolderFits(c, d.folder));
      SmallChild(folder, d);
      SmallWellFormed(folder);
      DirFound(folder, d);
      var link := FolderRef(c, d.folder).(n := Some(d.name));
      SeenRef(link);
      var below := FileLost(c, store, d.folder, SeenLink(link));
      path := [d.name] + below;
      assert path[1..] == below;
      FolderLoads(c, store, folder, ref);
      FoundDir(c, folder, d.name);
      RefType(c, d.folder);
    }
  }

  lemma DirFound(folder: Folder, d: NamedDir)
    requires WellFormed(folder) && d in folder.dirs
    ensures GetDir(folder.dirs, d.name) == Some(d.folder)
  {
    hide NameOK;
    var r := GetDir(folder.dirs, d.name);
    var i :| 0 <= i < |folder.dirs| && folder.dirs[i] == d;
    var j :| 0 <= j < |folder.dirs| && folder.dirs[j] == NamedDir(d.name, r.value);
    var n, k := Names(folder), |folder.files|;
    assert n[k + i] == d.name && n[k + j] == d.name;
  }

  ghost function FindData(folder: Folder, path: Path): Option<Bytes> {
    var found := Find(folder, path);
    if found.Some? then Some(found.value.data) else None
  }

  /** A stored folder reads back exactly, path by path, if and only if none of
      its names starts with a byte order mark and none of its listings is over
      the reader's limit. */
  lemma ReadsBackExactly(c: Crypto, store: Store, folder: Folder)
    requires Sound(c) && Small(folder) && FolderStored(c, store, folder)
    ensures (forall path :: OpenPath(c, store, FolderRef(c, folder), path) == FindData(folder, path))
       <==> NamesPlain(folder) && FolderFits(c, folder)
  {
    hide Sound, FolderRef, OpenPath, Find, Small, FolderStored, NamesPlain, FolderFits;
    var ref := FolderRef(c, folder);
    if NamesPlain(folder) && FolderFits(c, folder) {
      forall path ensures OpenPath(c, store, ref, path) == FindData(folder, path) {
        ReadBack(c, store, folder, ref, path);
      }
    } else {
      var path := FileLost(c, store, folder, ref);
      assert OpenPath(c, store, ref, path) != FindData(folder, path);
    }
  }
}
