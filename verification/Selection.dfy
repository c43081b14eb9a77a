/** selectionTree of tinyclient/file-workspace.js: a flat list of selected
    files becomes a tree of folders. */
module Selection {
  import opened Prelude
  import opened Manifest

  const MAX_FILES: nat := 10000
  const MAX_DEPTH: nat := 32
  const MAX_FILE_BYTES: nat := 256 * 1024 * 1024
  const MAX_FOLDER_BYTES: nat := 1024 * 1024 * 1024

  /** A selected file: its relative path, or its bare name if it has none. */
  datatype File = File(path: string, data: Bytes, mime: string)

  type Path = seq<string>

  /** Sub-folders and files in the order they were first met. */
  datatype Folder = Folder(files: seq<NamedFile>, dirs: seq<NamedDir>)
  datatype NamedFile = NamedFile(name: string, file: File)
  datatype NamedDir = NamedDir(name: string, folder: Folder)

  const EMPTY: Folder := Folder([], [])

  datatype Error = BadCount | InvalidPath | FileTooLarge | FolderTooLarge | NameClash | Duplicate

  // ------------------------------------------------------------------
  // Paths

  function Split(s: string): (r: Path)
    ensures |r| > 0 && forall p :: p in r ==> '/' !in p
  {
    if s == "" then [""]
    else if s[0] == '/' then [""] + Split(s[1..])
    else
      var r := Split(s[1..]);
      [[s[0]] + r[0]] + r[1..]
  }

  function Join(p: Path): string {
    if |p| == 0 then "" else if |p| == 1 then p[0] else p[0] + "/" + Join(p[1..])
  }

  lemma {:induction false} JoinSplit(s: string)
    ensures Join(Split(s)) == s
  {
    if s != "" {
      JoinSplit(s[1..]);
      var r, t := Split(s), Split(s[1..]);
      assert s == [s[0]] + s[1..];
      if s[0] == '/' {
        assert r[1..] == t;
      } else {
        assert r[1..] == t[1..];
      }
    }
  }

  /** Different paths split differently. */
  lemma SplitInjective(s: string, t: string)
    requires Split(s) == Split(t)
    ensures s == t
  {
    JoinSplit(s);
    JoinSplit(t);
  }

  predicate CommonRoot(files: seq<File>) {
    files != [] && forall f :: f in files ==> |Split(f.path)| > 1 && Split(f.path)[0] == Split(files[0].path)[0]
  }

  /** Where a file goes, once a root folder shared by all is dropped. */
  function PathOf(files: seq<File>, f: File): (p: Path)
    requires f in files
    ensures p != []
  {
    if CommonRoot(files) then Split(f.path)[1..] else Split(f.path)
  }

  lemma PathsDiffer(files: seq<File>, f: File, g: File)
    requires f in files && g in files && PathOf(files, f) == PathOf(files, g)
    ensures f.path == g.path
  {
    if CommonRoot(files) {
      assert Split(f.path) == [Split(f.path)[0]] + Split(f.path)[1..];
      assert Split(g.path) == [Split(g.path)[0]] + Split(g.path)[1..];
    }
    SplitInjective(f.path, g.path);
  }

  function FolderName(files: seq<File>): string
    requires files != []
  {
    if CommonRoot(files) then Split(files[0].path)[0] else "folder"
  }

  /** A folder that every selected file lies in, by the text of the paths. */
  predicate SharedRoot(files: seq<File>, root: string) {
    files != [] && '/' !in root && forall f :: f in files ==> root + "/" <= f.path
  }

  /** How much of every path is dropped: the shared root and its slash, or
      nothing. */
  ghost predicate Dropped(files: seq<File>, k: nat) {
    || (exists root :: SharedRoot(files, root) && k == |root| + 1)
    || (k == 0 && forall root :: !SharedRoot(files, root))
  }

  /** The tree holds each file at what is left of its path, and nothing else. */
  ghost predicate HoldsFrom(tree: Folder, files: seq<File>, k: nat) {
    && (forall f :: f in files ==> k <= |f.path| && Find(tree, Split(f.path[k..])) == Some(f))
    && forall p :: Find(tree, p).Some? ==> exists f :: f in files && k <= |f.path| && p == Split(f.path[k..])
  }

  lemma {:induction false} SplitRoot(root: string, rest: string)
    requires '/' !in root
    ensures Split(root + "/" + rest) == [root] + Split(rest)
  {
    var s := root + "/" + rest;
    if root == "" {
      assert s[0] == '/' && s[1..] == rest;
    } else {
      SplitRoot(root[1..], rest);
      assert s[0] == root[0] && s[1..] == root[1..] + "/" + rest;
      assert root == [root[0]] + root[1..];
    }
  }

  /** A path of several parts starts with the first of them and a slash. */
  lemma {:induction false} SplitFirst(s: string)
    requires |Split(s)| > 1
    ensures Split(s)[0] + "/" <= s
  {
    if s[0] != '/' {
      SplitFirst(s[1..]);
      assert s == [s[0]] + s[1..];
    }
  }

  lemma RootSplits(root: string, s: string)
    requires '/' !in root && root + "/" <= s
    ensures Split(s) == [root] + Split(s[|root| + 1..])
  {
    var rest := s[|root| + 1..];
    assert s == root + "/" + rest;
    SplitRoot(root, rest);
  }

  /** Comparing first parts finds exactly the shared roots. */
  lemma CommonRootExact(files: seq<File>, root: string)
    requires files != []
    ensures SharedRoot(files, root) <==> CommonRoot(files) && root == Split(files[0].path)[0]
  {
    hide Split;
    assert files[0] in files;
    if SharedRoot(files, root) {
      forall f | f in files ensures |Split(f.path)| > 1 && Split(f.path)[0] == root {
        RootSplits(root, f.path);
      }
    }
    if CommonRoot(files) && root == Split(files[0].path)[0] {
      assert root in Split(files[0].path);
      forall f | f in files ensures root + "/" <= f.path { SplitFirst(f.path); }
    }
  }

  /** Where a file goes, by the text of its path. */
  lemma PathOfExact(files: seq<File>, f: File, k: nat)
    requires f in files && Dropped(files, k)
    ensures k <= |f.path| && PathOf(files, f) == Split(f.path[k..])
  {
    hide Split, CommonRoot;
    if root :| SharedRoot(files, root) && k == |root| + 1 {
      CommonRootExact(files, root);
      RootSplits(root, f.path);
    } else {
      CommonRootExact(files, Split(files[0].path)[0]);
      assert f.path[0..] == f.path;
    }
  }

  lemma FolderNameExact(files: seq<File>, root: string)
    requires files != []
    ensures SharedRoot(files, root) ==> FolderName(files) == root
    ensures (forall r :: !SharedRoot(files, r)) ==> FolderName(files) == "folder"
  {
    hide Split, CommonRoot, SharedRoot;
    CommonRootExact(files, root);
    CommonRootExact(files, Split(files[0].path)[0]);
  }

  lemma HoldsFromRepresents(tree: Folder, files: seq<File>, k: nat)
    requires Represents(tree, files, |files|) && Dropped(files, k)
    ensures HoldsFrom(tree, files, k)
  {
    hide Split, PathOf, WellFormed, Find, Dropped;
    forall f | f in files ensures k <= |f.path| && Find(tree, Split(f.path[k..])) == Some(f) {
      var i :| 0 <= i < |files| && files[i] == f;
      PathOfExact(files, f, k);
    }
    forall p | Find(tree, p).Some? ensures exists f :: f in files && k <= |f.path| && p == Split(f.path[k..]) {
      var i :| 0 <= i < |files| && p == PathOf(files, files[i]);
      PathOfExact(files, files[i], k);
      assert files[i] in files;
    }
  }

  predicate PathOK(p: Path) { |p| <= MAX_DEPTH && forall n :: n in p ==> NameOK(n) }

  /** Neither path is, or lies inside, the other. */
  predicate Apart(p: Path, q: Path) { !(p <= q) && !(q <= p) }

  // ------------------------------------------------------------------
  // Folders

  function GetFile(files: seq<NamedFile>, name: string): (r: Option<File>)
    ensures r.Some? ==> NamedFile(name, r.value) in files
    ensures r == None ==> forall x :: x in files ==> x.name != name
  {
    if files == [] then None else if files[0].name == name then Some(files[0].file) else GetFile(files[1..], name)
  }

  function GetDir(dirs: seq<NamedDir>, name: string): (r: Option<Folder>)
    ensures r.Some? ==> NamedDir(name, r.value) in dirs
    ensures r == None ==> forall x :: x in dirs ==> x.name != name
  {
    if dirs == [] then None else if dirs[0].name == name then Some(dirs[0].folder) else GetDir(dirs[1..], name)
  }

  /** Map.set: keeps the place of a name that is there already. */
  function PutDir(dirs: seq<NamedDir>, name: string, folder: Folder): seq<NamedDir> {
    if dirs == [] then [NamedDir(name, folder)]
    else if dirs[0].name == name then [NamedDir(name, folder)] + dirs[1..]
    else [dirs[0]] + PutDir(dirs[1..], name, folder)
  }

  function Insert(folder: Folder, path: Path, file: File): (r: Result<Folder, Error>)
    requires path != []
    ensures r.Err? ==> r.error == NameClash || r.error == Duplicate
    decreases |path|
  {
    var name := path[0];
    var there := GetDir(folder.dirs, name);
    if |path| == 1 then
      if GetFile(folder.files, name).Some? || there.Some? then Err(Duplicate)
      else Ok(folder.(files := folder.files + [NamedFile(name, file)]))
    else if GetFile(folder.files, name).Some? then Err(NameClash)
    else
      match Insert(if there.Some? then there.value else EMPTY, path[1..], file)
      case Err(e) => Err(e)
      case Ok(child) => Ok(folder.(dirs := PutDir(folder.dirs, name, child)))
  }

  /** The file at a path. */
  function Find(folder: Folder, path: Path): Option<File>
    decreases |path|
  {
    if path == [] then None
    else if |path| == 1 then GetFile(folder.files, path[0])
    else
      match GetDir(folder.dirs, path[0])
      case None => None
      case Some(child) => Find(child, path[1..])
  }

  // ------------------------------------------------------------------
  // Well-formed folders

  function FileNames(files: seq<NamedFile>): (r: seq<string>)
    ensures |r| == |files| && forall i :: 0 <= i < |r| ==> r[i] == files[i].name
  {
    seq(|files|, i requires 0 <= i < |files| => files[i].name)
  }

  function DirNames(dirs: seq<NamedDir>): (r: seq<string>)
    ensures |r| == |dirs| && forall i :: 0 <= i < |r| ==> r[i] == dirs[i].name
  {
    seq(|dirs|, i requires 0 <= i < |dirs| => dirs[i].name)
  }

  function Names(folder: Folder): seq<string> { FileNames(folder.files) + DirNames(folder.dirs) }

  predicate Distinct(names: seq<string>) { forall i, j :: 0 <= i < j < |names| ==> names[i] != names[j] }

  predicate NonEmpty(folder: Folder) { folder.files != [] || folder.dirs != [] }

  /** Every name is valid and used once, whether for a file or for a folder,
      and no sub-folder is empty. */
  ghost predicate WellFormed(folder: Folder) {
    && Distinct(Names(folder))
    && (forall f :: f in folder.files ==> NameOK(f.name) && |f.file.data| <= MAX_FILE_BYTES)
    && forall d :: d in folder.dirs ==> NameOK(d.name) && NonEmpty(d.folder) && WellFormed(d.folder)
  }

  /** Files and bytes in the whole tree. */
  function Count(folder: Folder): nat
    decreases folder, 1
  {
    |folder.files| + CountAll(folder.dirs)
  }

  function CountAll(dirs: seq<NamedDir>): nat
    decreases dirs, 0
  {
    if dirs == [] then 0 else Count(dirs[0].folder) + CountAll(dirs[1..])
  }

  function FileBytes(files: seq<NamedFile>): nat {
    if files == [] then 0 else |files[0].file.data| + FileBytes(files[1..])
  }

  function TreeBytes(folder: Folder): nat
    decreases folder, 1
  {
    FileBytes(folder.files) + TreeBytesAll(folder.dirs)
  }

  function TreeBytesAll(dirs: seq<NamedDir>): nat
    decreases dirs, 0
  {
    if dirs == [] then 0 else TreeBytes(dirs[0].folder) + TreeBytesAll(dirs[1..])
  }

  // ------------------------------------------------------------------
  // Inserting

  lemma {:induction false} PutDirGet(dirs: seq<NamedDir>, name: string, folder: Folder, other: string)
    ensures GetDir(PutDir(dirs, name, folder), other) == if other == name then Some(folder) else GetDir(dirs, other)
  {
    if dirs == [] {
      assert PutDir(dirs, name, folder)[1..] == [];
    } else if dirs[0].name == name {
      assert PutDir(dirs, name, folder)[1..] == dirs[1..];
    } else {
      PutDirGet(dirs[1..], name, folder, other);
      assert PutDir(dirs, name, folder)[1..] == PutDir(dirs[1..], name, folder);
    }
  }

  lemma {:induction false} AddFileGet(files: seq<NamedFile>, name: string, file: File, other: string)
    requires GetFile(files, name) == None
    ensures GetFile(files + [NamedFile(name, file)], other) == if other == name then Some(file) else GetFile(files, other)
  {
    var r := files + [NamedFile(name, file)];
    if files == [] {
      assert r[1..] == [];
    } else {
      assert r[0] == files[0] && r[1..] == files[1..] + [NamedFile(name, file)];
      AddFileGet(files[1..], name, file, other);
    }
  }

  /** A successful insertion changes what is found at its path and nowhere
      else. */
  lemma {:induction false} InsertFind(folder: Folder, path: Path, file: File, q: Path)
    requires path != [] && Insert(folder, path, file).Ok?
    ensures Find(Insert(folder, path, file).value, q) == if q == path then Some(file) else Find(folder, q)
    decreases |path|
  {
    var name := path[0];
    if q != [] {
      assert q == path <==> q[0] == name && q[1..] == path[1..] by {
        assert q == [q[0]] + q[1..] && path == [name] + path[1..];
      }
      if |path| == 1 {
        AddFileGet(folder.files, name, file, q[0]);
      } else {
        var there := GetDir(folder.dirs, name);
        var child := if there.Some? then there.value else EMPTY;
        InsertFind(child, path[1..], file, q[1..]);
        PutDirGet(folder.dirs, name, Insert(child, path[1..], file).value, q[0]);
      }
    }
  }

  /** Something is found below every non-empty folder. */
  lemma {:induction false} SomeFile(folder: Folder) returns (q: Path)
    requires WellFormed(folder) && NonEmpty(folder)
    ensures q != [] && Find(folder, q).Some?
    decreases folder
  {
    if folder.files != [] {
      q := [folder.files[0].name];
    } else {
      var d := folder.dirs[0];
      assert d in folder.dirs;
      var below := SomeFile(d.folder);
      q := [d.name] + below;
      assert q[1..] == below;
    }
  }

  ghost predicate Free(folder: Folder, path: Path) {
    forall q :: Find(folder, q).Some? ==> Apart(q, path)
  }

  lemma WellFormedChild(folder: Folder, name: string)
    requires WellFormed(folder) && GetDir(folder.dirs, name).Some?
    ensures WellFormed(GetDir(folder.dirs, name).value) && NonEmpty(GetDir(folder.dirs, name).value)
  {}

  lemma ApartTail(p: Path, q: Path)
    requires p != [] && q != []
    ensures Apart(p, q) <==> p[0] != q[0] || Apart(p[1..], q[1..])
  {
    assert p == [p[0]] + p[1..] && q == [q[0]] + q[1..];
  }

  /** A file can be inserted exactly when nothing selected so far is, contains
      or lies inside its path. */
  lemma {:induction false} InsertFree(folder: Folder, path: Path, file: File)
    requires path != [] && WellFormed(folder)
    ensures Insert(folder, path, file).Ok? <==> Free(folder, path)
    decreases |path|
  {
    hide WellFormed, Apart;
    var name := path[0];
    if GetFile(folder.files, name).Some? {
      assert Find(folder, [name]).Some? && !Apart([name], path) by { NotApart([name], path); }
    } else {
      var there := GetDir(folder.dirs, name);
      if there.Some? { WellFormedChild(folder, name); } else { EmptyWellFormed(); }
      var child := if there.Some? then there.value else EMPTY;
      if |path| == 1 {
        if there.Some? {
          var q := SomeFile(child);
          assert ([name] + q)[1..] == q;
          assert Find(folder, [name] + q).Some? && !Apart([name] + q, path) by { NotApart(path, [name] + q); }
        } else {
          FreeHere(folder, path);
        }
      } else {
        InsertFree(child, path[1..], file);
        FreeBelow(folder, path, child);
      }
    }
  }

  lemma NotApart(p: Path, q: Path)
    requires p <= q
    ensures !Apart(p, q) && !Apart(q, p)
  {}

  lemma EmptyWellFormed()
    ensures WellFormed(EMPTY)
  {}

  lemma FreeHere(folder: Folder, path: Path)
    requires path != [] && GetFile(folder.files, path[0]) == None && GetDir(folder.dirs, path[0]) == None
    ensures Free(folder, path)
  {
    forall q | Find(folder, q).Some? ensures Apart(q, path) {
      assert q[0] != path[0];
      ApartTail(q, path);
    }
  }

  lemma FreeBelow(folder: Folder, path: Path, child: Folder)
    requires |path| > 1 && GetFile(folder.files, path[0]) == None
    requires GetDir(folder.dirs, path[0]) == Some(child) || (GetDir(folder.dirs, path[0]) == None && child == EMPTY)
    ensures Free(folder, path) <==> Free(child, path[1..])
  {
    hide Apart;
    if Free(folder, path) {
      forall q | Find(child, q).Some? ensures Apart(q, path[1..]) {
        var r := [path[0]] + q;
        assert r[1..] == q;
        assert Find(folder, r).Some?;
        ApartTail(r, path);
      }
    }
    if Free(child, path[1..]) {
      forall q | Find(folder, q).Some? ensures Apart(q, path) {
        ApartTail(q, path);
        if q[0] == path[0] {
          assert Find(child, q[1..]).Some?;
        }
      }
    }
  }

  lemma DirNamesCons(d: NamedDir, dirs: seq<NamedDir>)
    ensures DirNames([d] + dirs) == [d.name] + DirNames(dirs)
  {}

  lemma {:induction false} PutDirNames(dirs: seq<NamedDir>, name: string, folder: Folder)
    ensures DirNames(PutDir(dirs, name, folder))
         == if GetDir(dirs, name).Some? then DirNames(dirs) else DirNames(dirs) + [name]
  {
    hide DirNames;
    if dirs == [] {
      DirNamesCons(NamedDir(name, folder), []);
      NoDirNames();
    } else {
      var d, more := dirs[0], dirs[1..];
      assert dirs == [d] + more;
      DirNamesCons(d, more);
      DirNamesCons(NamedDir(name, folder), more);
      if d.name != name {
        PutDirNames(more, name, folder);
        DirNamesCons(d, PutDir(more, name, folder));
        Associative([d.name], DirNames(more), [name]);
      }
    }
  }

  lemma NoDirNames()
    ensures DirNames([]) == []
  {}

  lemma {:induction false} PutDirMembers(dirs: seq<NamedDir>, name: string, folder: Folder, d: NamedDir)
    requires d in PutDir(dirs, name, folder)
    ensures d == NamedDir(name, folder) || d in dirs
  {
    if dirs != [] {
      assert dirs == [dirs[0]] + dirs[1..];
      if dirs[0].name != name && d != dirs[0] {
        PutDirMembers(dirs[1..], name, folder, d);
      }
    }
  }

  lemma AddName(names: seq<string>, more: seq<string>, name: string)
    requires Distinct(names + more) && name !in names && name !in more
    ensures Distinct(names + [name] + more) && Distinct(names + (more + [name]))
  {
    var a, b := names + [name] + more, names + more + [name];
    forall i, j | 0 <= i < j < |a| ensures a[i] != a[j] {
      var i', j' := if i > |names| then i - 1 else i, if j > |names| then j - 1 else j;
      if i != |names| && j != |names| {
        assert (names + more)[i'] != (names + more)[j'];
      }
    }
    assert names + (more + [name]) == b;
  }

  lemma {:induction false} InsertWellFormed(folder: Folder, path: Path, file: File)
    requires path != [] && WellFormed(folder) && Insert(folder, path, file).Ok?
    requires (forall n :: n in path ==> NameOK(n)) && |file.data| <= MAX_FILE_BYTES
    ensures WellFormed(Insert(folder, path, file).value) && NonEmpty(Insert(folder, path, file).value)
    decreases |path|
  {
    hide WellFormed, NonEmpty, NameOK;
    var name := path[0];
    assert name in path;
    if |path| == 1 {
      AddFileWellFormed(folder, name, file);
    } else {
      var there := GetDir(folder.dirs, name);
      if there.Some? { WellFormedChild(folder, name); } else { EmptyWellFormed(); }
      var child := if there.Some? then there.value else EMPTY;
      InsertWellFormed(child, path[1..], file);
      PutDirWellFormed(folder, name, Insert(child, path[1..], file).value);
    }
  }

  lemma AddFileWellFormed(folder: Folder, name: string, file: File)
    requires WellFormed(folder) && GetFile(folder.files, name) == None && GetDir(folder.dirs, name) == None
    requires NameOK(name) && |file.data| <= MAX_FILE_BYTES
    ensures var r := folder.(files := folder.files + [NamedFile(name, file)]); WellFormed(r) && NonEmpty(r)
  {
    hide NameOK, Distinct;
    var files, dirs := FileNames(folder.files), DirNames(folder.dirs);
    assert FileNames(folder.files + [NamedFile(name, file)]) == files + [name];
    AddName(files, dirs, name);
  }

  lemma PutDirSome(dirs: seq<NamedDir>, name: string, child: Folder)
    ensures PutDir(dirs, name, child) != []
    ensures forall files :: NonEmpty(Folder(files, PutDir(dirs, name, child)))
  {}

  lemma PutDirDistinct(folder: Folder, name: string, child: Folder)
    requires Distinct(Names(folder)) && GetFile(folder.files, name) == None
    ensures Distinct(Names(folder.(dirs := PutDir(folder.dirs, name, child))))
  {
    hide Distinct, PutDir;
    var files, dirs := FileNames(folder.files), DirNames(folder.dirs);
    PutDirNames(folder.dirs, name, child);
    if GetDir(folder.dirs, name) == None { AddName(files, dirs, name); }
  }

  lemma PutDirWellFormed(folder: Folder, name: string, child: Folder)
    requires WellFormed(folder) && GetFile(folder.files, name) == None
    requires NameOK(name) && WellFormed(child) && NonEmpty(child)
    ensures var r := folder.(dirs := PutDir(folder.dirs, name, child)); WellFormed(r) && NonEmpty(r)
  {
    hide NameOK, Distinct, PutDir, NonEmpty;
    PutDirDistinct(folder, name, child);
    PutDirSome(folder.dirs, name, child);
    forall d | d in PutDir(folder.dirs, name, child) ensures NameOK(d.name) && NonEmpty(d.folder) && WellFormed(d.folder) {
      PutDirMembers(folder.dirs, name, child, d);
    }
  }

  lemma {:induction false} PutDirCount(dirs: seq<NamedDir>, name: string, folder: Folder)
    ensures var was := if GetDir(dirs, name).Some? then GetDir(dirs, name).value else EMPTY;
      && CountAll(PutDir(dirs, name, folder)) == CountAll(dirs) - Count(was) + Count(folder)
      && TreeBytesAll(PutDir(dirs, name, folder)) == TreeBytesAll(dirs) - TreeBytes(was) + TreeBytes(folder)
  {
    var r := PutDir(dirs, name, folder);
    if dirs == [] {
      assert r[1..] == [];
    } else if dirs[0].name == name {
      assert r[1..] == dirs[1..];
    } else {
      PutDirCount(dirs[1..], name, folder);
      assert r[1..] == PutDir(dirs[1..], name, folder);
    }
  }

  lemma {:induction false} FileBytesAdd(files: seq<NamedFile>, f: NamedFile)
    ensures FileBytes(files + [f]) == FileBytes(files) + |f.file.data|
  {
    if files == [] {
      assert ([] + [f])[1..] == [];
    } else {
      FileBytesAdd(files[1..], f);
      assert (files + [f])[1..] == files[1..] + [f];
    }
  }

  lemma {:induction false} InsertCount(folder: Folder, path: Path, file: File)
    requires path != [] && Insert(folder, path, file).Ok?
    ensures Count(Insert(folder, path, file).value) == Count(folder) + 1
    ensures TreeBytes(Insert(folder, path, file).value) == TreeBytes(folder) + |file.data|
    decreases |path|
  {
    var name := path[0];
    if |path| == 1 {
      FileBytesAdd(folder.files, NamedFile(name, file));
    } else {
      var there := GetDir(folder.dirs, name);
      var child := if there.Some? then there.value else EMPTY;
      InsertCount(child, path[1..], file);
      PutDirCount(folder.dirs, name, Insert(child, path[1..], file).value);
    }
  }

  // ------------------------------------------------------------------
  // The whole selection

  function Sizes(files: seq<File>): (r: seq<int>)
    ensures |r| == |files| && forall i :: 0 <= i < |r| ==> r[i] == |files[i].data|
  {
    seq(|files|, i requires 0 <= i < |files| => |files[i].data|)
  }

  predicate FileOK(files: seq<File>, f: File)
    requires f in files
  {
    PathOK(PathOf(files, f)) && |f.data| <= MAX_FILE_BYTES
  }

  /** The first n files, each acceptable and no two in each other's way. */
  ghost predicate Fine(files: seq<File>, n: nat)
    requires n <= |files|
  {
    && (forall i :: 0 <= i < n ==> FileOK(files, files[i]))
    && Sum(Sizes(files[..n])) <= MAX_FOLDER_BYTES
    && forall i, j :: 0 <= i < j < n ==> Apart(PathOf(files, files[i]), PathOf(files, files[j]))
  }

  /** The selections that become a folder. */
  ghost predicate Acceptable(files: seq<File>) { 1 <= |files| <= MAX_FILES && Fine(files, |files|) }

  /** The tree holds the first n files, each at its path, and nothing else. */
  ghost predicate Represents(root: Folder, files: seq<File>, n: nat)
    requires n <= |files|
  {
    && WellFormed(root) && Count(root) == n && TreeBytes(root) == Sum(Sizes(files[..n]))
    && (forall i :: 0 <= i < n ==> Find(root, PathOf(files, files[i])) == Some(files[i]))
    && forall p :: Find(root, p).Some? ==> exists i :: 0 <= i < n && p == PathOf(files, files[i])
  }

  lemma RepresentsFree(root: Folder, files: seq<File>, n: nat)
    requires n < |files| && Represents(root, files, n) && Fine(files, n)
    ensures Free(root, PathOf(files, files[n]))
       <==> forall i :: 0 <= i < n ==> Apart(PathOf(files, files[i]), PathOf(files, files[n]))
  {
    hide Apart, PathOf, WellFormed, Find;
    var path := PathOf(files, files[n]);
    if forall i :: 0 <= i < n ==> Apart(PathOf(files, files[i]), path) {
      forall q | Find(root, q).Some? ensures Apart(q, path) {
        var i :| 0 <= i < n && q == PathOf(files, files[i]);
      }
    }
  }

  lemma SumNext(files: seq<File>, n: nat)
    requires n < |files|
    ensures Sum(Sizes(files[..n + 1])) == Sum(Sizes(files[..n])) + |files[n].data|
  {
    var last := [|files[n].data|];
    assert Sizes(files[..n + 1]) == Sizes(files[..n]) + last;
    SumConcat(Sizes(files[..n]), last);
    assert last[1..] == [];
    assert Sum(last) == |files[n].data| + Sum([]);
  }

  lemma {:induction false} SumGrows(files: seq<File>, n: nat, m: nat)
    requires n <= m <= |files|
    ensures Sum(Sizes(files[..n])) <= Sum(Sizes(files[..m]))
    decreases m - n
  {
    if n < m {
      SumNext(files, n);
      SumGrows(files, n + 1, m);
    }
  }

  lemma FinePrefix(files: seq<File>, n: nat)
    requires n <= |files| && Fine(files, |files|)
    ensures Fine(files, n)
  {
    hide Apart, FileOK;
    SumGrows(files, n, |files|);
  }

  lemma FineLast(files: seq<File>, n: nat)
    requires n < |files| && Fine(files, |files|)
    ensures FileOK(files, files[n]) && Sum(Sizes(files[..n + 1])) <= MAX_FOLDER_BYTES
  {
    hide Apart, FileOK;
    SumGrows(files, n + 1, |files|);
    assert files[..|files|] == files;
  }

  /** One more file. */
  lemma Step(root: Folder, files: seq<File>, n: nat)
    requires n < |files| && Represents(root, files, n) && Fine(files, n)
    requires FileOK(files, files[n]) && Sum(Sizes(files[..n + 1])) <= MAX_FOLDER_BYTES
    ensures var r := Insert(root, PathOf(files, files[n]), files[n]);
      && (r.Ok? <==> Fine(files, n + 1))
      && (r.Ok? ==> Represents(r.value, files, n + 1))
  {
    hide Apart, PathOf, WellFormed, Insert, Find, NameOK, Free;
    var path := PathOf(files, files[n]);
    InsertFree(root, path, files[n]);
    RepresentsFree(root, files, n);
    var r := Insert(root, path, files[n]);
    if r.Ok? {
      InsertWellFormed(root, path, files[n]);
      InsertCount(root, path, files[n]);
      SumNext(files, n);
      StepFind(root, files, n);
    }
  }

  lemma StepFind(root: Folder, files: seq<File>, n: nat)
    requires n < |files| && Represents(root, files, n) && Fine(files, n + 1)
    requires Insert(root, PathOf(files, files[n]), files[n]).Ok?
    ensures var g := Insert(root, PathOf(files, files[n]), files[n]).value;
      && (forall i :: 0 <= i < n + 1 ==> Find(g, PathOf(files, files[i])) == Some(files[i]))
      && forall p :: Find(g, p).Some? ==> exists i :: 0 <= i < n + 1 && p == PathOf(files, files[i])
  {
    hide PathOf, WellFormed, Insert, Find, FileOK;
    var path := PathOf(files, files[n]);
    var g := Insert(root, path, files[n]).value;
    forall i | 0 <= i < n + 1 ensures Find(g, PathOf(files, files[i])) == Some(files[i]) {
      InsertFind(root, path, files[n], PathOf(files, files[i]));
      if i < n { assert Apart(PathOf(files, files[i]), path); }
    }
    forall p | Find(g, p).Some? ensures exists i :: 0 <= i < n + 1 && p == PathOf(files, files[i]) {
      InsertFind(root, path, files[n], p);
      if p == path {
        assert p == PathOf(files, files[n]);
      } else {
        var i :| 0 <= i < n && p == PathOf(files, files[i]);
      }
    }
  }

  lemma NothingSelected(files: seq<File>)
    ensures Represents(EMPTY, files, 0) && Fine(files, 0)
  {
    hide WellFormed, PathOf, FileOK, Apart, Sizes;
    EmptyWellFormed();
    NoSizes(files);
  }

  lemma NoSizes(files: seq<File>)
    ensures Sum(Sizes(files[..0])) == 0
  {
    assert files[..0] == [];
    assert Sizes([]) == [];
  }

  // ------------------------------------------------------------------
  // The conditions, by the text of the paths

  /** Neither path is, or lies inside, the other. */
  predicate Separate(a: string, b: string) { a != b && !(a + "/" <= b) && !(b + "/" <= a) }

  predicate Placeable(path: string) {
    |Split(path)| <= 32 && forall i :: 0 <= i < |Split(path)| ==> Usable(Split(path)[i])
  }

  /** One to 10000 files of at most 256 MiB each and 1 GiB in all, with usable
      names at most 32 deep, none in the way of another; k is what is dropped of
      every path. */
  ghost predicate Selectable(files: seq<File>, k: nat) {
    && 1 <= |files| <= 10000 && Sum(Sizes(files)) <= 1073741824
    && (forall f :: f in files ==> k <= |f.path| && Placeable(f.path[k..]) && |f.data| <= 268435456)
    && forall i, j :: 0 <= i < j < |files| && k <= |files[i].path| && k <= |files[j].path| ==> Separate(files[i].path[k..], files[j].path[k..])
  }

  lemma PlaceableExact(path: string)
    ensures PathOK(Split(path)) <==> Placeable(path)
  {
    hide Usable, NameOK, Split;
    var p := Split(path);
    forall n ensures NameOK(n) <==> Usable(n) { NameExact(n); }
    if PathOK(p) { forall i | 0 <= i < |p| ensures Usable(p[i]) { assert p[i] in p; } }
  }

  lemma {:induction false} PrefixExact(a: string, b: string)
    ensures Split(a) <= Split(b) <==> a == b || a + "/" <= b
  {
    if Split(a) <= Split(b) { PrefixText(a, b); }
    if a == b || a + "/" <= b { TextPrefix(a, b); }
  }

  lemma {:induction false} PrefixText(a: string, b: string)
    requires Split(a) <= Split(b)
    ensures a == b || a + "/" <= b
  {
    if |Split(a)| == |Split(b)| {
      SplitInjective(a, b);
    } else {
      var p, q := Split(a), Split(b)[|Split(a)|..];
      assert Split(b) == p + q;
      JoinConcat(p, q);
      JoinSplit(a);
      JoinSplit(b);
    }
  }

  lemma {:induction false} JoinConcat(p: Path, q: Path)
    requires p != [] && q != []
    ensures Join(p + q) == Join(p) + "/" + Join(q)
  {
    assert (p + q)[0] == p[0] && (p + q)[1..] == p[1..] + q;
    if |p| > 1 { JoinConcat(p[1..], q); }
  }

  lemma {:induction false} TextPrefix(a: string, b: string)
    requires a == b || a + "/" <= b
    ensures Split(a) <= Split(b)
  {
    if a != b {
      var rest := b[|a| + 1..];
      assert b == a + "/" + rest;
      SplitConcat(a, rest);
    }
  }

  /** A character before a split text. */
  function Attach(c: char, p: Path): Path
    requires p != []
  {
    if c == '/' then [""] + p else [[c] + p[0]] + p[1..]
  }

  lemma SplitStep(s: string)
    requires s != ""
    ensures Split(s) == Attach(s[0], Split(s[1..]))
  {}

  lemma AttachConcat(c: char, p: Path, q: Path)
    requires p != []
    ensures Attach(c, p + q) == Attach(c, p) + q
  {
    assert (p + q)[0] == p[0] && (p + q)[1..] == p[1..] + q;
  }

  lemma {:induction false} SplitConcat(a: string, rest: string)
    ensures Split(a + "/" + rest) == Split(a) + Split(rest)
  {
    hide Attach, Split;
    var s := a + "/" + rest;
    SplitStep(s);
    if a == "" {
      assert s[1..] == rest;
      EmptyParts(Split(rest));
    } else {
      SplitConcat(a[1..], rest);
      assert s[1..] == a[1..] + "/" + rest;
      SplitStep(a);
      AttachConcat(a[0], Split(a[1..]), Split(rest));
    }
  }

  lemma EmptyParts(p: Path)
    requires p != []
    ensures Split("") + p == Attach('/', p)
  {}

  lemma ApartExact(a: string, b: string)
    ensures Apart(Split(a), Split(b)) <==> Separate(a, b)
  {
    hide Split;
    PrefixExact(a, b);
    PrefixExact(b, a);
  }

  /** What the loop tests of split paths is what the text of the paths says. */
  lemma SelectableExact(files: seq<File>, k: nat)
    requires Dropped(files, k)
    ensures Acceptable(files) <==> Selectable(files, k)
  {
    hide Dropped, PathOK, Placeable, Apart, Separate, PathOf, Split;
    assert files[..|files|] == files;
    forall f | f in files ensures k <= |f.path| && (FileOK(files, f) <==> Placeable(f.path[k..]) && |f.data| <= 268435456) {
      PathOfExact(files, f, k);
      PlaceableExact(f.path[k..]);
    }
    forall i, j | 0 <= i < j < |files|
      ensures k <= |files[i].path| && k <= |files[j].path|
      ensures Apart(PathOf(files, files[i]), PathOf(files, files[j])) <==> Separate(files[i].path[k..], files[j].path[k..])
    {
      PathOfExact(files, files[i], k);
      PathOfExact(files, files[j], k);
      ApartExact(files[i].path[k..], files[j].path[k..]);
    }
    hide FileOK;
    forall i | 0 <= i < |files| ensures files[i] in files {}
    if Selectable(files, k) { assert Fine(files, |files|); }
  }

  /** selectionTree: succeeds exactly on the acceptable selections, and the
      tree then holds each file at its path and nothing else. */
  method SelectionTree(files: seq<File>) returns (r: Result<(Folder, string), Error>)
    ensures r.Ok? <==> Acceptable(files)
    ensures forall k :: Dropped(files, k) ==> (r.Ok? <==> Selectable(files, k))
    ensures r == Err(BadCount) <==> |files| == 0 || |files| > 10000
    ensures r.Ok? ==> Represents(r.value.0, files, |files|)
    ensures r.Ok? ==> forall k :: Dropped(files, k) ==> HoldsFrom(r.value.0, files, k)
    ensures r.Ok? ==> forall root :: SharedRoot(files, root) ==> r.value.1 == root
    ensures r.Ok? && (forall root :: !SharedRoot(files, root)) ==> r.value.1 == "folder"
  {
    hide Represents, Fine, PathOf, FolderName, Insert, HoldsFrom, Dropped, SharedRoot, Selectable;
    forall k: nat | Dropped(files, k) ensures Acceptable(files) <==> Selectable(files, k) { SelectableExact(files, k); }
    if files == [] || |files| > MAX_FILES {
      return Err(BadCount);
    }
    var root, total := EMPTY, 0;
    NothingSelected(files);
    for n := 0 to |files|
      invariant Represents(root, files, n) && Fine(files, n) && total == Sum(Sizes(files[..n]))
    {
      var file := files[n];
      if Fine(files, |files|) { FineLast(files, n); }
      var path := PathOf(files, file);
      if !PathOK(path) {
        return Err(InvalidPath);
      }
      if |file.data| > MAX_FILE_BYTES {
        return Err(FileTooLarge);
      }
      SumNext(files, n);
      total := total + |file.data|;
      if total > MAX_FOLDER_BYTES {
        return Err(FolderTooLarge);
      }
      Step(root, files, n);
      var next := Insert(root, path, file);
      if next.Err? {
        if Fine(files, |files|) { FinePrefix(files, n + 1); }
        return Err(next.error);
      }
      root := next.value;
    }
    forall k: nat | Dropped(files, k) ensures HoldsFrom(root, files, k) { HoldsFromRepresents(root, files, k); }
    forall r ensures SharedRoot(files, r) ==> FolderName(files) == r { FolderNameExact(files, r); }
    FolderNameExact(files, "");
    return Ok((root, FolderName(files)));
  }
}
