# Verified models of tiny's client core

These Dafny modules model the parts of the tiny relay client that have the most
to get wrong, and prove what the design relies on. Nothing here is executed; the
claims are about the models, which follow the code branch by branch.

* **Manifests** (`MsgPack`, `Canonical`, `MsgPackIO`, `Manifest`, `ManifestIO`,
  `ManifestSize`, `MsgPackFormat`, `MsgPackFloat`, `ManifestFormat`, `Legible`): the
  MessagePack writer and reader, the BUD-16 and BUD-17 manifest codec, and both formats
  byte by byte.
* **Hash trees** (`Grouping`, `Forest`, `Blobs`, `FileRead`, `FileBuild`,
  `FileIO`, `DirRead`, `DirTree`, `NameSort`, `DirBuild`, `DirIO`): bottom-up
  builders and bounded readers over a content-addressed store.
* **The file workspace** (`Selection`, `Workspace`, `WorkspaceRead`,
  `WorkspaceMarks`, `WorkspaceHeavy`, `WorkspaceIO`): a selected folder is stored and read back.
* **bech32 and NIP-19** (`Digits`, `Regroup`, `Checksum`, `Bech32`,
  `Bech32Vectors`, `Decimal`, `Nip19`).
* **Protocols** (`Signer`, `SignerRuns`, `Chat`, `ChatSession`, `Upload`,
  `RpcSubs`): each is a machine whose steps are what runs without interruption,
  and the results are about every interleaving, every reply and every clock.
* **Views** (`Diff`, `DiffNumbers`, `Review`, `RoomEdits`): diff numbering,
  placement of review replies, and message edits.

## How to read the models

* `Prelude`, `Text`, `Sorting` and `Trimming` hold shared vocabulary. Text is a sequence of Unicode
  scalar values; bytes are numbers from 0 to 255.
* Where the program loops or updates objects, a method with the same control
  flow is proved equal to a function, and the properties are lemmas about that
  function. Modules whose names end in `IO` hold most of these methods.
* SHA-256 and AES-GCM are parameters (`Blobs.Crypto`). What is assumed of them
  is stated where it is used: decryption undoes encryption and adds sixteen
  bytes (`Sound`), and no two of the blobs at hand share a name
  (`Collisionless`, `NoCollision`).
* A server is a function from the number of requests made so far and a name to
  an optional answer, so it may answer the same request differently each time.
  `FromStore` is the server that has a fixed store.
* `Acyclic` says that no manifest's name occurs inside its own expansion. The
  readers' sets of announced names need it; without it they report a cycle, and
  the round trips say exactly that. Workspace trees are at most two manifests
  high and need no such assumption.

## Findings

* **Byte order marks.** The text decoder drops a leading U+FEFF, while the name
  check and the writer accept it. `WorkspaceMarks.ReadsBackExactly` gives the
  exact condition for a stored folder to read back, and
  `WorkspaceMarks.FileLost` the file that is lost otherwise.
* **Long media types.** Media types of up to 65535 bytes are stored, but a
  listing of more than 64 MiB is not read. The same theorem has the exact
  condition; `WorkspaceHeavy.HeavyUnlisted` is such a folder.
* **Depth.** Metadata may be validated at a depth the reader refuses.
  `Manifest.ManifestRoundTrip` gives the exact condition and
  `Legible.DeepMetadata` the manifests that are written and never read.
* **Long identifiers.** `Nip19.IdentifierSurvives`: packing writes the length
  modulo 256, so an identifier survives exactly up to 255 bytes.
* **Names ending in white space.** `DiffNumbers.NameReads`: the diff scanner
  trims them with the tab Git appends.
* **Colons in a reply's side.** `Review.PlacedOwn` and `Review.ColonMisplaces`:
  the row key is ambiguous when the side contains a colon.
* **Edits of the same second.** The batch view keeps the first of two equally
  new edits, the live view the last. `RoomEdits.AgreeExactly`: the views agree on
  every order and split of the edits if and only if the newest ones say the same.

## Model

| member | source | states |
|---|---|---|
| `MsgPackIO.WriteInteger` | tinyclient/blossom-manifests.js:61-82 | writes the shortest form of every safe integer, of either sign and every width, and refuses all others |
| `MsgPackIO.WriteText` | tinyclient/blossom-manifests.js:96-104 | writes a text's UTF-8 bytes behind the shortest head, and fails exactly from 65536 bytes on |
| `MsgPackIO.WriteBin` | tinyclient/blossom-manifests.js:105-111 | writes a byte string behind the shortest head, and fails exactly from 65536 bytes on |
| `MsgPackIO.WriteValue` | tinyclient/blossom-manifests.js:83-131 | appends the canonical encoding of any value, and fails exactly when some part of it has no form |
| `MsgPackIO.WriteFields` | tinyclient/blossom-manifests.js:119-129 | an object's bytes are those of its fields in the order of their keys' UTF-8 bytes, whatever order they were inserted in |
| `Canonical.KeysInByteOrder` | tinyclient/blossom-manifests.js:119-129 | in a written object every key comes before every later one by the first differing UTF-8 byte, and no field is lost |
| `MsgPackIO.Reader.U8` | tinyclient/blossom-manifests.js:140-143 | takes the next byte, or fails exactly at the end of the input |
| `MsgPackIO.Reader.N` | tinyclient/blossom-manifests.js:144-149 | takes exactly the next bytes, or fails exactly when there are too few |
| `MsgPackIO.ReadValue` | tinyclient/blossom-manifests.js:160-216 | the offset-advancing reader agrees with the reading relation on every input, valid or not |
| `MsgPackIO.ReadMap` | tinyclient/blossom-manifests.js:151-159 | reads n fields, refusing keys that are not text or that repeat |
| `MsgPack.ReadEncoded` | tinyclient/blossom-manifests.js:61-216 | reading an encoded value followed by any bytes succeeds exactly when no part is too deep and no two keys of an object differ only in a leading byte order mark, and then consumes exactly the encoding and returns the value without leading byte order marks |
| `MsgPack.StripClean` | tinyclient/blossom-manifests.js:13 | a value survives the text decoder exactly when none of its texts starts with a byte order mark |
| `MsgPackFormat.IntFormat` | tinyclient/blossom-manifests.js:61-82 | a safe integer below five bytes takes the shortest form of the format, byte by byte, on both sides of every boundary |
| `MsgPackFormat.LongIntFormat` | tinyclient/blossom-manifests.js:67-81 | beyond four bytes an integer is CF or D3 and eight bytes whose value is the number, in two's complement |
| `MsgPackFormat.ConstantFormats` | tinyclient/blossom-manifests.js:84-86 | null, false and true are C0, C2 and C3 |
| `MsgPackFormat.HeadFormats` | tinyclient/blossom-manifests.js:96-125 | the heads of texts, byte strings, arrays and maps, byte by byte, on both sides of every boundary |
| `MsgPackFormat.IntForms` | tinyclient/blossom-manifests.js:171-196 | integers are read in every form of the format, also longer ones than the writer takes, and exactly the unsafe ones are refused |
| `MsgPackFloat.WholeExact` | tinyclient/blossom-manifests.js:196-204 | four or eight bytes read as the whole number n exactly when n is the real number IEEE 754 gives them |
| `MsgPackFloat.FloatForms` | tinyclient/blossom-manifests.js:196-204 | a float is read as the safe whole number it stands for, and kept as bytes when it stands for none |
| `MsgPackFloat.FiniteExact` | tinyclient/blossom-manifests.js:88 | the finite floats are exactly those that stand for a real number |
| `Canonical.ReadWritten` | tinyclient/blossom-manifests.js:83-216 | what was written reads back as the canonical value exactly when it is clean and shallow enough |
| `Canonical.FieldOrderIrrelevant` | tinyclient/blossom-manifests.js:119-129 | objects with the same fields in any order encode to the same bytes |
| `Canonical.BytesDetermine` | tinyclient/blossom-manifests.js:83-131 | two readable values have the same bytes exactly when they differ only in field order |
| `Text.TextRoundTrip` | tinyclient/blossom-manifests.js:12-13 | decoding an encoded text gives the text without a leading byte order mark |
| `Text.Utf8RoundTrip` | tinyclient/blossom-manifests.js:12 | the UTF-8 decoder inverts the encoder on every text |
| `Text.FromUtf8Exact` | tinyclient/blossom-manifests.js:12-13 | the UTF-8 decoder accepts exactly the encodings, each as the text it encodes |
| `Text.Utf8Examples` | tinyclient/blossom-manifests.js:12 | the encodings of U+0041, U+2262, U+0391, U+D55C, U+65E5, U+233B4 and U+FEFF from RFC 3629, section 7 |
| `Text.MarkDropped` | tinyclient/blossom-manifests.js:13 | the text decoder drops exactly a leading EF BB BF |
| `Text.BeforeTotal` | tinyclient/blossom-manifests.js:41-46 | utf8cmp is antisymmetric and zero exactly on equal texts |
| `Text.BeforeTransitive` | tinyclient/blossom-manifests.js:41-46 | the order by UTF-8 bytes is transitive |
| `Text.BeforeExact` | tinyclient/blossom-manifests.js:41-46 | a text comes before another exactly when, at the first byte where their UTF-8 forms differ, it has the smaller one, or it is a proper prefix |
| `Text.Utf8Cmp` | tinyclient/blossom-manifests.js:41-46 | the comparison loop returns a negative, zero or positive number in exactly these cases |
| `ManifestIO.WriteLink` | tinyclient/blossom-manifests.js:300-315 | appends a link's fields in their fixed order, and fails exactly when its metadata has no form |
| `ManifestIO.Encode` | tinyclient/blossom-manifests.js:293-321 | encodeManifest returns the canonical manifest of exactly the valid nodes that fit 16 MiB |
| `ManifestIO.Decode` | tinyclient/blossom-manifests.js:322-334 | decodeManifest accepts exactly the byte strings that denote a valid node within the limits |
| `ManifestFormat.LinkLayout` | tinyclient/blossom-manifests.js:300-315 | a link's bytes: a map of its digest under h, key under k, metadata under m, name under n, size under s and type under t, in this order and without what it lacks |
| `ManifestFormat.NodeLayout` | tinyclient/blossom-manifests.js:293-321 | a manifest's bytes: a map of its links under l, as an array, and its type under t; at most 174 links and 16777216 bytes |
| `ManifestFormat.BoundsLayout` | tinyclient/blossom-manifests.js:412-418 | a fanout link's metadata is the map of count, first and last |
| `ManifestFormat.TypeLayout` | tinyclient/file-workspace.js:126-145 | a file's metadata is the map of its type, which is application/octet-stream when it has none |
| `ManifestFormat.FieldLimits` | tinyclient/blossom-manifests.js:218-240 | metadata has at most 64 fields with keys of at most 256 bytes |
| `ManifestFormat.ItemLimits` | tinyclient/blossom-manifests.js:218-240 | lists in metadata have at most 256 items |
| `Manifest.NameExact` | tinyclient/blossom-manifests.js:31-39 | the valid names are those of 1 to 1024 bytes without slashes and zero characters that are not dot entries |
| `ManifestFormat.LinkRules` | tinyclient/blossom-manifests.js:241-255 | which links a file, a directory and a fanout may hold: the table of types, and names exactly in directories |
| `ManifestFormat.FanoutRules` | tinyclient/blossom-manifests.js:272-288 | a fanout link is valid exactly when its metadata says a count from 1 on and a usable first and last name in the order of their UTF-8 bytes |
| `ManifestFormat.NodeRules` | tinyclient/blossom-manifests.js:256-291 | a manifest is valid exactly when its links are, there are at most 174 and a directory's names are in the order of their UTF-8 bytes |
| `Manifest.ManifestRoundTrip` | tinyclient/blossom-manifests.js:293-334 | a manifest decodes to the node it was made from, up to metadata key order, exactly when no text starts with a byte order mark, metadata is shallow enough and fanout counts are at most 10^9 |
| `Manifest.DecodeStripped` | tinyclient/blossom-manifests.js:293-334 | a stored manifest decodes exactly when no metadata is too deep, no two keys fall together and the node without leading byte order marks is valid, and then to that node |
| `Manifest.CanonNodeOK` | tinyclient/blossom-manifests.js:256-291 | reordering metadata keys never changes whether a node is valid |
| `ManifestSize.SmallNodeEncodes` | tinyclient/blossom-manifests.js:293-321 | a valid node with metadata of at most 90000 bytes a link always has an encoding, with a bound on its length |
| `Legible.PageSeen` | tinyclient/blossom-manifests.js:293-334 | a stored page whose names have no leading byte order mark and whose metadata can be read decodes to the same entries, up to key order and marks in the metadata |
| `Legible.SeenReadable` | tinyclient/blossom-manifests.js:293-334 | entries without leading byte order marks anywhere are seen as they are, up to key order |
| `Legible.DeepMetadata` | tinyclient/blossom-manifests.js:161 | metadata of k nested arrays is valid and written for k up to 64, reads back for k up to 60, and is refused from 61 on |
| `Blobs.OpenBlob` | tinyclient/blossom-encryption.js:27-56 | opening a stored blob with its link's key gives back the plaintext |
| `Blobs.PutHolds` | tinyclient/file-workspace.js:65-90 | adding a blob never displaces another, as long as no two plaintexts share a name |
| `Grouping.LevelsLeast` | tinyclient/blossom-manifests.js:366-381 | grouping stops after the least number h of rounds with n <= maxLinks^(h+1) |
| `Grouping.RunsShrink` | tinyclient/blossom-manifests.js:366-381 | each round of grouping leaves fewer links, so the loop ends |
| `FileBuild.LinkSizesExact` | tinyclient/blossom-manifests.js:370-378 | every inner link's size is the number of bytes below it |
| `FileBuild.GrowStored` | tinyclient/blossom-manifests.js:357-384 | every manifest of a file of safe size has an encoding, at every fanout |
| `Forest.GrowUniform` | tinyclient/blossom-manifests.js:366-381 | every chunk ends up below the same number of manifests |
| `FileBuild.FileRoundTrip` | tinyclient/blossom-manifests.js:357-563 | reading a stored file gives its chunks in order, or reports a cycle exactly when a manifest's name occurs inside its own expansion |
| `FileBuild.DepthSuffices` | tinyclient/blossom-manifests.js:10 | up to 2^65 chunks fit the reader's depth at every fanout |
| `FileIO.BuildFile` | tinyclient/blossom-manifests.js:357-384 | buildFile returns the root and the manifests of the grouped tree, the root last, and fails only on a bad fanout, an oversized chunk or an unsafe total |
| `FileIO.BuildLevel` | tinyclient/blossom-manifests.js:367-380 | one round links each run of at most maxLinks under one manifest, with the sum of its sizes |
| `FileIO.ReadWhole` | tinyclient/blossom-manifests.js:509-563 | readFile agrees with the bounded walk on every root and every server |
| `FileIO.WalkNode` | tinyclient/blossom-manifests.js:523-555 | the counters, the announced names and the parts after a node are those of the walk, on every path |
| `FileIO.WalkLink` | tinyclient/blossom-manifests.js:527-554 | likewise for one link, including each way of failing |
| `FileRead.ReadFileBounded` | tinyclient/blossom-manifests.js:509-563 | at most 174 requests for each allowed manifest, whatever the server answers and however the walk ends |
| `FileRead.ReadFileSuccess` | tinyclient/blossom-manifests.js:509-563 | a file that was read has exactly the size its root claims, within the byte limit |
| `FileRead.LinksSuccess` | tinyclient/blossom-manifests.js:527-554 | each subtree that was read has exactly the size its link claims |
| `FileRead.ReadFileDetermined` | tinyclient/blossom-manifests.js:509-563 | any two servers and limits that let a read finish give the same bytes, or exhibit a digest collision |
| `NameSort.NeighboursFound` | tinyclient/blossom-manifests.js:389-403 | equal neighbours after sorting mean repeated names before it, and only then |
| `NameSort.SortAscends` | tinyclient/blossom-manifests.js:389-401 | distinct names come out in the order of their UTF-8 bytes, every one before every later one by the first differing byte, each entry once |
| `NameSort.SortUnique` | tinyclient/blossom-manifests.js:389-401 | the order entries arrive in does not change the result |
| `DirBuild.RootBelow` | tinyclient/blossom-manifests.js:405-443 | the tree holds exactly the sorted entries, in order |
| `DirBuild.RootHeight` | tinyclient/blossom-manifests.js:410-443 | the height is the number of grouping rounds of the entries |
| `DirBuild.BuildSucceeds` | tinyclient/blossom-manifests.js:385-446 | valid entries with metadata of at most 90000 bytes build at every fanout from 2 to 174 |
| `DirBuild.DirectoryRoundTrip` | tinyclient/blossom-manifests.js:385-508 | resolving a stored directory gives its entries, as a reader sees them, every name before every later one by the first differing UTF-8 byte, or reports a cycle exactly when a manifest's name occurs inside its own expansion; the last stored manifest is the root |
| `DirIO.BuildDirectory` | tinyclient/blossom-manifests.js:385-446 | succeeds exactly when names are distinct and every manifest has an encoding, and returns the root and the manifests in order |
| `DirIO.BuildPages` | tinyclient/blossom-manifests.js:410-422 | each page's link states its exact count, first and last name and size |
| `DirIO.BuildLevel` | tinyclient/blossom-manifests.js:423-442 | likewise for each fanout, from the claims of the links below it |
| `DirIO.ClaimsAdd` | tinyclient/blossom-manifests.js:428-439 | adding up the claims of the links below gives the count, names and size of the entries below |
| `DirIO.Resolve` | tinyclient/blossom-manifests.js:457-508 | resolveDirectory agrees with the bounded walk on every root and every server |
| `DirIO.ResolveNode` | tinyclient/blossom-manifests.js:468-506 | the counters and entries after a node are those of the walk, on every path |
| `DirIO.ResolveLink` | tinyclient/blossom-manifests.js:484-500 | likewise for one link, including each way of failing |
| `DirTree.ReadForest` | tinyclient/blossom-manifests.js:480-502 | a run of stored trees is read entry by entry, with exactly its cost |
| `DirRead.ResolveBounded` | tinyclient/blossom-manifests.js:457-508 | at most 174 requests for each allowed manifest, whatever the server answers and however the walk ends |
| `DirRead.ResolveSound` | tinyclient/blossom-manifests.js:457-508 | success means a listing of valid entries with usable names in the order of their UTF-8 bytes, as many as the root claims and no more than the limit, and the closing order check never fails |
| `DirRead.AscendingExact` | tinyclient/blossom-manifests.js:503-504 | comparing neighbours is enough: every name comes before every later one by the first differing UTF-8 byte |
| `DirRead.LinksSound` | tinyclient/blossom-manifests.js:480-505 | each subtree's claimed count, first and last name are true, and the collected entries stay sorted |
| `DirRead.ResolveDetermined` | tinyclient/blossom-manifests.js:457-508 | any two servers and limits that let a walk finish give the same entries, or exhibit a digest collision |
| `Selection.SelectionTree` | tinyclient/file-workspace.js:38-63 | accepts exactly the selections of 1 to 10000 files of at most 256 MiB each and 1 GiB in all, at most 32 deep, with usable names, where no path is or lies inside another; the tree then holds each file at its path less a first folder shared by all, and nothing else, and is named by that folder or, without one, folder |
| `Selection.CommonRootExact` | tinyclient/file-workspace.js:43 | comparing first parts finds exactly the folder r for which every path starts with r and a slash |
| `Selection.PathOfExact` | tinyclient/file-workspace.js:46 | a file goes to the parts of what is left of its path behind the shared folder and its slash |
| `Selection.SelectableExact` | tinyclient/file-workspace.js:38-60 | the tests on split paths mean what the text of the paths says, also that no path is or lies inside another |
| `Selection.SplitRoot` | tinyclient/file-workspace.js:42 | a path behind a first folder splits into that folder and the rest |
| `Selection.JoinSplit` | tinyclient/file-workspace.js:42 | joining the parts of a split path gives the path back |
| `Selection.PathsDiffer` | tinyclient/file-workspace.js:42-46 | files with different paths are placed at different paths, also once a shared root is dropped |
| `Selection.InsertFree` | tinyclient/file-workspace.js:52-60 | a file is accepted exactly when nothing selected so far is, contains or lies inside its path |
| `Selection.InsertFind` | tinyclient/file-workspace.js:52-60 | an accepted file changes what is found at its path and nowhere else |
| `Selection.InsertWellFormed` | tinyclient/file-workspace.js:47-60 | no name is ever both a file and a folder, names are valid and used once, and no folder is empty |
| `Selection.InsertCount` | tinyclient/file-workspace.js:48-60 | each file adds one to the count and its size to the total |
| `WorkspaceIO.Session.StoreEncrypted` | tinyclient/file-workspace.js:65-90 | the reference is the same whether the blob is uploaded now or the session remembers it, and a remembered blob is not uploaded again |
| `WorkspaceIO.Session.StoreChunks` | tinyclient/file-workspace.js:108-116 | the slices are stored in order and linked with their sizes; an empty file is one empty slice |
| `WorkspaceIO.Session.StoreFile` | tinyclient/file-workspace.js:106-124 | returns the reference of the file's tree with everything below it stored, from any session state |
| `WorkspaceIO.StoreDirectory` | tinyclient/file-workspace.js:126-145 | returns the reference of the folder's tree with everything below it stored, from any session state; for a selection within the limits it fails only when an upload does or a media type is too long to write |
| `WorkspaceIO.RootTotal` | tinyclient/file-workspace.js:96-104 | the root reference's size is the sum over the folder's entries |
| `Workspace.ChunksJoin` | tinyclient/file-workspace.js:108-116 | a file's slices join to its bytes, are at most 2 MiB each and at most 128 |
| `Workspace.ChunkAt` | tinyclient/file-workspace.js:108-116 | chunk i holds the file's bytes from i times 2097152 on, up to the next multiple or the end |
| `Workspace.FileReadBack` | tinyclient/file-workspace.js:791-818 | a stored file downloads to its bytes within the reader's limits |
| `WorkspaceRead.FolderTotal` | tinyclient/file-workspace.js:96-104 | a folder's reference claims exactly the bytes of the files below it |
| `WorkspaceRead.FolderRoomy` | tinyclient/file-workspace.js:758-763 | listing a stored folder of up to 10000 entries meets no cycle and no limit of the reader but the one on bytes |
| `WorkspaceRead.ShortTypesFit` | tinyclient/file-workspace.js:758-763 | with media types of at most 5000 bytes every listing stays within the limit on bytes |
| `WorkspaceRead.FolderLoads` | tinyclient/file-workspace.js:723-763 | opening a stored folder lists its entries, when its names have no leading byte order mark and its listing is within the limit on bytes |
| `WorkspaceRead.ReadBack` | tinyclient/file-workspace.js:723-818 | below a stored folder a path opens exactly when a file was selected there, and gives its bytes, under the condition ReadsBackExactly shows to be exact |
| `WorkspaceRead.SelectionReadBack` | tinyclient/file-workspace.js:38-145 | storing an accepted selection and opening a path gives the selected file's bytes at the text of its path, less a first folder shared by all, and nothing anywhere else |
| `WorkspaceRead.NotBoth` | tinyclient/file-workspace.js:52-60 | no name in a folder is both a file and a folder |
| `WorkspaceMarks.ReadsBackExactly` | tinyclient/file-workspace.js:29-145 | a stored folder reads back exactly, path by path, if and only if no name starts with a byte order mark and no listing is over the reader's limit |
| `WorkspaceMarks.FileLost` | tinyclient/file-workspace.js:29-145 | a folder with a marked name or a listing over the limit, at any depth, always loses some file |
| `WorkspaceHeavy.HeavyUnlisted` | tinyclient/file-workspace.js:126-145 | eleven hundred files with media types of 65000 bytes are accepted and stored, and their listing is over the limit |
| `Regroup.ConvertBits` | tinyclient/connections.go:46-61 | the unmasked 64-bit accumulator gives the exact five-bit words of a payload of any length |
| `Regroup.ConvertBitsBrowser` | tinyclient/tiny.js:75-85 | the 32-bit accumulator gives the same words |
| `Regroup.RegroupWords` | tinyclient/open.go:112-126 | the decoder's accumulator gives the exact bytes, and refuses exactly wrong padding |
| `Regroup.WordsThenBytes` | tinyclient/connections.go:46-61 | regrouping to words and back gives the payload |
| `Regroup.BytesThenWords` | tinyclient/open.go:112-126 | accepted words are the words of the bytes they give |
| `Checksum.StepLinear` | tinyclient/connections.go:63-76 | the checksum step is linear over GF(2) in state and symbol |
| `Checksum.StepKernel` | tinyclient/connections.go:64 | no nonzero 30-bit state is shifted away by a zero symbol |
| `Checksum.FoldInjective` | tinyclient/connections.go:63-76 | equal suffixes never bring two different states together |
| `Checksum.BurstChanges` | tinyclient/connections.go:63-76 | strings that differ inside a window of at most six symbols end in different states |
| `Checksum.ChecksumExact` | tinyclient/connections.go:33-37 | the appended checksum is the only six-symbol tail that verifies |
| `Checksum.PolymodServer` | tinyclient/connections.go:63-76 | the 64-bit loop computes the checksum state and it stays below 2^30 |
| `Checksum.PolymodBrowser` | tinyclient/tiny.js:64-73 | the 32-bit loop computes the fold over any numbers, and on five-bit words the same state, below 2^30 |
| `Bech32.EncodeServer` | tinyclient/connections.go:22-44 | produces the bech32 string of any prefix and payload |
| `Bech32.EncodeBrowser` | tinyclient/tiny.js:74-90 | produces the server's string on every prefix without characters beyond U+00FF, and on others the string with the checksum over UTF-16 units |
| `Bech32.ExpandLoop` | tinyclient/open.go:129-139 | expands the prefix into high and low parts |
| `Bech32.DecodeServer` | tinyclient/open.go:95-127 | agrees with the decoding relation on every string |
| `Bech32.DecodeExact` | tinyclient/open.go:95-127 | the decoder accepts a string exactly when it is the encoding, of at most 5000 bytes, of what it returns |
| `Bech32.DecodeInjective` | tinyclient/open.go:95-127 | no two strings decode alike |
| `Bech32.BurstDetected` | tinyclient/open.go:100-111 | replacing one to six neighbouring characters after the separator by others of the alphabet makes the decoder reject, at any length |
| `Bech32Vectors.LongString` | tinyclient/connections.go:19-76 | the encoder gives, and the decoder reads back, the string of BIP-173 that has every letter in order: prefix abcdef and the twenty bytes whose words count from 0 to 31 |
| `Bech32Vectors.ShortString` | tinyclient/connections.go:19-76 | the same for a12uel5l, the string of BIP-173 without data |
| `Nip19.TlvFields` | tinyclient/open.go:79-92 | returns the first value of each type, up to the first truncated one |
| `Nip19.IdentifierSurvives` | tinyclient/connections.go:78-110 | an identifier survives packing exactly when it is at most 255 bytes |
| `Nip19.NaddrRoundTrip` | tinyclient/connections.go:96-110 | opening an address link leads to /a/, the kind in decimal, the author's key in hexadecimal and the escaped identifier |
| `Nip19.NaddrLayout` | tinyclient/connections.go:96-110 | an address packs its identifier under type 0, a relay under 1, the key under 2 and the kind under 3 in four big-endian bytes |
| `Nip19.PlainOpens` | tinyclient/open.go:45-54 | an npub link leads to its author and a note link to its event |
| `Nip19.NeventOpens` | tinyclient/open.go:63-67 | an nevent link leads to the event under type 0, whatever else it packs |
| `Nip19.HexOpens` | tinyclient/open.go:38-40 | a bare event id in hexadecimal leads to the event |
| `Nip19.SchemeOpens` | tinyclient/open.go:31-36 | a scheme before an identifier changes nothing, in either case |
| `Nip19.SlashesOpen` | tinyclient/open.go:29-37 | white space and slashes around an identifier change nothing |
| `Nip19.HexDigits` | tinyclient/connections.go:84 | the sixteen digits in order |
| `Nip19.HexLower` | tinyclient/connections.go:84 | hexadecimal is read alike in either case |
| `Nip19.NprofileRoundTrip` | tinyclient/connections.go:83-93 | opening a profile link leads to that author |
| `Nip19.HexRoundTrip` | tinyclient/connections.go:84 | hexadecimal text of bytes reads back as the bytes |
| `SignerRuns.Bridge.CloseRemote` | tinyclient/bridge.js:261-267 | rejects what waits on the signer, forgets it and closes it |
| `SignerRuns.Bridge.LoseRemote` | tinyclient/bridge.js:308-315 | clears and closes the signer only if it is the active one |
| `SignerRuns.Bridge.SetSigner` | tinyclient/bridge.js:340-352 | installs the signer under a new generation and closes the one it replaces |
| `SignerRuns.Bridge.SignedOut` | tinyclient/bridge.js:473-476 | ends the generation, closes the active signer and clears all three references |
| `SignerRuns.Bridge.Conclude` | tinyclient/bridge.js:405-421 | installs the candidate of an unovertaken reconnect, closes it otherwise, and on failure clears the connection of the same generation |
| `SignerRuns.Bridge.ReturnCall` | tinyclient/bridge.js:328-336 | a call succeeds exactly if answered while its signer is still active |
| `Signer.StepKeeps` | tinyclient/bridge.js:261-425 | every step keeps: the references agree, the active signer is open, one task holds the slot, candidates are held, active or closed, and calls wait only on the active signer |
| `SignerRuns.AlwaysSafe` | tinyclient/bridge.js:261-425 | the same in every state of every interleaving |
| `SignerRuns.NeverInstalls` | tinyclient/bridge.js:365-408 | a reconnect begun before a manual connection or a sign-out never installs its candidate, however the run goes on |
| `SignerRuns.ActiveThroughout` | tinyclient/bridge.js:308-352 | a signer active at both ends of a run was active in every state between |
| `SignerRuns.GuardedCall` | tinyclient/bridge.js:316-339 | a guarded call that succeeds had the active signer throughout |
| `SignerRuns.ReconnectInstalls` | tinyclient/bridge.js:365-408 | a reconnect during which the generation did not change ends with its candidate as the one active signer, open, under the next generation, with the previous signer closed and its waiting calls rejected |
| `SignerRuns.FirstConnect` | tinyclient/bridge.js:365-408 | from a fresh page a reconnect that loads, connects and proves a candidate makes it the active signer |
| `SignerRuns.ManualEffect` | tinyclient/bridge.js:340-352 | a manual connection is active at once, with the previous signer closed and its waiting calls rejected |
| `SignerRuns.LogOutEffect` | tinyclient/bridge.js:473-476 | signing out leaves no signer, closes the active one and rejects what waits on it |
| `SignerRuns.DropEffect` | tinyclient/bridge.js:308-315 | losing the active signer closes it and leaves none; losing another changes nothing |
| `SignerRuns.FailEffect` | tinyclient/bridge.js:409-421 | a failed reconnect closes its candidate, and clears the connection exactly when the generation is still its own |
| `SignerRuns.CallEffect` | tinyclient/bridge.js:316-339 | a call ends well exactly when it was answered and its signer is still active; a failure that is not a refusal drops the signer |
| `SignerRuns.StartEffect` | tinyclient/bridge.js:316-330 | a call on the active signer waits where closing will find it; on another it fails at once |
| `Chat.ComputeDeleted` | tinyclient/chat.js:102-113 | the loop finds exactly the rumors their own authors deleted |
| `Chat.GroupVotes` | tinyclient/chat.js:135-145 | groups the reactions that count by message, and by person and mark |
| `Chat.CountMarks` | tinyclient/chat.js:147-151 | counts how many keys carry each mark |
| `Chat.ComputeReactions` | tinyclient/chat.js:133-153 | lists exactly the messages and marks with a reaction, and each count is the number of distinct authors with that mark; a reaction counts for the last rumor its e and q tags refer to, for a message of kind 14 or 15 whose people include everybody the reaction names, and an empty one or a plus is a heart |
| `Chat.TargetExact` | tinyclient/chat.js:132 | the target is the value of the last tag that refers to a rumor, and there is none exactly when no tag does |
| `Chat.TakesPartExact` | tinyclient/chat.js:14 | those who take part are the author and everybody a p tag names by a key of 64 hexadecimal digits |
| `Chat.TalliesUnique` | tinyclient/chat.js:146-151 | the tallies determine the index |
| `ChatSession.Conversation.Deleted` | tinyclient/chat.js:102-115 | answers as a fresh computation would, whatever was cached |
| `ChatSession.Conversation.Reactions` | tinyclient/chat.js:133-155 | the counts it returns are a fresh computation's, whatever was cached |
| `ChatSession.Conversation.CacheRumor` | tinyclient/chat.js:49-53 | adds a new rumor at the end exactly when it is a deletion, a reaction, or a message between the account and one other person |
| `ChatSession.AdmitsExact` | tinyclient/chat.js:49-51 | two people of whom one is the account means the account and exactly one peer |
| `ChatSession.Conversation.Keep` | tinyclient/chat.js:176 | a delivered rumor is added at the end, or replaces the one with its id in place |
| `ChatSession.DeliveredCoherent` | tinyclient/chat.js:176 | delivering a rumor that came back first changes nothing |
| `ChatSession.AlwaysFresh` | tinyclient/chat.js:17-179 | in every interleaving a current conversation holds only its own account's rumors, and a cache whose version is the number of rumors is a fresh computation |
| `ChatSession.OnlyGrows` | tinyclient/chat.js:17-63 | between two moments at which a conversation is current its rumors only grow |
| `Upload.Plan` | tinyclient/blossom-upload.js:80-102 | lists one request for each chunk, at its offset |
| `Upload.SlicesJoin` | tinyclient/blossom-upload.js:85-99 | the chunks join to the blob |
| `Upload.RequestAt` | tinyclient/blossom-upload.js:85-99 | request i carries the bytes from its offset to the next |
| `Upload.Uploader.Retry` | tinyclient/blossom-upload.js:194-213 | at most retries + 1 requests; an answer below 500 is final, a lost or later one is asked for again while tries last, and an accepted answer comes whenever there is one within them |
| `Upload.Uploader.Skips` | tinyclient/blossom-upload.js:266-270 | a chunk is skipped exactly when it is recorded as 204 and the last accepted one is less than a minute ago |
| `Upload.Uploader.SendChunk` | tinyclient/blossom-upload.js:272-299 | 200, 201 and 204 are accepted and any other status fails with it; a chunk is recorded only as answered, and a completed upload only with a descriptor of this hash and size |
| `Upload.Uploader.Pass` | tinyclient/blossom-upload.js:262-301 | a pass skips only chunks the state records as 204, within a minute of the last accepted one, and sends none of these again when the clock stays within the minute; sends only planned requests, and completes against a server that keeps what it accepts |
| `Upload.Uploader.Multipart` | tinyclient/blossom-upload.js:239-308 | at most two passes; state made for another hash, size, chunk size, URL or type, or a minute old, is never used to skip, and fresh state of this upload always is; resolves only with a matching descriptor; completes against a patient server that keeps chunks during the second pass |
| `Upload.Uploader.PutWhole` | tinyclient/blossom-upload.js:229-237 | at most retries + 1 requests, each of the whole blob; resolves only with a matching descriptor; leaves the state alone |
| `Upload.Uploader.Upload` | tinyclient/blossom-upload.js:229-308 | whether or not the server takes PATCH: resolves only with a descriptor of this hash and size, within the request bounds, and completes against a server that takes the blob |
| `Diff.ScanLine` | tinyclient/review.go:34-71 | each branch of the scanner, on any line in any state |
| `Diff.DiffLines` | tinyclient/review.go:29-73 | scans a diff line by line; rows are numbered by their place and carry their line |
| `Diff.HeaderReads` | tinyclient/review.go:78-95 | reads back the starting numbers a hunk header was printed with |
| `DiffNumbers.HunkNumbered` | tinyclient/review.go:53-64 | every context and removed row carries its old line, every context and added row its new line, with the numbers the hunk implies, and no other row is numbered; added rows are shown as ins, removed ones as del, the header as b and the rest plain |
| `DiffNumbers.DiffNumbered` | tinyclient/review.go:29-113 | wherever a file's part stands in a diff, each row below its heading names the file, is shown as its change, is numbered on exactly the sides its change is on, with the change's line numbers, and carries those lines of the file's two texts |
| `DiffNumbers.NameReads` | tinyclient/review.go:99-113 | a printed name is read back exactly when it does not end in white space |
| `DiffNumbers.FileNamed` | tinyclient/review.go:44-52 | a part is named by its new name, and a deleted file's by its old one |
| `DiffNumbers.QuotedReads` | tinyclient/review.go:99-113 | a quoted name is the name it quotes, and one that cannot be unquoted is kept |
| `DiffNumbers.OutsideShown` | tinyclient/review.go:38-70 | outside a hunk nothing is numbered, and rows that start with a plus or a minus are shown as ins and del |
| `Review.BuildIndex` | tinyclient/review.go:156-173 | each key leads to the last row with that file, side and line |
| `Review.Partition` | tinyclient/review.go:174-187 | although the thread is written into the array being read, it ends as the unplaced replies in order, and each row has its replies in order |
| `Review.PlacedOnce` | tinyclient/review.go:174-187 | every reply is in exactly one place, as often as it arrived |
| `Review.OrderKept` | tinyclient/review.go:174-187 | the thread and each row keep the order of arrival |
| `Review.ReverseComments` | tinyclient/review.go:188-194 | swapping ends in place reverses a row's comments |
| `Review.ReviewComments` | tinyclient/review.go:154-196 | each row's comments are in reverse order of arrival, and the rest is the thread |
| `Review.PlacedOwn` | tinyclient/review.go:181-200 | a placed reply names a file and a line from 1 on, and stands under the row it names exactly when its side has no colon in it |
| `Review.NamedPlaced` | tinyclient/review.go:161-187 | a reply that names a numbered row is placed |
| `Review.PlacedExact` | tinyclient/review.go:156-187 | a reply whose side has no colon goes under a row exactly when that is the last row with its file, its side and its line |
| `Review.ColonMisplaces` | tinyclient/review.go:198-200 | a reply whose side contains a colon can land under another file's row |
| `RoomEdits.EditSummary` | tinyclient/rooms.go:158-181 | finds the newest edit of each message by each key, the first of equally new ones |
| `RoomEdits.RenderedMessage.RoomEdit` | tinyclient/rooms.js:446-466 | applies an edit by the author that is not older than what is shown |
| `RoomEdits.LiveRefinesBatch` | tinyclient/rooms.js:446-466 | from any batch-rendered start, live edits in any order and repetition lead to the batch view of them all, when the newest edits that may show agree |
| `RoomEdits.AgreeExactly` | tinyclient/rooms.js:446-466 | the views agree on every order and every split of the same edits if and only if the newest edits agree |
| `RoomEdits.DistinctTimesAgree` | tinyclient/rooms.go:325-329 | edits of different times always agree |
| `RoomEdits.LiveAllCurrent` | tinyclient/rooms.js:446-466 | in any order, the live view shows the message as written when no edit may show, and one of the newest edits otherwise |
| `RoomEdits.BatchOrder` | tinyclient/rooms.go:158-181 | the batch view does not depend on the order edits are listed in, when the newest agree |
| `RoomEdits.OthersIgnored` | tinyclient/rooms.go:325-329 | nobody else's edit ever shows |
| `RoomEdits.EditExact` | tinyclient/rooms.js:446-466 | alone, an event changes a message, in both views, exactly when it is of kind 40003, by the author, not older, and its last e tag names the message |
| `RoomEdits.TieSplits` | tinyclient/rooms.js:446-466 | when two newest edits disagree, listing one first and receiving the other last makes the views differ, whatever lies between |
| `RpcSubs.Registry.Replace` | tinyagent/main.go:255-262 | the new context takes the name and the one it replaces is cancelled |
| `RpcSubs.Registry.Remove` | tinyagent/main.go:225-237 | removes a name and cancels its context, if it has one |
| `RpcSubs.Registry.StopEverything` | tinyagent/main.go:302-309 | cancels every registered context and empties the registry |
| `RpcSubs.StepKeeps` | tinyagent/main.go:104-309 | every step keeps each context cancelled, registered or held, each registered or held one alive, with one name or one holder, and the semaphore equal to the other requests under way |
| `RpcSubs.NothingLeaks` | tinyagent/main.go:104-309 | in every interleaving no context is lost, a registered one is alive and has one name, at most 32 other requests run at once, and after stopAll every context is cancelled, so the final wait is only for streams whose contexts are |
| `RpcSubs.StepCancels` | tinyagent/main.go:225-309 | a step cancels only the context its handler replaced or took out, or every registered one at the end |
| `RpcSubs.StepRegisters` | tinyagent/main.go:225-309 | only a subscriber or an unsubscriber of a name changes what is registered under it, and keeps hold of what was there |
| `RpcSubs.SlotFree` | tinyagent/main.go:104-140 | while requests are read, one is accepted exactly when it subscribes or fewer than 32 others run |

## Left out

- SHA-256, AES-GCM and HKDF are parameters, with the assumptions named above.
- ManifestIO.Decode: floats that are not whole are opaque bytes, so a four-byte
  float is not the eight-byte one it equals; whole ones are integers, and -0 is 0.
- Strings with unpaired surrogates: text is a sequence of scalar values, so the
  well-formedness checks of the name validators are true by construction.
- buildFile's form with bare hash strings for chunks, and stores that answer
  with a name of their own choosing.
- flattenDirectory, which walks nodes already joined in memory.
- Nip19.NaddrRoundTrip: `url.PathEscape` is a parameter, and lower-casing maps
  ASCII letters only; encoded strings contain no others.
- Selection.SelectionTree: the nested Maps are a value that is rebuilt along a
  path, so aliasing between folders is not modelled.
- WorkspaceIO.Session.StoreFile: manifests are stored after the build instead of
  during it, in the same order; the build does not depend on the store's answers.
- Signer.StepKeeps: timers, stored credentials, the native provider and status
  messages are choices of the environment; window.nostr is not tracked.
- ChatSession.AlwaysFresh: paging, cursors and relay delivery are left to the
  order of steps; a rumor's id is taken to determine the rumor.
- Upload.Uploader.Upload: whether the server takes PATCH is a choice of the
  environment, not read from a probe; request headers are not modelled; a request
  that fails before it is sent counts as sent.
- Diff.DiffLines: `strconv.Unquote` is a parameter, so names Git quotes are read
  as well as it reads them.
- Review.ReviewComments: markup and comment links are not modelled.
- RoomEdits.LiveRefinesBatch: join and leave notices are not modelled, and
  attachments count as part of the content.
- RpcSubs.NothingLeaks: that a stream ends once its context is cancelled is the
  relay client's part and not modelled.
- HTML templates, custom elements, the service worker, theming and navigation
  draw the pages; Markdown rendering rewrites text with regular expressions;
  feeds, proxying, archives and recovery pass data between other systems; the MCP
  allowlist, approvals, wiki and social views copy fields or decide on one test.
