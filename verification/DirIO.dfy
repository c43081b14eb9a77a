/** buildDirectory and resolveDirectory of tinyclient/blossom-manifests.js as
    they run: loops over pages and levels, counters and announced names. */
module DirIO {
  import opened Prelude
  import opened Text
  import opened MsgPack
  import opened Manifest
  import opened Blobs
  import opened Grouping
  import opened Forest
  import opened DirRead
  import opened DirTree
  import opened DirBuild
  import ManifestIO
  import MsgPackIO
  import NameSort
  import Sorting
  import FileRead

  datatype BuildError = InvalidMaxLinks | DuplicateEntry | NotEncodable

  datatype Built = Built(root: Node, manifests: seq<Bytes>)

  /** storeNode, and the link its caller makes of what was stored. */
  method StoreNode(c: Crypto, node: Node, claim: Bounds, size: int, ghost t: Dir) returns (r: Option<(Bytes, Link)>)
    requires node == DirNode(c, t) && ManifestIO.MetasPlain(node.l)
    requires claim == Summary(Below(t)) && size == Total(Below(t))
    ensures r.Some? <==> EncodeManifest(node).Some?
    ensures r.Some? ==> r.value == (DirBytes(c, t), DirLink(c, t))
  {
    hide EncodeManifest, Below, Summary, DirNode, Total;
    var out := ManifestIO.Encode(node);
    if out == None {
      return None;
    }
    var page := out.value;
    return Some((page, Link(BlobHash(c, page), BlobKey(c, page), Some(Meta(claim)), None, size, node.t)));
  }

  lemma FanPlain(c: Crypto, kids: seq<Dir>)
    ensures ManifestIO.MetasPlain(DirLinks(c, kids))
  {
    hide DirLink, Below, Summary;
    forall b: Bounds ensures MsgPackIO.Plain(Meta(b)) {}
  }

  lemma LinksTail(c: Crypto, kids: seq<Dir>)
    requires kids != []
    ensures DirLinks(c, kids) == [DirLink(c, kids[0])] + DirLinks(c, kids[1..])
  {
    hide DirLink;
  }

  lemma {:induction false} ClaimsCount(c: Crypto, kids: seq<Dir>)
    ensures Sum(Claims(DirLinks(c, kids))) == |BelowAll(kids)|
  {
    hide DirLink, DirLinks, Below, BelowAll, Claim;
    if kids == [] {
      BelowNone();
    } else {
      ClaimsCount(c, kids[1..]);
      ClaimExact(c, kids[0]);
      BelowSplit(kids);
      LinksTail(c, kids);
      assert Claims(DirLinks(c, kids))[1..] == Claims(DirLinks(c, kids[1..]));
    }
  }

  lemma {:induction false} ClaimsTotal(c: Crypto, kids: seq<Dir>)
    ensures Total(DirLinks(c, kids)) == Total(BelowAll(kids))
  {
    hide DirLink, DirLinks, Below, BelowAll, Total;
    if kids == [] {
      BelowNone();
      assert DirLinks(c, kids) == [];
    } else {
      var t, more := kids[0], kids[1..];
      ClaimsTotal(c, more);
      BelowSplit(kids);
      LinksTail(c, kids);
      OneTotal(DirLink(c, t));
      TotalConcat([DirLink(c, t)], DirLinks(c, more));
      TotalConcat(Below(t), BelowAll(more));
    }
  }

  lemma {:induction false} ClaimsEnds(c: Crypto, kids: seq<Dir>)
    requires FullAll(kids) && kids != []
    ensures BelowAll(kids) != []
    ensures Claim(DirLinks(c, kids)[0]).first == FirstName(BelowAll(kids))
    ensures Claim(DirLinks(c, kids)[|kids| - 1]).last == LastName(BelowAll(kids))
  {
    hide DirLink, DirLinks, Below, BelowAll, Claim, Full;
    var t, more := kids[0], kids[1..];
    assert t in kids;
    ClaimExact(c, t);
    FullBelow(t);
    BelowSplit(kids);
    LinksTail(c, kids);
    if more == [] {
      BelowNone();
      assert Below(t) + [] == Below(t);
    } else {
      forall k | k in more ensures Full(k) { assert k in kids; }
      ClaimsEnds(c, more);
      LastConcat(Below(t), BelowAll(more));
    }
  }

  /** The claim a fanout link makes is put together from the links below. */
  lemma ClaimsAdd(c: Crypto, kids: seq<Dir>)
    requires FullAll(kids) && kids != []
    ensures var l := DirLinks(c, kids);
      && Bounds(Sum(Claims(l)), Claim(l[0]).first, Claim(l[|l| - 1]).last) == Summary(BelowAll(kids))
      && Total(l) == Total(BelowAll(kids))
  {
    hide DirLink, DirLinks, Below, BelowAll, Claim, Full, Claims, Total;
    ClaimsCount(c, kids);
    ClaimsTotal(c, kids);
    ClaimsEnds(c, kids);
  }

  lemma LastConcat(a: seq<Link>, b: seq<Link>)
    requires b != []
    ensures LastName(a + b) == LastName(b)
  {}

  lemma OneTotal(x: Link)
    ensures Total([x]) == x.s
  {
    assert FileRead.Sizes([x]) == [x.s];
    assert [x.s][1..] == [];
    assert Sum([x.s]) == x.s + Sum([]);
  }

  lemma {:induction false} RunCovers<T>(s: seq<T>, n: nat, x: T)
    requires n > 0 && x in s
    ensures exists i :: 0 <= i < |Runs(s, n)| && x in Runs(s, n)[i]
    decreases |s|
  {
    if |s| > n {
      assert s == s[..n] + s[n..];
      if x in s[..n] {
        assert x in Runs(s, n)[0];
      } else {
        RunCovers(s[n..], n, x);
        var i :| 0 <= i < |Runs(s[n..], n)| && x in Runs(s[n..], n)[i];
        assert Runs(s, n)[i + 1] == Runs(s[n..], n)[i];
      }
    } else {
      assert x in Runs(s, n)[0];
    }
  }

  /** A root can only be stored over trees that are. */
  lemma {:induction false} StoredBelow(c: Crypto, f: seq<Dir>, max: nat)
    requires max >= 2 && Stored(c, Inner(Grow(f, max)))
    ensures StoredAll(c, f)
    decreases |f|
  {
    hide EncodeManifest, DirNode;
    if |f| > max {
      RunsCounted(f, max);
      RunsShrink(|f|, max);
      StoredBelow(c, InnerRuns(f, max), max);
      forall t | t in f ensures Stored(c, t) {
        RunCovers(f, max, t);
        var i :| 0 <= i < |Runs(f, max)| && t in Runs(f, max)[i];
        assert InnerRuns(f, max)[i] in InnerRuns(f, max);
      }
    }
  }

  lemma OneMore(c: Crypto, f: seq<Dir>, t: Dir)
    ensures DirLinks(c, f + [t]) == DirLinks(c, f) + [DirLink(c, t)]
    ensures BytesOf(c, f + [t]) == BytesOf(c, f) + [DirBytes(c, t)]
  {
    hide DirLink, DirBytes;
  }

  /** The pages: runs of at most `max` sorted entries. */
  method BuildPages(c: Crypto, sorted: seq<Link>, max: nat) returns (r: Option<(seq<Link>, seq<Bytes>)>)
    requires max > 0 && ManifestIO.MetasPlain(sorted) && NameSort.HasNames(sorted)
    ensures r.Some? <==> StoredAll(c, Leaves(Runs(sorted, max)))
    ensures r.Some? ==> r.value == (DirLinks(c, Leaves(Runs(sorted, max))), BytesOf(c, Leaves(Runs(sorted, max))))
  {
    hide EncodeManifest, DirLink, DirLinks, DirBytes, BytesOf, Below, Cut, Runs, Summary, MsgPackIO.Plain;
    var level, pages: seq<Bytes> := [], [];
    var i := 0;
    ghost var done: seq<seq<Link>> := [];
    CutStart(sorted, max);
    NoTrees(c);
    while i < |sorted|
      invariant i <= |sorted| && Cut(sorted, max, i, done)
      invariant StoredAll(c, Leaves(done)) && level == DirLinks(c, Leaves(done)) && pages == BytesOf(c, Leaves(done))
    {
      var j := if i + max < |sorted| then i + max else |sorted|;
      var l := sorted[i..j];
      CutNext(sorted, max, i, done, j);
      OnePage(l);
      PageSummary(l);
      var stored := StoreNode(c, Node(l, 2), Bounds(|l|, l[0].n.value, l[|l| - 1].n.value), Total(l), Leaf(l));
      if stored == None {
        assert Leaves(Runs(sorted, max))[|done|] == Leaf(l);
        assert Leaf(l) in Leaves(Runs(sorted, max));
        return None;
      }
      assert Leaves(done + [l]) == Leaves(done) + [Leaf(l)];
      OneMore(c, Leaves(done), Leaf(l));
      level, pages, i := level + [stored.value.1], pages + [stored.value.0], j;
      done := done + [l];
    }
    CutDone(sorted, max, done);
    return Some((level, pages));
  }

  lemma NoTrees(c: Crypto)
    ensures DirLinks(c, []) == [] && BytesOf(c, []) == [] && Leaves<seq<Link>>([]) == []
  {}

  lemma PageSummary(l: seq<Link>)
    requires l != [] && NameSort.HasNames(l)
    ensures l[0].n.Some? && l[|l| - 1].n.Some?
    ensures Summary(l) == Bounds(|l|, l[0].n.value, l[|l| - 1].n.value)
  {
    assert l[0] in l && l[|l| - 1] in l;
  }

  lemma InnerOf(f: seq<Dir>, max: nat, i: nat)
    requires max > 0 && i < |Runs(f, max)|
    ensures InnerRuns(f, max)[i] == Inner(Runs(f, max)[i]) && Inner(Runs(f, max)[i]) in InnerRuns(f, max)
  {
    assert InnerRuns(f, max)[i] in InnerRuns(f, max);
  }

  lemma SliceLinks(c: Crypto, f: seq<Dir>, i: nat, j: nat)
    requires i <= j <= |f|
    ensures DirLinks(c, f)[i..j] == DirLinks(c, f[i..j])
  {
    hide DirLink;
  }

  /** One fanout manifest over a run of links, its claim put together from
      theirs. */
  method StoreFan(c: Crypto, l: seq<Link>, ghost run: seq<Dir>) returns (r: Option<(Bytes, Link)>)
    requires l == DirLinks(c, run) && FullAll(run) && run != []
    ensures r.Some? <==> EncodeManifest(DirNode(c, Inner(run))).Some?
    ensures r.Some? ==> r.value == (DirBytes(c, Inner(run)), DirLink(c, Inner(run)))
  {
    hide EncodeManifest, DirLink, DirLinks, DirBytes, Below, BelowAll, Full, Claim, Claims, Total, Summary;
    FanPlain(c, run);
    ClaimsAdd(c, run);
    BelowInner(run);
    r := StoreNode(c, Node(l, 3), Bounds(Sum(Claims(l)), Claim(l[0]).first, Claim(l[|l| - 1]).last), Total(l), Inner(run));
  }

  ghost function Inners(runs: seq<seq<Dir>>): (r: seq<Dir>)
    ensures |r| == |runs| && forall i :: 0 <= i < |r| ==> r[i] == Inner(runs[i])
  {
    seq(|runs|, i requires 0 <= i < |runs| => Inner(runs[i]))
  }

  lemma InnersOfRuns(f: seq<Dir>, max: nat)
    requires max > 0
    ensures Inners(Runs(f, max)) == InnerRuns(f, max)
  {}

  method BuildLevel(c: Crypto, level: seq<Link>, max: nat, ghost f: seq<Dir>) returns (r: Option<(seq<Link>, seq<Bytes>)>)
    requires max > 0 && level == DirLinks(c, f) && StoredAll(c, f) && FullAll(f)
    ensures r.Some? <==> StoredAll(c, InnerRuns(f, max))
    ensures r.Some? ==> r.value == (DirLinks(c, InnerRuns(f, max)), BytesOf(c, InnerRuns(f, max)))
  {
    hide EncodeManifest, DirLink, DirLinks, DirNode, DirBytes, BytesOf, Cut, Runs, Full, InnerRuns, Inners, StoredAll;
    var next, pages: seq<Bytes> := [], [];
    var i := 0;
    ghost var done: seq<seq<Dir>> := [];
    CutStart(f, max);
    NoTrees(c);
    NoInners(c);
    while i < |level|
      invariant i <= |level| && Cut(f, max, i, done)
      invariant StoredAll(c, Inners(done)) && next == DirLinks(c, Inners(done)) && pages == BytesOf(c, Inners(done))
    {
      var j := if i + max < |level| then i + max else |level|;
      CutNext(f, max, i, done, j);
      ghost var run := f[i..j];
      SliceLinks(c, f, i, j);
      var stored := StoreFan(c, level[i..j], run);
      InnerStored(c, f, run);
      if stored == None {
        InnerOf(f, max, |done|);
        NotStored(c, InnerRuns(f, max), Inner(run));
        return None;
      }
      InnersMore(c, done, run);
      OneMore(c, Inners(done), Inner(run));
      next, pages, i := next + [stored.value.1], pages + [stored.value.0], j;
      done := done + [run];
    }
    CutDone(f, max, done);
    InnersOfRuns(f, max);
    return Some((next, pages));
  }

  lemma NoInners(c: Crypto)
    ensures Inners([]) == [] && StoredAll(c, [])
  {}

  lemma InnersMore(c: Crypto, done: seq<seq<Dir>>, run: seq<Dir>)
    ensures Inners(done + [run]) == Inners(done) + [Inner(run)]
    ensures StoredAll(c, Inners(done)) && Stored(c, Inner(run)) ==> StoredAll(c, Inners(done + [run]))
  {
    hide Stored;
    assert Inners(done + [run]) == Inners(done) + [Inner(run)];
  }

  lemma InnerStored(c: Crypto, f: seq<Dir>, run: seq<Dir>)
    requires StoredAll(c, f) && forall x :: x in run ==> x in f
    ensures Stored(c, Inner(run)) <==> EncodeManifest(DirNode(c, Inner(run))).Some?
  {
    hide EncodeManifest, DirNode;
  }

  lemma NotStored(c: Crypto, f: seq<Dir>, t: Dir)
    requires t in f && !Stored(c, t)
    ensures !StoredAll(c, f)
  {}

  /** buildDirectory: the root and every stored manifest, in order. It succeeds
      exactly when the names are distinct and every manifest of the tree has an
      encoding. */
  method BuildDirectory(c: Crypto, entries: seq<Link>, max: int) returns (r: Result<Built, BuildError>)
    requires NameSort.HasNames(entries) && ManifestIO.MetasPlain(entries)
    ensures !(2 <= max <= 174) ==> r == Err(InvalidMaxLinks)
    ensures 2 <= max <= 174 ==> (r == Err(DuplicateEntry) <==> !NameSort.Distinct(entries))
    ensures 2 <= max <= 174 && NameSort.Distinct(entries)
        ==> (r.Ok? <==> Stored(c, RootTree(NameSort.Sort(entries), max)))
    ensures r.Ok? ==> var sorted := NameSort.Sort(entries);
        r.value == Built(DirNode(c, RootTree(sorted, max)), Pages(c, sorted, max))
  {
    hide EncodeManifest, DirLink, DirLinks, DirNode, DirBytes, BytesOf, Runs, Full, InnerRuns, Stored, StoredAll, NameSort.Sort, NameSort.Distinct, Grow, Fans, FullAll;
    if max < 2 || max > MAX_LINKS {
      return Err(InvalidMaxLinks);
    }
    var sorted := NameSort.Sort(entries);
    Sorting.SameMembers(sorted, entries);
    NameSort.NeighboursFound(entries);
    if NameSort.EqualNeighbours(sorted) {
      return Err(DuplicateEntry);
    }
    if |sorted| <= max {
      var out := BuildSmall(c, sorted);
      if out == None {
        return Err(NotEncodable);
      }
      return Ok(Built(Node(sorted, 2), [out.value]));
    }
    var built := BuildPages(c, sorted, max);
    ghost var f := Leaves(Runs(sorted, max));
    if built == None {
      if Stored(c, Inner(Grow(f, max))) { StoredBelow(c, f, max); }
      return Err(NotEncodable);
    }
    PagesFull(sorted, max);
    var level, manifests := built.value.0, built.value.1;
    while |level| > max
      invariant level == DirLinks(c, f) && StoredAll(c, f) && FullAll(f) && f != []
      invariant Inner(Grow(f, max)) == RootTree(sorted, max)
      invariant Pages(c, sorted, max) == manifests + Fans(c, f, max)
      decreases |level|
    {
      var stored := BuildLevel(c, level, max, f);
      GrowStep(c, f, max);
      if stored == None {
        if Stored(c, Inner(Grow(f, max))) { StoredBelow(c, InnerRuns(f, max), max); }
        return Err(NotEncodable);
      }
      Associative(manifests, BytesOf(c, InnerRuns(f, max)), Fans(c, InnerRuns(f, max), max));
      level, manifests := stored.value.0, manifests + stored.value.1;
      f := InnerRuns(f, max);
    }
    GrowEnd(c, f, max);
    InnerStored(c, f, f);
    var stored := StoreFan(c, level, f);
    if stored == None {
      return Err(NotEncodable);
    }
    FanNode(c, f);
    return Ok(Built(Node(level, 3), manifests + [stored.value.0]));
  }

  lemma FanNode(c: Crypto, f: seq<Dir>)
    ensures DirNode(c, Inner(f)) == Node(DirLinks(c, f), 3)
  {}

  /** A directory of one page is its own root. */
  method BuildSmall(c: Crypto, sorted: seq<Link>) returns (out: Option<Bytes>)
    requires ManifestIO.MetasPlain(sorted)
    ensures out.Some? <==> Stored(c, Leaf(sorted))
    ensures out.Some? ==> out.value == DirBytes(c, Leaf(sorted))
    ensures DirNode(c, Leaf(sorted)) == Node(sorted, 2)
  {
    hide EncodeManifest;
    out := ManifestIO.Encode(Node(sorted, 2));
  }

  lemma GrowStep(c: Crypto, f: seq<Dir>, max: nat)
    requires max >= 2 && |f| > max && FullAll(f)
    ensures |InnerRuns(f, max)| < |f| && InnerRuns(f, max) != [] && FullAll(InnerRuns(f, max))
    ensures Grow(f, max) == Grow(InnerRuns(f, max), max)
    ensures Fans(c, f, max) == BytesOf(c, InnerRuns(f, max)) + Fans(c, InnerRuns(f, max), max)
  {
    hide DirBytes, Full;
    RunsCounted(f, max);
    RunsShrink(|f|, max);
    RunsFull(f, max);
  }

  lemma GrowEnd(c: Crypto, f: seq<Dir>, max: nat)
    requires max >= 2 && |f| <= max
    ensures Grow(f, max) == f && Fans(c, f, max) == [DirBytes(c, Inner(f))]
  {}

  // ------------------------------------------------------------------
  // Reading

  /** The counters one resolveDirectory call closes over. */
  class Walk {
    var count: nat
    var manifests: nat
    var fetched: nat
    var active: set<Bytes>
    var fetches: nat
    ghost var blobs: set<Bytes>

    ghost function View(): State
      reads this
    {
      State(count, manifests, fetched, active, fetches, blobs)
    }

    constructor ()
      ensures View() == START
    {
      count, manifests, fetched, active, fetches, blobs := 0, 0, 0, {}, 0, {};
    }
  }

  method ResolveNode(env: Env, w: Walk, node: Node, depth: nat) returns (status: Status, result: seq<Link>)
    requires depth <= env.limits.maxDepth + 1
    modifies w
    ensures Outcome(status, result, w.View()) == WalkNode(env, node, depth, old(w.View()))
    decreases 2 * (env.limits.maxDepth + 1 - depth) + 1
  {
    hide NodeOK, WalkLink, Claim, Compare, Ascending;
    if depth > env.limits.maxDepth {
      return Failed(TooDeep), [];
    }
    w.manifests := w.manifests + 1;
    if w.manifests > env.limits.maxManifests {
      return Failed(TooManyManifests), [];
    }
    if !NodeOK(node) {
      return Failed(Invalid), [];
    }
    if node.t == 2 {
      w.count := w.count + |node.l|;
      if w.count > env.limits.maxEntries {
        return Failed(TooManyEntries), [];
      }
      return Done, node.l;
    }
    if node.t != 3 {
      return Failed(NotDirectory), [];
    }
    ghost var start := w.View();
    result := [];
    var previous := "";
    assert node.l[0..] == node.l;
    for i := 0 to |node.l|
      invariant WalkLinks(env, node.l, depth, "", [], start) == WalkLinks(env, node.l[i..], depth, previous, result, w.View())
    {
      var link := node.l[i];
      assert node.l[i..][0] == link && node.l[i..][1..] == node.l[i + 1..];
      var claim := Claim(link);
      if previous != "" && Compare(previous, claim.first) >= 0 {
        return Failed(BoundsUnordered), [];
      }
      previous := claim.last;
      var below;
      status, below := ResolveLink(env, w, link, depth);
      if status != Done {
        result := below;
        return;
      }
      result := result + below;
    }
    if !Ascending(result) {
      return Failed(EntriesUnordered), [];
    }
    return Done, result;
  }

  method ResolveLink(env: Env, w: Walk, link: Link, depth: nat) returns (status: Status, result: seq<Link>)
    requires depth <= env.limits.maxDepth
    modifies w
    ensures Outcome(status, result, w.View()) == WalkLink(env, link, depth, old(w.View()))
    decreases 2 * (env.limits.maxDepth + 1 - depth)
  {
    hide NodeOK, DecodeManifest, Open, WalkNode, Claim, Describes;
    if link.h in w.active {
      return Failed(Cycle), [];
    }
    w.active := w.active + {link.h};
    var answer := env.fetch(w.fetches, link.h);
    w.fetches := w.fetches + 1;
    if answer == None {
      return Failed(Unavailable), [];
    }
    var raw := answer.value;
    w.fetched := w.fetched + |raw|;
    if w.fetched > env.limits.maxBytes {
      return Failed(TooMuchFetched), [];
    }
    if env.c.sha(raw) != link.h {
      return Failed(HashMismatch), [];
    }
    w.blobs := w.blobs + {raw};
    var plain := Open(env.c, raw, link);
    if plain == None {
      return Failed(DecryptFailed), [];
    }
    var child := ManifestIO.Decode(plain.value);
    if child == None {
      return Failed(Invalid), [];
    }
    if child.value.t != link.t {
      return Failed(ChildMismatch), [];
    }
    status, result := ResolveNode(env, w, child.value, depth + 1);
    if status != Done {
      return;
    }
    w.active := w.active - {link.h};
    if !Describes(Claim(link), result) {
      return Failed(BoundsMismatch), [];
    }
  }

  method Resolve(env: Env, root: Node) returns (r: Result<seq<Link>, Error>)
    ensures r == ResolveDirectory(env, root)
  {
    hide WalkNode;
    var w := new Walk();
    var status, result := ResolveNode(env, w, root, 0);
    return if status == Done then Ok(result) else Err(status.error);
  }
}
