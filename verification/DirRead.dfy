/** resolveDirectory of tinyclient/blossom-manifests.js: a bounded recursive
    walk that collects the entries of a fanned-out directory from whatever a
    server answers. */
module DirRead {
  import opened Prelude
  import opened Text
  import opened Manifest
  import opened Blobs

  datatype Limits = Limits(maxDepth: nat, maxEntries: nat, maxManifests: nat, maxBytes: nat)

  datatype Error =
    | TooDeep | TooManyManifests | Invalid | TooManyEntries | NotDirectory | BoundsUnordered | Cycle
    | Unavailable | TooMuchFetched | HashMismatch | DecryptFailed | ChildMismatch | BoundsMismatch
    | EntriesUnordered

  datatype Status = Done | Failed(error: Error)

  /** The counters of one walk. `fetches` counts requests and `blobs` collects
      the blobs accepted; the program keeps neither. */
  datatype State = State(count: nat, manifests: nat, fetched: nat, active: set<Bytes>, fetches: nat, blobs: set<Bytes>)

  datatype Env = Env(c: Crypto, fetch: Fetch, limits: Limits)

  datatype Outcome = Outcome(status: Status, entries: seq<Link>, st: State)

  const START: State := State(0, 0, 0, {}, 0, {})

  /** Consecutive names strictly increase. */
  predicate Ascending(l: seq<Link>) {
    forall i :: 0 < i < |l| ==> NameBefore(l[i - 1], l[i])
  }

  predicate NameBefore(x: Link, y: Link) { x.n.Some? && y.n.Some? && Before(x.n.value, y.n.value) }

  /** Every name comes before every later one, byte by byte. */
  ghost predicate ByteOrder(l: seq<Link>) {
    forall i, j :: 0 <= i < j < |l| ==> NamePrecedes(l[i], l[j])
  }

  ghost predicate NamePrecedes(x: Link, y: Link) { x.n.Some? && y.n.Some? && Precedes(x.n.value, y.n.value) }

  lemma NameBeforeExact(x: Link, y: Link)
    ensures NameBefore(x, y) <==> NamePrecedes(x, y)
  {
    hide Before, Precedes;
    if x.n.Some? && y.n.Some? { BeforeExact(x.n.value, y.n.value); }
  }

  lemma {:induction false} AscendsTo(l: seq<Link>, i: nat, j: nat)
    requires Ascending(l) && i < j < |l|
    ensures NameBefore(l[i], l[j])
  {
    hide Before;
    assert NameBefore(l[j - 1], l[j]);
    if i < j - 1 {
      AscendsTo(l, i, j - 1);
      BeforeTransitive(l[i].n.value, l[j - 1].n.value, l[j].n.value);
    }
  }

  /** Checking neighbours is checking the order of the bytes. */
  lemma AscendingExact(l: seq<Link>)
    ensures Ascending(l) <==> ByteOrder(l)
  {
    hide NameBefore, NamePrecedes;
    if Ascending(l) {
      forall i, j | 0 <= i < j < |l| ensures NamePrecedes(l[i], l[j]) {
        AscendsTo(l, i, j);
        NameBeforeExact(l[i], l[j]);
      }
    }
    if ByteOrder(l) {
      forall i | 0 < i < |l| ensures NameBefore(l[i - 1], l[i]) { NameBeforeExact(l[i - 1], l[i]); }
    }
  }

  ghost function WalkNode(env: Env, node: Node, depth: nat, st: State): Outcome
    requires depth <= env.limits.maxDepth + 1
    decreases 2 * (env.limits.maxDepth + 1 - depth) + 1, 0
  {
    if depth > env.limits.maxDepth then Outcome(Failed(TooDeep), [], st)
    else
      var next := st.(manifests := st.manifests + 1);
      if next.manifests > env.limits.maxManifests then Outcome(Failed(TooManyManifests), [], next)
      else if !NodeOK(node) then Outcome(Failed(Invalid), [], next)
      else if node.t == 2 then TakeEntries(env, node.l, next)
      else if node.t != 3 then Outcome(Failed(NotDirectory), [], next)
      else
        var o := WalkLinks(env, node.l, depth, "", [], next);
        if o.status == Done && !Ascending(o.entries) then Outcome(Failed(EntriesUnordered), [], o.st) else o
  }

  function TakeEntries(env: Env, l: seq<Link>, st: State): Outcome {
    var next := st.(count := st.count + |l|);
    if next.count > env.limits.maxEntries then Outcome(Failed(TooManyEntries), [], next)
    else Outcome(Done, l, next)
  }

  /** The bounds a valid fanout link carries. */
  function Claim(link: Link): Bounds {
    var b := BoundsOf(link.m);
    if b.Some? then b.value else Bounds(0, "", "")
  }

  ghost function WalkLinks(env: Env, links: seq<Link>, depth: nat, previous: string, result: seq<Link>, st: State): Outcome
    requires depth <= env.limits.maxDepth
    decreases 2 * (env.limits.maxDepth + 1 - depth), |links|
  {
    if links == [] then Outcome(Done, result, st)
    else
      var claim := Claim(links[0]);
      if previous != "" && Compare(previous, claim.first) >= 0 then Outcome(Failed(BoundsUnordered), [], st)
      else
        var o := WalkLink(env, links[0], depth, st);
        if o.status != Done then o
        else WalkLinks(env, links[1..], depth, claim.last, result + o.entries, o.st)
  }

  ghost function WalkLink(env: Env, link: Link, depth: nat, st: State): Outcome
    requires depth <= env.limits.maxDepth
    decreases 2 * (env.limits.maxDepth + 1 - depth), 0
  {
    if link.h in st.active then Outcome(Failed(Cycle), [], st)
    else
      var asked := st.(active := st.active + {link.h}, fetches := st.fetches + 1);
      match env.fetch(st.fetches, link.h)
      case None => Outcome(Failed(Unavailable), [], asked)
      case Some(raw) =>
        var got := asked.(fetched := asked.fetched + |raw|);
        if got.fetched > env.limits.maxBytes then Outcome(Failed(TooMuchFetched), [], got)
        else if env.c.sha(raw) != link.h then Outcome(Failed(HashMismatch), [], got)
        else
          var kept := got.(blobs := got.blobs + {raw});
          match Open(env.c, raw, link)
          case None => Outcome(Failed(DecryptFailed), [], kept)
          case Some(plain) => WalkChild(env, link, plain, depth, kept)
  }

  ghost function WalkChild(env: Env, link: Link, plain: Bytes, depth: nat, st: State): Outcome
    requires depth <= env.limits.maxDepth
    decreases 2 * (env.limits.maxDepth + 1 - depth) - 1, 1
  {
    match DecodeManifest(plain)
    case None => Outcome(Failed(Invalid), [], st)
    case Some(child) =>
      if child.t != link.t then Outcome(Failed(ChildMismatch), [], st)
      else
        var o := WalkNode(env, child, depth + 1, st);
        if o.status != Done then o
        else
          var after := o.st.(active := o.st.active - {link.h});
          if Describes(Claim(link), o.entries) then Outcome(Done, o.entries, after)
          else Outcome(Failed(BoundsMismatch), [], after)
  }

  /** The claim is true of these entries. */
  predicate Describes(b: Bounds, l: seq<Link>) {
    |l| == b.count && |l| > 0 && l[0].n == Some(b.first) && l[|l| - 1].n == Some(b.last)
  }

  ghost function ResolveDirectory(env: Env, root: Node): Result<seq<Link>, Error> {
    var o := WalkNode(env, root, 0, START);
    if o.status == Done then Ok(o.entries) else Err(o.status.error)
  }

  // ------------------------------------------------------------------
  // Any server: bounds

  /** Manifests that got past the limit check. */
  function Counted(limits: Limits, st: State): nat {
    if st.manifests > limits.maxManifests then limits.maxManifests else st.manifests
  }

  ghost predicate Bounded(limits: Limits, st: State, o: Outcome, extra: nat) {
    && st.manifests <= o.st.manifests
    && Counted(limits, st) <= Counted(limits, o.st)
    && o.st.fetches <= st.fetches + extra + MAX_LINKS * (Counted(limits, o.st) - Counted(limits, st))
    && st.blobs <= o.st.blobs
    && (o.status == Done ==> o.st.manifests <= limits.maxManifests)
  }

  lemma {:induction false} NodeBounded(env: Env, node: Node, depth: nat, st: State)
    requires depth <= env.limits.maxDepth + 1 && st.manifests <= env.limits.maxManifests
    ensures Bounded(env.limits, st, WalkNode(env, node, depth, st), 0)
    decreases 2 * (env.limits.maxDepth + 1 - depth) + 1, 0
  {
    hide NodeOK;
    if depth <= env.limits.maxDepth && NodeOK(node) && node.t == 3 {
      var next := st.(manifests := st.manifests + 1);
      if next.manifests <= env.limits.maxManifests {
        LinksBounded(env, node.l, depth, "", [], next);
        AtMostMaxLinks(node);
      }
    }
  }

  lemma {:induction false} LinksBounded(env: Env, links: seq<Link>, depth: nat, previous: string, result: seq<Link>, st: State)
    requires depth <= env.limits.maxDepth && st.manifests <= env.limits.maxManifests
    ensures Bounded(env.limits, st, WalkLinks(env, links, depth, previous, result, st), |links|)
    decreases 2 * (env.limits.maxDepth + 1 - depth), |links|
  {
    hide Claim, Compare;
    if links != [] {
      LinkBounded(env, links[0], depth, st);
      var o := WalkLink(env, links[0], depth, st);
      if o.status == Done {
        LinksBounded(env, links[1..], depth, Claim(links[0]).last, result + o.entries, o.st);
      }
    }
  }

  lemma {:induction false} LinkBounded(env: Env, link: Link, depth: nat, st: State)
    requires depth <= env.limits.maxDepth && st.manifests <= env.limits.maxManifests
    ensures Bounded(env.limits, st, WalkLink(env, link, depth, st), 1)
    decreases 2 * (env.limits.maxDepth + 1 - depth), 0
  {
    hide DecodeManifest, Open, Describes;
    if Accepted(env, link, st) {
      var plain := Open(env.c, env.fetch(st.fetches, link.h).value, link).value;
      if DecodeManifest(plain).Some? && DecodeManifest(plain).value.t == link.t {
        NodeBounded(env, DecodeManifest(plain).value, depth + 1, After(env, link, st));
      }
    }
  }

  /** The link's blob arrived, has the right name and could be opened. */
  ghost predicate Accepted(env: Env, link: Link, st: State) {
    && link.h !in st.active
    && env.fetch(st.fetches, link.h).Some?
    && var raw := env.fetch(st.fetches, link.h).value;
       st.fetched + |raw| <= env.limits.maxBytes && env.c.sha(raw) == link.h && Open(env.c, raw, link).Some?
  }

  /** The state in which an accepted blob is used. */
  ghost function After(env: Env, link: Link, st: State): State
    requires Accepted(env, link, st)
  {
    var raw := env.fetch(st.fetches, link.h).value;
    st.(active := st.active + {link.h}, fetches := st.fetches + 1, fetched := st.fetched + |raw|, blobs := st.blobs + {raw})
  }

  /** At most 174 requests for every manifest the limit allows, whatever the
      server answers and however the walk ends. */
  lemma ResolveBounded(env: Env, root: Node)
    ensures WalkNode(env, root, 0, START).st.fetches <= 174 * env.limits.maxManifests
  {
    hide WalkNode;
    NodeBounded(env, root, 0, START);
    var o := WalkNode(env, root, 0, START);
    Scale(Counted(env.limits, o.st), env.limits.maxManifests);
  }

  // ------------------------------------------------------------------
  // Any server: what success means

  /** Valid directory entries in strictly increasing order of their names. */
  ghost predicate Listing(l: seq<Link>) {
    (forall x :: x in l ==> LinkOK(x, 2)) && Ascending(l)
  }

  /** Finished, within the limits, with nothing left announced. */
  ghost predicate Sound(limits: Limits, st: State, o: Outcome, found: int) {
    && o.st.count == st.count + found
    && (o.st.count == st.count || o.st.count <= limits.maxEntries)
    && (o.st.fetched == st.fetched || o.st.fetched <= limits.maxBytes)
    && o.st.active == st.active
  }

  function Claims(links: seq<Link>): (r: seq<int>)
    ensures |r| == |links| && forall i :: 0 <= i < |links| ==> r[i] == Claim(links[i]).count
  {
    seq(|links|, i requires 0 <= i < |links| => Claim(links[i]).count)
  }

  /** What is collected so far ends at `previous`. */
  ghost predicate EndsAt(result: seq<Link>, previous: string) {
    if result == [] then previous == "" else result[|result| - 1].n == Some(previous) && previous != ""
  }

  lemma ListingConcat(a: seq<Link>, b: seq<Link>)
    requires Listing(a) && Listing(b)
    requires a == [] || b == [] || NameBefore(a[|a| - 1], b[0])
    ensures Listing(a + b)
  {
    hide LinkOK, Before;
    var l := a + b;
    forall i | 0 < i < |l| ensures NameBefore(l[i - 1], l[i]) {
      if i < |a| {
        assert l[i - 1] == a[i - 1] && l[i] == a[i];
      } else if i > |a| {
        assert l[i - 1] == b[i - 1 - |a|] && l[i] == b[i - |a|];
      }
    }
  }

  lemma PageListing(node: Node)
    requires NodeOK(node) && node.t == 2
    ensures Listing(node.l)
  {
    hide LinkOK, Before;
    forall i | 0 < i < |node.l| ensures NameBefore(node.l[i - 1], node.l[i]) {
      assert node.l[i] in node.l && node.l[i - 1] in node.l;
    }
  }

  /** The closing order check never fails: a walk that reaches it already holds
      an ordered listing. */
  lemma {:induction false} NodeSound(env: Env, node: Node, depth: nat, st: State)
    requires depth <= env.limits.maxDepth + 1
    ensures var o := WalkNode(env, node, depth, st);
      && o.status != Failed(EntriesUnordered)
      && (o.status == Done ==> Listing(o.entries) && Sound(env.limits, st, o, |o.entries|) && NodeOK(node))
      && (o.status == Done && node.t == 3 ==> |o.entries| == Sum(Claims(node.l)))
    decreases 2 * (env.limits.maxDepth + 1 - depth) + 1, 0
  {
    hide NodeOK, Listing, WalkLinks, Claims;
    if depth <= env.limits.maxDepth && st.manifests + 1 <= env.limits.maxManifests && NodeOK(node) {
      if node.t == 2 {
        PageListing(node);
      } else if node.t == 3 {
        var next := st.(manifests := st.manifests + 1);
        NothingListed();
        LinksSound(env, node.l, depth, "", [], next);
        var o := WalkLinks(env, node.l, depth, "", [], next);
        if o.status == Done { ListingAscends(o.entries); }
      }
    }
  }

  lemma ListingAscends(l: seq<Link>)
    requires Listing(l)
    ensures Ascending(l)
  {}

  lemma NothingListed()
    ensures Listing([]) && Ascending([])
  {}

  lemma {:induction false} LinksSound(env: Env, links: seq<Link>, depth: nat, previous: string, result: seq<Link>, st: State)
    requires depth <= env.limits.maxDepth && Listing(result) && EndsAt(result, previous)
    ensures var o := WalkLinks(env, links, depth, previous, result, st);
      && o.status != Failed(EntriesUnordered)
      && (o.status == Done ==> Listing(o.entries) && Sound(env.limits, st, o, |o.entries| - |result|))
      && (o.status == Done ==> |o.entries| == |result| + Sum(Claims(links)))
    decreases 2 * (env.limits.maxDepth + 1 - depth), |links|
  {
    hide Listing, WalkLink, Claim, LinkOK, Compare;
    if links != [] {
      var claim := Claim(links[0]);
      if !(previous != "" && Compare(previous, claim.first) >= 0) {
        LinkSound(env, links[0], depth, st);
        var o := WalkLink(env, links[0], depth, st);
        if o.status == Done {
          ListingConcat(result, o.entries);
          Named(o.entries);
          assert EndsAt(result + o.entries, claim.last);
          LinksSound(env, links[1..], depth, claim.last, result + o.entries, o.st);
          assert Claims(links)[1..] == Claims(links[1..]);
        }
      }
    }
  }

  lemma Named(l: seq<Link>)
    requires Listing(l)
    ensures forall x :: x in l ==> x.n.Some? && x.n.value != ""
  {}

  lemma {:induction false} LinkSound(env: Env, link: Link, depth: nat, st: State)
    requires depth <= env.limits.maxDepth
    ensures var o := WalkLink(env, link, depth, st);
      && o.status != Failed(EntriesUnordered)
      && (o.status == Done ==> Listing(o.entries) && Sound(env.limits, st, o, |o.entries|) && Describes(Claim(link), o.entries))
      && (o.status == Done ==> Accepted(env, link, st))
    decreases 2 * (env.limits.maxDepth + 1 - depth), 0
  {
    hide DecodeManifest, Open, Describes, Listing, Claim;
    assert st.active + {link.h} - {link.h} == st.active || link.h in st.active;
    if Accepted(env, link, st) {
      var plain := Open(env.c, env.fetch(st.fetches, link.h).value, link).value;
      if DecodeManifest(plain).Some? && DecodeManifest(plain).value.t == link.t {
        NodeSound(env, DecodeManifest(plain).value, depth + 1, After(env, link, st));
      }
    }
  }

  lemma ListingUsable(l: seq<Link>)
    requires Listing(l)
    ensures forall x :: x in l ==> x.n.Some? && Usable(x.n.value)
  {
    hide Usable, NameOK;
    forall x | x in l ensures x.n.Some? && Usable(x.n.value) { NameExact(x.n.value); }
  }

  /** Resolving any root against any server ends with a strictly sorted listing
      of valid entries with usable names, as many as the root claims and no more than the limit,
      or with an error other than the closing order check's. */
  lemma ResolveSound(env: Env, root: Node)
    ensures var r := ResolveDirectory(env, root);
      && r != Err(EntriesUnordered)
      && (r.Ok? ==> Listing(r.value) && ByteOrder(r.value) && |r.value| <= env.limits.maxEntries)
      && (r.Ok? ==> forall x :: x in r.value ==> x.n.Some? && Usable(x.n.value))
      && (r.Ok? && root.t == 3 ==> |r.value| == Sum(Claims(root.l)))
  {
    hide WalkNode, Listing, Claims, ByteOrder, Ascending, Usable;
    NodeSound(env, root, 0, START);
    var r := ResolveDirectory(env, root);
    if r.Ok? {
      ListingUsable(r.value);
      ListingAscends(r.value);
      AscendingExact(r.value);
    }
  }

  // ------------------------------------------------------------------
  // Two servers

  lemma {:induction false} LinksAgree(e: Env, f: Env, links: seq<Link>, depth: nat, previous: string, result: seq<Link>, a: State, b: State)
    requires e.c == f.c && depth <= e.limits.maxDepth && depth <= f.limits.maxDepth
    requires a.manifests <= e.limits.maxManifests && b.manifests <= f.limits.maxManifests
    requires WalkLinks(e, links, depth, previous, result, a).status == Done
    requires WalkLinks(f, links, depth, previous, result, b).status == Done
    requires NoCollision(e.c, WalkLinks(e, links, depth, previous, result, a).st.blobs + WalkLinks(f, links, depth, previous, result, b).st.blobs)
    ensures WalkLinks(e, links, depth, previous, result, a).entries == WalkLinks(f, links, depth, previous, result, b).entries
    decreases 2 * (e.limits.maxDepth + 1 - depth), |links|
  {
    hide WalkLink, Claim, Compare;
    if links != [] {
      var o, p := WalkLink(e, links[0], depth, a), WalkLink(f, links[0], depth, b);
      LinkBounded(e, links[0], depth, a);
      LinkBounded(f, links[0], depth, b);
      var last := Claim(links[0]).last;
      LinksBounded(e, links[1..], depth, last, result + o.entries, o.st);
      LinksBounded(f, links[1..], depth, last, result + p.entries, p.st);
      LinkAgrees(e, f, links[0], depth, a, b);
      LinksAgree(e, f, links[1..], depth, last, result + o.entries, o.st, p.st);
    }
  }

  lemma KeepsBlobs(limits: Limits, st: State, o: Outcome, extra: nat)
    requires Bounded(limits, st, o, extra)
    ensures st.blobs <= o.st.blobs
  {}

  lemma {:induction false} LinkAgrees(e: Env, f: Env, link: Link, depth: nat, a: State, b: State)
    requires e.c == f.c && depth <= e.limits.maxDepth && depth <= f.limits.maxDepth
    requires a.manifests <= e.limits.maxManifests && b.manifests <= f.limits.maxManifests
    requires WalkLink(e, link, depth, a).status == Done && WalkLink(f, link, depth, b).status == Done
    requires NoCollision(e.c, WalkLink(e, link, depth, a).st.blobs + WalkLink(f, link, depth, b).st.blobs)
    ensures WalkLink(e, link, depth, a).entries == WalkLink(f, link, depth, b).entries
    decreases 2 * (e.limits.maxDepth + 1 - depth), 0
  {
    hide DecodeManifest, Open, Describes, Claim, Sound, Listing, Bounded, NoCollision, WalkNode;
    LinkSound(e, link, depth, a);
    LinkSound(f, link, depth, b);
    var raw, raw' := e.fetch(a.fetches, link.h).value, f.fetch(b.fetches, link.h).value;
    var a1, b1 := After(e, link, a), After(f, link, b);
    var child := DecodeManifest(Open(e.c, raw, link).value).value;
    var child' := DecodeManifest(Open(f.c, raw', link).value).value;
    NodeBounded(e, child, depth + 1, a1);
    NodeBounded(f, child', depth + 1, b1);
    KeepsBlobs(e.limits, a1, WalkNode(e, child, depth + 1, a1), 0);
    KeepsBlobs(f.limits, b1, WalkNode(f, child', depth + 1, b1), 0);
    SameBlob(e.c, raw, raw', a1.blobs, b1.blobs, WalkNode(e, child, depth + 1, a1).st.blobs, WalkNode(f, child', depth + 1, b1).st.blobs);
    NodeAgrees(e, f, child, depth + 1, a1, b1);
  }

  lemma {:induction false} NodeAgrees(e: Env, f: Env, node: Node, depth: nat, a: State, b: State)
    requires e.c == f.c && depth <= e.limits.maxDepth + 1 && depth <= f.limits.maxDepth + 1
    requires a.manifests <= e.limits.maxManifests && b.manifests <= f.limits.maxManifests
    requires WalkNode(e, node, depth, a).status == Done && WalkNode(f, node, depth, b).status == Done
    requires NoCollision(e.c, WalkNode(e, node, depth, a).st.blobs + WalkNode(f, node, depth, b).st.blobs)
    ensures WalkNode(e, node, depth, a).entries == WalkNode(f, node, depth, b).entries
    decreases 2 * (e.limits.maxDepth + 1 - depth) + 1, 0
  {
    hide NodeOK, Ascending;
    if node.t == 3 {
      LinksAgree(e, f, node.l, depth, "", [], a.(manifests := a.manifests + 1), b.(manifests := b.manifests + 1));
    }
  }

  /** A root manifest determines its directory: any two servers and any limits
      that let the walk finish give the same entries, or exhibit a collision. */
  lemma ResolveDetermined(e: Env, f: Env, root: Node)
    requires e.c == f.c && ResolveDirectory(e, root).Ok? && ResolveDirectory(f, root).Ok?
    requires NoCollision(e.c, WalkNode(e, root, 0, START).st.blobs + WalkNode(f, root, 0, START).st.blobs)
    ensures ResolveDirectory(e, root) == ResolveDirectory(f, root)
  {
    hide WalkNode;
    NodeAgrees(e, f, root, 0, START, START);
  }
}
