/** Sorting directory entries by the UTF-8 bytes of their names. */
module NameSort {
  import opened Prelude
  import opened Text
  import opened Manifest
  import opened DirRead
  import opened Sorting

  function NameOf(x: Link): string { if x.n.Some? then x.n.value else "" }

  function Sort(s: seq<Link>): (r: seq<Link>)
    ensures multiset(r) == multiset(s)
  {
    SortBy(s, NameOf)
  }

  ghost predicate Distinct(s: seq<Link>) {
    forall i, j :: 0 <= i < j < |s| ==> NameOf(s[i]) != NameOf(s[j])
  }

  predicate HasNames(s: seq<Link>) { forall x :: x in s ==> x.n.Some? }

  lemma DistinctSame(s: seq<Link>)
    ensures Distinct(s) <==> DistinctBy(s, NameOf)
  {
    hide NameOf;
  }

  /** The check for equal neighbours, as the builder makes it. */
  predicate EqualNeighbours(s: seq<Link>) {
    exists i :: 0 < i < |s| && NameOf(s[i - 1]) == NameOf(s[i])
  }

  /** Equal neighbours after sorting mean repeated names before it. */
  lemma NeighboursFound(s: seq<Link>)
    ensures EqualNeighbours(Sort(s)) <==> !Distinct(s)
  {
    hide SortBy, OrderedBy, DistinctBy, Distinct;
    SortOrdered(s, NameOf);
    SortDistinct(s, NameOf);
    DistinctSame(s);
    OrderedNeighbours(Sort(s), NameOf);
  }

  /** Sorting distinct names leaves them in strict order of their UTF-8 bytes. */
  lemma SortAscends(s: seq<Link>)
    requires HasNames(s) && Distinct(s)
    ensures ByteOrder(Sort(s))
    ensures Ascending(Sort(s)) && HasNames(Sort(s)) && |Sort(s)| == |s| && forall x :: x in Sort(s) <==> x in s
  {
    hide SortBy, Compare, DistinctBy, Distinct, ByteOrder;
    var t := Sort(s);
    AscendingExact(t);
    DistinctSame(s);
    SameMembers(t, s);
    forall i | 0 < i < |t| ensures NameBefore(t[i - 1], t[i]) {
      assert t[i - 1] in t && t[i] in t;
      SortStrict(s, NameOf, i - 1, i);
    }
  }

  /** Whatever order distinct entries arrive in, they sort alike. */
  lemma SortUnique(s: seq<Link>, t: seq<Link>)
    requires multiset(s) == multiset(t) && Distinct(s)
    ensures Sort(s) == Sort(t) && Distinct(t)
  {
    hide SortBy, DistinctBy, Distinct;
    DistinctSame(s);
    DistinctSame(t);
    Sorting.SortUnique(s, t, NameOf);
  }
}
