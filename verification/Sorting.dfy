/** A stable sort by the UTF-8 bytes of a key. Object fields and directory
    entries are both ordered this way. */
module Sorting {
  import opened Text

  function InsertBy<T>(x: T, s: seq<T>, key: T -> string): (r: seq<T>)
    ensures |r| == |s| + 1
    ensures multiset(r) == multiset(s) + multiset{x}
  {
    if s == [] || Compare(key(x), key(s[0])) <= 0 then [x] + s
    else
      assert s == [s[0]] + s[1..];
      [s[0]] + InsertBy(x, s[1..], key)
  }

  function SortBy<T>(s: seq<T>, key: T -> string): (r: seq<T>)
    ensures |r| == |s|
    ensures multiset(r) == multiset(s)
  {
    if s == [] then []
    else
      assert s == [s[0]] + s[1..];
      InsertBy(s[0], SortBy(s[1..], key), key)
  }

  ghost predicate OrderedBy<T(!new)>(s: seq<T>, key: T -> string) {
    forall i, j :: 0 <= i < j < |s| ==> Compare(key(s[i]), key(s[j])) <= 0
  }

  ghost predicate DistinctBy<T(!new)>(s: seq<T>, key: T -> string) {
    forall i, j :: 0 <= i < j < |s| ==> key(s[i]) != key(s[j])
  }

  lemma SameMembers<T(!new)>(s: seq<T>, t: seq<T>)
    requires multiset(s) == multiset(t)
    ensures |s| == |t| && forall x :: x in s <==> x in t
  {
    assert |multiset(s)| == |s| && |multiset(t)| == |t|;
    forall x ensures x in s <==> x in t {
      assert x in s <==> x in multiset(s);
      assert x in t <==> x in multiset(t);
    }
  }

  lemma AtMostTransitive(a: string, b: string, c: string)
    requires Compare(a, b) <= 0 && Compare(b, c) <= 0
    ensures Compare(a, c) <= 0
    ensures Compare(a, c) == 0 ==> Compare(a, b) == 0
  {
    BeforeTotal(a, b);
    BeforeTotal(b, c);
    BeforeTotal(a, c);
    if a != b && b != c {
      BeforeTransitive(a, b, c);
    }
  }

  lemma {:induction false} InsertOrdered<T(!new)>(x: T, s: seq<T>, key: T -> string)
    requires OrderedBy(s, key)
    ensures OrderedBy(InsertBy(x, s, key), key)
  {
    hide Compare;
    var n := key(x);
    if s == [] {
    } else if Compare(n, key(s[0])) <= 0 {
      forall j | 0 <= j < |s| ensures Compare(n, key(s[j])) <= 0 {
        if j > 0 { AtMostTransitive(n, key(s[0]), key(s[j])); }
      }
    } else {
      var r := InsertBy(x, s[1..], key);
      InsertOrdered(x, s[1..], key);
      BeforeTotal(n, key(s[0]));
      SameMembers(r, s[1..] + [x]);
      forall j | 0 <= j < |r| ensures Compare(key(s[0]), key(r[j])) <= 0 {
        assert r[j] in s[1..] + [x];
      }
    }
  }

  lemma {:induction false} SortOrdered<T(!new)>(s: seq<T>, key: T -> string)
    ensures OrderedBy(SortBy(s, key), key)
  {
    hide OrderedBy, InsertBy;
    if s == [] {
      NothingOrdered(key);
    } else {
      SortOrdered(s[1..], key);
      InsertOrdered(s[0], SortBy(s[1..], key), key);
    }
  }

  lemma NothingOrdered<T(!new)>(key: T -> string)
    ensures OrderedBy([], key)
  {}

  lemma DistinctCons<T(!new)>(x: T, s: seq<T>, key: T -> string)
    ensures DistinctBy([x] + s, key) <==> DistinctBy(s, key) && forall y :: y in s ==> key(y) != key(x)
  {
    var r := [x] + s;
    if DistinctBy(r, key) {
      forall i, j | 0 <= i < j < |s| ensures key(s[i]) != key(s[j]) {
        assert r[i + 1] == s[i] && r[j + 1] == s[j];
      }
      forall y | y in s ensures key(y) != key(x) {
        var j :| 0 <= j < |s| && s[j] == y;
        assert r[0] == x && r[j + 1] == y;
      }
    }
  }

  lemma {:induction false} InsertDistinct<T(!new)>(x: T, s: seq<T>, key: T -> string)
    ensures DistinctBy(InsertBy(x, s, key), key) <==> DistinctBy([x] + s, key)
  {
    hide Compare, DistinctBy;
    if s != [] && Compare(key(x), key(s[0])) > 0 {
      var r := InsertBy(x, s[1..], key);
      InsertDistinct(x, s[1..], key);
      DistinctCons(s[0], r, key);
      DistinctCons(x, s, key);
      DistinctCons(x, s[1..], key);
      DistinctCons(s[0], s[1..], key);
      SameMembers(r, [x] + s[1..]);
      assert s == [s[0]] + s[1..];
    }
  }

  lemma {:induction false} SortDistinct<T(!new)>(s: seq<T>, key: T -> string)
    ensures DistinctBy(SortBy(s, key), key) <==> DistinctBy(s, key)
  {
    hide DistinctBy, InsertBy;
    if s != [] {
      var sorted := SortBy(s[1..], key);
      SortDistinct(s[1..], key);
      InsertDistinct(s[0], sorted, key);
      DistinctCons(s[0], sorted, key);
      DistinctCons(s[0], s[1..], key);
      SameMembers(sorted, s[1..]);
      assert s == [s[0]] + s[1..];
    }
  }

  /** Distinct keys come out strictly ascending. */
  lemma SortStrict<T(!new)>(s: seq<T>, key: T -> string, i: nat, j: nat)
    requires DistinctBy(s, key) && i < j < |s|
    ensures Before(key(SortBy(s, key)[i]), key(SortBy(s, key)[j]))
  {
    hide SortBy, Compare;
    var t := SortBy(s, key);
    SortOrdered(s, key);
    SortDistinct(s, key);
    BeforeTotal(key(t[i]), key(t[j]));
  }

  /** In an ordered sequence equal keys have equal neighbours. */
  lemma OrderedNeighbours<T(!new)>(t: seq<T>, key: T -> string)
    requires OrderedBy(t, key)
    ensures (exists i :: 0 < i < |t| && key(t[i - 1]) == key(t[i])) <==> !DistinctBy(t, key)
  {
    hide Compare;
    if !DistinctBy(t, key) {
      var i, j :| 0 <= i < j < |t| && key(t[i]) == key(t[j]);
      var k := i + 1;
      BeforeTotal(key(t[i]), key(t[k]));
      BeforeTotal(key(t[i]), key(t[j]));
      if k < j {
        AtMostTransitive(key(t[i]), key(t[k]), key(t[j]));
      }
      assert key(t[k - 1]) == key(t[k]);
    }
  }

  // ------------------------------------------------------------------
  // The order determines the sequence

  lemma Tail<T(!new)>(s: seq<T>, key: T -> string)
    requires s != []
    ensures s == [s[0]] + s[1..] && multiset(s[1..]) == multiset(s) - multiset{s[0]}
    ensures OrderedBy(s, key) ==> OrderedBy(s[1..], key)
    ensures DistinctBy(s, key) ==> DistinctBy(s[1..], key)
  {
    hide Compare;
    assert s == [s[0]] + s[1..];
  }

  lemma SameFirst<T(!new)>(s: seq<T>, t: seq<T>, key: T -> string)
    requires OrderedBy(s, key) && OrderedBy(t, key) && DistinctBy(s, key) && s != [] && t != [] && s[0] in t && t[0] in s
    ensures s[0] == t[0]
  {
    hide Compare;
    var i :| 0 <= i < |t| && t[i] == s[0];
    var j :| 0 <= j < |s| && s[j] == t[0];
    if i > 0 && j > 0 {
      BeforeTotal(key(s[0]), key(t[0]));
    }
  }

  lemma {:induction false} OrderedUnique<T(!new)>(s: seq<T>, t: seq<T>, key: T -> string)
    requires multiset(s) == multiset(t) && OrderedBy(s, key) && OrderedBy(t, key) && DistinctBy(s, key)
    ensures s == t
  {
    hide OrderedBy, DistinctBy;
    SameMembers(s, t);
    if s != [] {
      assert s[0] in s && t[0] in t;
      SameFirst(s, t, key);
      Tail(s, key);
      Tail(t, key);
      OrderedUnique(s[1..], t[1..], key);
    }
  }

  /** Whatever order distinct keys arrive in, they sort alike. */
  lemma SortUnique<T(!new)>(s: seq<T>, t: seq<T>, key: T -> string)
    requires multiset(s) == multiset(t) && DistinctBy(s, key)
    ensures SortBy(s, key) == SortBy(t, key) && DistinctBy(t, key)
  {
    hide SortBy, OrderedBy, DistinctBy;
    SortOrdered(s, key);
    SortOrdered(t, key);
    SortDistinct(s, key);
    SortDistinct(t, key);
    OrderedUnique(SortBy(s, key), SortBy(t, key), key);
  }

  /** Sequences with distinct keys and the same members have the same members as
      often. */
  lemma SameCounts<T(!new)>(s: seq<T>, t: seq<T>, key: T -> string)
    requires DistinctBy(s, key) && DistinctBy(t, key) && forall x :: x in s <==> x in t
    ensures multiset(s) == multiset(t)
  {
    hide DistinctBy;
    forall x ensures multiset(s)[x] == multiset(t)[x] {
      CountOnce(s, key, x);
      CountOnce(t, key, x);
    }
  }

  lemma {:induction false} CountOnce<T(!new)>(s: seq<T>, key: T -> string, x: T)
    requires DistinctBy(s, key)
    ensures multiset(s)[x] == if x in s then 1 else 0
  {
    hide DistinctBy;
    if s != [] {
      var more := s[1..];
      assert s == [s[0]] + more;
      DistinctCons(s[0], more, key);
      CountOnce(more, key, x);
    }
  }
}
