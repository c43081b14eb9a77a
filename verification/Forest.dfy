/** Trees grown bottom up: leaves are grouped in runs, the runs in runs, until
    one node can hold what is left. File and directory manifests share this
    shape. */
module Forest {
  import opened Prelude
  import opened Grouping

  datatype Tree<T> = Leaf(data: T) | Inner(kids: seq<Tree<T>>)

  /** The leaves in order. */
  function Fringe<T>(t: Tree<T>): seq<T>
    decreases t, 1
  {
    match t
    case Leaf(data) => [data]
    case Inner(kids) => FringeAll(kids)
  }

  function FringeAll<T>(kids: seq<Tree<T>>): seq<T>
    decreases kids, 0
  {
    if kids == [] then [] else Fringe(kids[0]) + FringeAll(kids[1..])
  }

  function Max(a: nat, b: nat): nat { if a < b then b else a }

  /** Manifest levels below a link. */
  function Height<T>(t: Tree<T>): nat
    decreases t, 1
  {
    match t
    case Leaf(_) => 0
    case Inner(kids) => 1 + HeightAll(kids)
  }

  function HeightAll<T>(kids: seq<Tree<T>>): nat
    decreases kids, 0
  {
    if kids == [] then 0 else Max(Height(kids[0]), HeightAll(kids[1..]))
  }

  function InnerRuns<T>(f: seq<Tree<T>>, max: nat): (r: seq<Tree<T>>)
    requires max > 0
    ensures |r| == |Runs(f, max)| && forall i :: 0 <= i < |r| ==> r[i] == Inner(Runs(f, max)[i])
  {
    seq(|Runs(f, max)|, i requires 0 <= i < |Runs(f, max)| => Inner(Runs(f, max)[i]))
  }

  /** Groups until one manifest can hold what is left. */
  function Grow<T>(f: seq<Tree<T>>, max: nat): seq<Tree<T>>
    requires max >= 2
    decreases |f|
  {
    if |f| <= max then f
    else
      RunsCounted(f, max);
      RunsShrink(|f|, max);
      Grow(InnerRuns(f, max), max)
  }

  function Leaves<T>(leaves: seq<T>): (f: seq<Tree<T>>)
    ensures |f| == |leaves| && forall i :: 0 <= i < |f| ==> f[i] == Leaf(leaves[i])
  {
    seq(|leaves|, i requires 0 <= i < |leaves| => Leaf(leaves[i]))
  }

  lemma {:induction false} FringeConcat<T>(a: seq<Tree<T>>, b: seq<Tree<T>>)
    ensures FringeAll(a + b) == FringeAll(a) + FringeAll(b)
  {
    hide Fringe;
    if a == [] {
      assert a + b == b;
    } else {
      FringeConcat(a[1..], b);
      assert (a + b)[1..] == a[1..] + b && (a + b)[0] == a[0];
      Associative(Fringe(a[0]), FringeAll(a[1..]), FringeAll(b));
    }
  }

  lemma {:induction false} FringeOfLeaves<T>(leaves: seq<T>)
    ensures FringeAll(Leaves(leaves)) == leaves
  {
    if leaves != [] {
      FringeOfLeaves(leaves[1..]);
      assert Leaves(leaves)[1..] == Leaves(leaves[1..]);
      assert leaves == [leaves[0]] + leaves[1..];
    }
  }

  lemma {:induction false} FringeOfRuns<T>(f: seq<Tree<T>>, max: nat)
    requires max > 0
    ensures FringeAll(InnerRuns(f, max)) == FringeAll(f)
    decreases |f|
  {
    var r := InnerRuns(f, max);
    if f == [] {
    } else if |f| <= max {
      assert r == [Inner(f)] && r[1..] == [];
    } else {
      FringeOfRuns(f[max..], max);
      FringeConcat(f[..max], f[max..]);
      assert f == f[..max] + f[max..];
      assert r[0] == Inner(f[..max]) && r[1..] == InnerRuns(f[max..], max);
    }
  }

  lemma {:induction false} GrowFringe<T>(f: seq<Tree<T>>, max: nat)
    requires max >= 2
    ensures FringeAll(Grow(f, max)) == FringeAll(f) && |Grow(f, max)| <= max
    decreases |f|
  {
    if |f| > max {
      RunsCounted(f, max);
      RunsShrink(|f|, max);
      GrowFringe(InnerRuns(f, max), max);
      FringeOfRuns(f, max);
    }
  }

  ghost predicate Uniform<T>(f: seq<Tree<T>>, k: nat) { forall t :: t in f ==> Height(t) == k }

  lemma {:induction false} UniformHeight<T>(f: seq<Tree<T>>, k: nat)
    requires Uniform(f, k)
    ensures HeightAll(f) == if f == [] then 0 else k
  {
    hide Height;
    if f != [] {
      assert f == [f[0]] + f[1..];
      UniformHeight(f[1..], k);
    }
  }

  lemma RunsUniform<T>(f: seq<Tree<T>>, max: nat, k: nat)
    requires max > 0 && Uniform(f, k)
    ensures Uniform(InnerRuns(f, max), k + 1)
  {
    forall t | t in InnerRuns(f, max) ensures Height(t) == k + 1 {
      var i :| 0 <= i < |Runs(f, max)| && t == Inner(Runs(f, max)[i]);
      var run := Runs(f, max)[i];
      forall x | x in run ensures x in f { RunMember(f, max, i, x); }
      UniformHeight(run, k);
    }
  }

  lemma {:induction false} RunMember<T>(s: seq<T>, n: nat, i: nat, x: T)
    requires n > 0 && i < |Runs(s, n)| && x in Runs(s, n)[i]
    ensures x in s
    decreases |s|
  {
    if |s| > n {
      if i == 0 {
        assert x in s[..n];
      } else {
        RunMember(s[n..], n, i - 1, x);
      }
    }
  }

  /** Every chunk ends up below the same number of manifests. */
  lemma {:induction false} GrowUniform<T>(f: seq<Tree<T>>, max: nat, k: nat)
    requires max >= 2 && Uniform(f, k)
    ensures Uniform(Grow(f, max), k + Levels(|f|, max))
    decreases |f|
  {
    if |f| > max {
      RunsCounted(f, max);
      RunsShrink(|f|, max);
      RunsUniform(f, max, k);
      GrowUniform(InnerRuns(f, max), max, k + 1);
    }
  }

  lemma LeavesUniform<T>(leaves: seq<T>)
    ensures Uniform(Leaves(leaves), 0)
  {}
}
