/** Cutting a sequence into runs of at most n, and how often that has to be
    repeated until one run is left. The tree builders and the chunker share
    this. */
module Grouping {
  import opened Prelude
  import opened Digits

  function Runs<T>(s: seq<T>, n: nat): (r: seq<seq<T>>)
    requires n > 0
    ensures forall i :: 0 <= i < |r| ==> 0 < |r[i]| <= n
    decreases |s|
  {
    if s == [] then []
    else if |s| <= n then [s]
    else [s[..n]] + Runs(s[n..], n)
  }

  lemma {:induction false} RunsConcat<T>(s: seq<T>, n: nat)
    requires n > 0
    ensures Concat(Runs(s, n)) == s
    decreases |s|
  {
    if |s| > n {
      RunsConcat(s[n..], n);
      var r := Runs(s, n);
      assert r[0] == s[..n] && r[1..] == Runs(s[n..], n);
      assert s == s[..n] + s[n..];
    } else if s != [] {
      assert [s][1..] == [];
      assert Concat([s]) == s + [];
    }
  }

  /** The runs cut so far, and what is left to cut. */
  ghost predicate Cut<T>(f: seq<T>, max: nat, i: nat, done: seq<seq<T>>)
    requires max > 0
  {
    i <= |f| && Runs(f, max) == done + Runs(f[i..], max)
  }

  lemma CutStart<T>(f: seq<T>, max: nat)
    requires max > 0
    ensures Cut(f, max, 0, [])
  {
    assert f[0..] == f;
    assert [] + Runs(f, max) == Runs(f, max);
  }

  lemma CutNext<T>(f: seq<T>, max: nat, i: nat, done: seq<seq<T>>, j: nat)
    requires max > 0 && i < |f| && Cut(f, max, i, done) && j == (if i + max < |f| then i + max else |f|)
    ensures Cut(f, max, j, done + [f[i..j]])
    ensures |done| < |Runs(f, max)| && Runs(f, max)[|done|] == f[i..j]
  {
    var rest := f[i..];
    assert Runs(rest, max) == [f[i..j]] + Runs(f[j..], max) by {
      if |rest| > max {
        assert rest[..max] == f[i..j] && rest[max..] == f[j..];
      } else {
        assert rest == f[i..j] && f[j..] == [];
        assert Runs(rest, max) == [rest] && [rest] + [] == [rest];
      }
    }
    Associative(done, [f[i..j]], Runs(f[j..], max));
  }

  lemma CutDone<T>(f: seq<T>, max: nat, done: seq<seq<T>>)
    requires max > 0 && Cut(f, max, |f|, done)
    ensures done == Runs(f, max)
  {
    assert f[|f|..] == [];
    assert done + [] == done;
  }

  /** The number of runs: the quotient, rounded up. */
  function RunCount(m: nat, n: nat): nat
    requires n > 0
    decreases m
  {
    if m == 0 then 0 else if m <= n then 1 else 1 + RunCount(m - n, n)
  }

  lemma {:induction false} RunsCounted<T>(s: seq<T>, n: nat)
    requires n > 0
    ensures |Runs(s, n)| == RunCount(|s|, n)
    decreases |s|
  {
    if |s| > n {
      RunsCounted(s[n..], n);
    }
  }

  lemma {:induction false} RunCountBound(m: nat, n: nat, p: nat)
    requires n > 0
    ensures RunCount(m, n) <= p <==> m <= p * n
    decreases m
  {
    if m > n {
      if p > 0 {
        RunCountBound(m - n, n, p - 1);
        assert (p - 1) * n == p * n - n;
      }
    } else if m > 0 {
      if p > 0 { MulMono(1, p, n); }
    }
  }

  lemma RunsShrink(m: nat, n: nat)
    requires n >= 2 && m > n
    ensures 1 < RunCount(m, n) < m
  {
    RunCountBound(m, n, m - 1);
    MulMono(2, n, m - 1);
    assert (m - 1) * n == n * (m - 1);
    RunCountBound(m, n, 1);
  }

  /** How many times the builders group before at most n links are left. */
  function Levels(m: nat, n: nat): nat
    requires n >= 2
    decreases m
  {
    if m <= n then 0
    else
      RunsShrink(m, n);
      1 + Levels(RunCount(m, n), n)
  }

  /** The height is the least h with m <= n^(h+1). */
  lemma {:induction false} LevelsLeast(m: nat, n: nat, h: nat)
    requires n >= 2
    ensures Levels(m, n) <= h <==> m <= Power(n, h + 1)
    decreases m
  {
    if m <= n {
      PowerAtLeast(n, h);
    } else if h == 0 {
      assert Power(n, 1) == Power(n, 0) * n == n;
    } else {
      RunsShrink(m, n);
      LevelsLeast(RunCount(m, n), n, h - 1);
      RunCountBound(m, n, Power(n, h));
    }
  }

  lemma {:induction false} PowerAtLeast(n: nat, h: nat)
    requires n >= 1
    ensures Power(n, h + 1) >= n && Power(n, h) >= 1
  {
    if h > 0 {
      PowerAtLeast(n, h - 1);
      MulMono(1, Power(n, h), n);
    }
  }

  lemma {:induction false} PowerMono(a: nat, b: nat, k: nat)
    requires a <= b
    ensures Power(a, k) <= Power(b, k)
  {
    if k > 0 {
      PowerMono(a, b, k - 1);
      MulMono(Power(a, k - 1), Power(b, k - 1), a);
      MulMono(a, b, Power(b, k - 1));
    }
  }

  /** Run i is the slice from i times the size on, cut off at the end. */
  lemma {:induction false} RunAt<T>(s: seq<T>, size: nat, i: nat)
    requires size > 0 && i < |Runs(s, size)|
    ensures i * size < |s|
    ensures Runs(s, size)[i] == s[i * size..if (i + 1) * size < |s| then (i + 1) * size else |s|]
    decreases i
  {
    if |s| > size && i > 0 {
      var lo, rest := (i - 1) * size, s[size..];
      assert i * size == lo + size && (i + 1) * size == lo + size + size;
      RunAt(rest, size, i - 1);
      RunShift(s, size, lo, if lo + size < |rest| then lo + size else |rest|);
    }
  }

  lemma RunShift<T>(s: seq<T>, k: nat, lo: nat, hi: nat)
    requires lo <= hi && k + hi <= |s|
    ensures s[k..][lo..hi] == s[k + lo..k + hi]
  {}
}
