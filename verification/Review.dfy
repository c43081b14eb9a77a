/** reviewDiffView of tinyclient/review.go: replies are placed under the diff
    rows they name, in one pass that reuses the array it reads. */
module Review {
  import opened Prelude
  import opened Diff
  import Decimal

  /** A reply and the place it names. */
  datatype Reply = Reply(id: string, file: string, side: string, line: int)

  function Itoa(n: int): string { if n < 0 then "-" + Decimal.Print(-n) else Decimal.Print(n) }

  /** reviewKey. */
  function Key(file: string, side: string, line: int): string { side + ":" + Itoa(line) + ":" + file }

  // ------------------------------------------------------------------
  // The index of numbered rows

  function RowKeys(row: Row): set<string> {
    if row.file == "" then {} else SideKey(row.file, "new", row.right) + SideKey(row.file, "old", row.left)
  }

  function SideKey(file: string, side: string, line: nat): set<string> {
    if line > 0 then {Key(file, side, line)} else {}
  }

  /** Each key leads to the last of the first n rows that has it. */
  ghost predicate Indexes(rows: seq<Row>, n: nat, index: map<string, nat>)
    requires n <= |rows|
  {
    && (forall i, k :: 0 <= i < n && k in RowKeys(rows[i]) ==> k in index && index[k] >= i)
    && forall k :: k in index ==> index[k] < n && k in RowKeys(rows[index[k]])
  }

  method BuildIndex(rows: seq<Row>) returns (index: map<string, nat>)
    ensures Indexes(rows, |rows|, index)
  {
    hide Key, Indexes;
    index := map[];
    NothingIndexed(rows);
    for n := 0 to |rows|
      invariant Indexes(rows, n, index)
    {
      var row := rows[n];
      RowIndexed(rows, n, index);
      if row.file != "" {
        if row.right > 0 {
          index := index[Key(row.file, "new", row.right) := n];
        }
        if row.left > 0 {
          index := index[Key(row.file, "old", row.left) := n];
        }
      }
    }
  }

  lemma NothingIndexed(rows: seq<Row>)
    ensures Indexes(rows, 0, map[])
  {}

  lemma RowIndexed(rows: seq<Row>, n: nat, index: map<string, nat>)
    requires n < |rows| && Indexes(rows, n, index)
    ensures var row := rows[n];
      var right := if row.file != "" && row.right > 0 then index[Key(row.file, "new", row.right) := n] else index;
      var left := if row.file != "" && row.left > 0 then right[Key(row.file, "old", row.left) := n] else right;
      Indexes(rows, n + 1, left)
  {
    hide Key;
  }

  /** The row a reply goes under, if any. */
  function Place(index: map<string, nat>, r: Reply): Option<nat> {
    var k := Key(r.file, r.side, r.line);
    if r.file == "" || r.line < 1 || k !in index then None else Some(index[k])
  }

  // ------------------------------------------------------------------
  // Keys and rows

  /** The row the reply names. */
  predicate Own(row: Row, r: Reply) {
    row.file == r.file && ((r.side == "new" && row.right == r.line) || (r.side == "old" && row.left == r.line))
  }

  lemma ItoaPlain(n: nat)
    ensures ':' !in Itoa(n)
  {}

  /** A key gives back its parts, when the side has no colon. */
  lemma KeyParts(f: string, s: string, n: nat, g: string, t: string, m: nat)
    requires Key(f, s, n) == Key(g, t, m) && ':' !in s && ':' !in t
    ensures f == g && s == t && n == m
  {
    hide Itoa;
    ItoaPlain(n);
    ItoaPlain(m);
    var k := Key(f, s, n);
    var a, b := Itoa(n) + [':'] + f, Itoa(m) + [':'] + g;
    assert k == s + [':'] + a && k == t + [':'] + b;
    BeforeCut(s, ':', a);
    BeforeCut(t, ':', b);
    assert a == k[|s| + 1..] && b == k[|s| + 1..];
    BeforeCut(Itoa(n), ':', f);
    BeforeCut(Itoa(m), ':', g);
    assert f == a[|Itoa(n)| + 1..] && g == a[|Itoa(n)| + 1..];
    ItoaInjective(n, m);
  }

  lemma ItoaInjective(n: nat, m: nat)
    requires Itoa(n) == Itoa(m)
    ensures n == m
  {
    Decimal.PrintInjective(n, m);
  }

  /** A placed reply stands under the row it names exactly when its side has no
      colon in it. */
  lemma PlacedOwn(rows: seq<Row>, index: map<string, nat>, r: Reply)
    requires Indexes(rows, |rows|, index) && Place(index, r).Some?
    ensures Own(rows[Place(index, r).value], r) <==> ':' !in r.side
    ensures r.file != "" && r.line >= 1
  {
    hide Key;
    var row := rows[Place(index, r).value];
    if ':' !in r.side {
      if row.right > 0 && Key(r.file, r.side, r.line) == Key(row.file, "new", row.right) {
        KeyParts(r.file, r.side, r.line, row.file, "new", row.right);
      } else {
        KeyParts(r.file, r.side, r.line, row.file, "old", row.left);
      }
    }
  }

  /** A reply that names a side goes under the last row that has its file, its
      side and its line; it needs a file and a line from 1 on. */
  lemma PlacedExact(rows: seq<Row>, index: map<string, nat>, r: Reply, at: nat)
    requires Indexes(rows, |rows|, index) && ':' !in r.side
    ensures Place(index, r) == Some(at) <==> r.file != "" && r.line >= 1 && LastOwn(rows, r, at)
  {
    hide Key, Indexes;
    forall i | 0 <= i < |rows| && Own(rows[i], r) && r.file != "" && r.line >= 1 ensures Place(index, r).Some? && Place(index, r).value >= i {
      NamedPlaced(rows, index, r, i);
    }
    if Place(index, r).Some? {
      PlacedOwn(rows, index, r);
      IndexBound(rows, index, r);
    }
  }

  predicate LastOwn(rows: seq<Row>, r: Reply, at: nat) {
    at < |rows| && Own(rows[at], r) && forall i :: at < i < |rows| ==> !Own(rows[i], r)
  }

  lemma IndexBound(rows: seq<Row>, index: map<string, nat>, r: Reply)
    requires Indexes(rows, |rows|, index) && Place(index, r).Some?
    ensures Place(index, r).value < |rows|
  {
    hide Key;
  }

  /** A reply that names a row of the diff is placed. */
  lemma NamedPlaced(rows: seq<Row>, index: map<string, nat>, r: Reply, i: nat)
    requires Indexes(rows, |rows|, index) && i < |rows| && Own(rows[i], r) && r.file != "" && r.line >= 1
    ensures Place(index, r).Some? && Place(index, r).value >= i
  {
    hide Key;
    assert Key(r.file, r.side, r.line) in RowKeys(rows[i]);
  }

  /** A colon in the side can name another file's row: here line 7 of "bar"
      lands under line 3 of a file called "7:bar". */
  lemma ColonMisplaces()
    ensures var row, r := Row(1, "+x", "ins", "7:bar", 0, 3), Reply("", "bar", "new:3", 7);
      var index := map[Key(row.file, "new", row.right) := 0];
      Indexes([row], 1, index) && Place(index, r) == Some(0) && !Own(row, r)
  {
    assert Itoa(7) == "7" && Itoa(3) == "3";
    var k := Key("7:bar", "new", 3);
    assert Key("bar", "new:3", 7) == "new:3:7:bar" == k;
  }

  // ------------------------------------------------------------------
  // Placing the replies

  /** Replies that stay in the thread, in their order. */
  function Unplaced(index: map<string, nat>, s: seq<Reply>): seq<Reply> {
    if s == [] then []
    else
      var last := s[|s| - 1];
      Unplaced(index, s[..|s| - 1]) + (if Place(index, last) == None then [last] else [])
  }

  /** Replies that go under one row, in their order. */
  function PlacedAt(index: map<string, nat>, s: seq<Reply>, at: nat): seq<Reply> {
    if s == [] then []
    else
      var last := s[|s| - 1];
      PlacedAt(index, s[..|s| - 1], at) + (if Place(index, last) == Some(at) then [last] else [])
  }

  function Under(placed: map<nat, seq<Reply>>, at: nat): seq<Reply> { if at in placed then placed[at] else [] }

  ghost predicate Holds(index: map<string, nat>, s: seq<Reply>, placed: map<nat, seq<Reply>>) {
    && (forall at :: Under(placed, at) == PlacedAt(index, s, at))
    && forall at :: at in placed ==> placed[at] != []
  }

  lemma NextReply(index: map<string, nat>, s: seq<Reply>, r: Reply, at: nat)
    ensures Unplaced(index, s + [r]) == Unplaced(index, s) + (if Place(index, r) == None then [r] else [])
    ensures PlacedAt(index, s + [r], at) == PlacedAt(index, s, at) + (if Place(index, r) == Some(at) then [r] else [])
  {
    var l := s + [r];
    assert l[|l| - 1] == r && l[..|l| - 1] == s;
  }

  lemma NextPlaced(index: map<string, nat>, s: seq<Reply>, r: Reply, placed: map<nat, seq<Reply>>)
    requires Holds(index, s, placed)
    ensures Place(index, r) == None ==> Holds(index, s + [r], placed)
    ensures Place(index, r).Some? ==>
      var at := Place(index, r).value; Holds(index, s + [r], placed[at := Under(placed, at) + [r]])
  {
    hide Place, PlacedAt;
    forall at: nat ensures PlacedAt(index, s + [r], at) == PlacedAt(index, s, at) + (if Place(index, r) == Some(at) then [r] else []) {
      NextReply(index, s, r, at);
    }
  }

  /** The loop over the replies: the thread is written into the front of the
      array while the rest of it is still to be read. */
  method Partition(replies: array<Reply>, index: map<string, nat>) returns (thread: nat, placed: map<nat, seq<Reply>>)
    modifies replies
    ensures thread <= replies.Length && replies[..thread] == Unplaced(index, old(replies[..]))
    ensures Holds(index, old(replies[..]), placed)
  {
    hide Place, Unplaced, PlacedAt, Holds;
    ghost var all := replies[..];
    thread, placed := 0, map[];
    PlacedNone(index);
    for i := 0 to replies.Length
      invariant thread <= i && replies[i..] == all[i..]
      invariant replies[..thread] == Unplaced(index, all[..i]) && Holds(index, all[..i], placed)
    {
      var reply := replies[i];
      assert reply == replies[i..][0] == all[i];
      assert all[..i + 1] == all[..i] + [reply];
      NextReply(index, all[..i], reply, 0);
      NextPlaced(index, all[..i], reply, placed);
      var at := Place(index, reply);
      if at == None {
        ghost var front := replies[..thread];
        replies[thread] := reply;
        thread := thread + 1;
        assert replies[..thread] == front + [reply];
      } else {
        placed := placed[at.value := Under(placed, at.value) + [reply]];
      }
      assert replies[i + 1..] == all[i + 1..];
    }
    assert all[..replies.Length] == all;
  }

  lemma PlacedNone(index: map<string, nat>)
    ensures Unplaced(index, []) == [] && Holds(index, [], map[])
  {}

  lemma CountLast(s: seq<Reply>, r: Reply)
    requires s != []
    ensures multiset(s)[r] == multiset(s[..|s| - 1])[r] + (if s[|s| - 1] == r then 1 else 0)
  {
    assert s == s[..|s| - 1] + [s[|s| - 1]];
  }

  lemma CountMore(a: seq<Reply>, b: seq<Reply>, r: Reply)
    ensures multiset(a + b)[r] == multiset(a)[r] + multiset(b)[r]
  {}

  lemma {:induction false} UnplacedOnce(index: map<string, nat>, s: seq<Reply>, r: Reply)
    ensures multiset(Unplaced(index, s))[r] == if Place(index, r) == None then multiset(s)[r] else 0
  {
    hide Place;
    if s != [] {
      var init, last := s[..|s| - 1], s[|s| - 1];
      UnplacedOnce(index, init, r);
      CountLast(s, r);
      CountMore(Unplaced(index, init), if Place(index, last) == None then [last] else [], r);
    }
  }

  lemma {:induction false} PlacedAtOnce(index: map<string, nat>, s: seq<Reply>, r: Reply, at: nat)
    ensures multiset(PlacedAt(index, s, at))[r] == if Place(index, r) == Some(at) then multiset(s)[r] else 0
  {
    hide Place;
    if s != [] {
      var init, last := s[..|s| - 1], s[|s| - 1];
      PlacedAtOnce(index, init, r, at);
      CountLast(s, r);
      CountMore(PlacedAt(index, init, at), if Place(index, last) == Some(at) then [last] else [], r);
    }
  }

  /** Every reply is in exactly one place, as often as it arrived. */
  lemma PlacedOnce(index: map<string, nat>, s: seq<Reply>, r: Reply)
    ensures multiset(Unplaced(index, s))[r] == if Place(index, r) == None then multiset(s)[r] else 0
    ensures forall at: nat :: multiset(PlacedAt(index, s, at))[r] == if Place(index, r) == Some(at) then multiset(s)[r] else 0
  {
    hide Place, Unplaced, PlacedAt;
    UnplacedOnce(index, s, r);
    forall at: nat ensures multiset(PlacedAt(index, s, at))[r] == if Place(index, r) == Some(at) then multiset(s)[r] else 0 {
      PlacedAtOnce(index, s, r, at);
    }
  }

  lemma UnplacedPrefix(index: map<string, nat>, a: seq<Reply>, b: seq<Reply>)
    ensures Unplaced(index, a) <= Unplaced(index, a + b)
    ensures forall at: nat :: PlacedAt(index, a, at) <= PlacedAt(index, a + b, at)
    decreases |b|
  {
    hide Place;
    if b == [] {
      assert a + b == a;
    } else {
      var init := b[..|b| - 1];
      UnplacedPrefix(index, a, init);
      assert a + b == a + init + [b[|b| - 1]];
      forall at: nat ensures Unplaced(index, a + init) <= Unplaced(index, a + b) && PlacedAt(index, a + init, at) <= PlacedAt(index, a + b, at) {
        NextReply(index, a + init, b[|b| - 1], at);
      }
    }
  }

  /** Replies keep the order they arrived in: each stands behind those of its
      kind that came before it. */
  lemma OrderKept(index: map<string, nat>, s: seq<Reply>, i: nat, at: nat)
    requires i < |s|
    ensures Place(index, s[i]) == None ==>
      var k := |Unplaced(index, s[..i])|; k < |Unplaced(index, s)| && Unplaced(index, s)[k] == s[i]
    ensures Place(index, s[i]) == Some(at) ==>
      var k := |PlacedAt(index, s[..i], at)|; k < |PlacedAt(index, s, at)| && PlacedAt(index, s, at)[k] == s[i]
  {
    hide Place, Unplaced, PlacedAt;
    NextReply(index, s[..i], s[i], at);
    assert s == (s[..i] + [s[i]]) + s[i + 1..];
    UnplacedPrefix(index, s[..i] + [s[i]], s[i + 1..]);
  }

  // ------------------------------------------------------------------
  // Reading order

  ghost predicate Reversal(a: seq<Reply>, b: seq<Reply>) {
    |a| == |b| && forall i :: 0 <= i < |a| ==> a[i] == b[|b| - 1 - i]
  }

  /** Swaps ends until they meet. */
  method ReverseComments(comments: array<Reply>)
    modifies comments
    ensures Reversal(comments[..], old(comments[..]))
  {
    ghost var was := comments[..];
    var n := comments.Length;
    var left, right := 0, n - 1;
    while left < right
      invariant 0 <= left && left + right == n - 1 && right >= left - 1
      invariant forall k :: 0 <= k < left || right < k < n ==> comments[k] == was[n - 1 - k]
      invariant forall k :: left <= k <= right ==> comments[k] == was[k]
    {
      comments[left], comments[right] := comments[right], comments[left];
      left, right := left + 1, right - 1;
    }
  }

  /** The whole view: each row's comments oldest first, given replies newest
      first, and the rest as the thread. */
  method ReviewComments(rows: seq<Row>, replies: array<Reply>)
    returns (thread: seq<Reply>, comments: map<nat, seq<Reply>>, ghost index: map<string, nat>)
    modifies replies
    ensures Indexes(rows, |rows|, index)
    ensures thread == Unplaced(index, old(replies[..]))
    ensures forall at :: Reversal(Under(comments, at), PlacedAt(index, old(replies[..]), at))
    ensures forall at :: at in comments ==> at < |rows|
  {
    hide Place, Unplaced, PlacedAt, Indexes;
    ghost var all := replies[..];
    var table := BuildIndex(rows);
    index := table;
    var kept, placed := Partition(replies, table);
    thread := replies[..kept];
    comments := map[];
    var rest := placed.Keys;
    while rest != {}
      invariant rest <= placed.Keys && comments.Keys == placed.Keys - rest
      invariant forall at :: at in comments ==> Reversal(comments[at], placed[at])
      decreases |rest|
    {
      var at :| at in rest;
      var list := new Reply[|placed[at]|](i requires 0 <= i < |placed[at]| => placed[at][i]);
      assert list[..] == placed[at];
      ReverseComments(list);
      comments := comments[at := list[..]];
      rest := rest - {at};
    }
    forall at ensures Reversal(Under(comments, at), PlacedAt(index, all, at)) {
      assert Under(placed, at) == PlacedAt(index, all, at);
    }
    forall at | at in comments ensures at < |rows| {
      assert PlacedAt(index, all, at) != [];
      PlacedRow(rows, index, all, at);
    }
  }

  lemma {:induction false} PlacedRow(rows: seq<Row>, index: map<string, nat>, s: seq<Reply>, at: nat)
    requires Indexes(rows, |rows|, index) && PlacedAt(index, s, at) != []
    ensures at < |rows|
  {
    hide Key;
    if Place(index, s[|s| - 1]) != Some(at) { PlacedRow(rows, index, s[..|s| - 1], at); }
  }
}
