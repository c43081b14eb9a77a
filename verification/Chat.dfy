/** Direct conversations of tinyclient/chat.js: rumors, what deletions and
    reactions mean, and the loops that compute them. */
module Chat {
  import opened Prelude

  datatype Rumor = Rumor(id: string, pubkey: string, kind: nat, tags: seq<seq<string>>, content: string)

  /** Rumors in the order they were added. */
  type Events = seq<Rumor>

  predicate HexDigit(c: char) { '0' <= c <= '9' || 'a' <= c <= 'f' }

  predicate Hex(s: string) { |s| == 64 && forall c :: c in s ==> HexDigit(c) }

  predicate Tagged(tag: seq<string>, name: string) { |tag| > 1 && tag[0] == name }

  function Participants(r: Rumor): set<string> {
    {r.pubkey} + set tag | tag in r.tags && Tagged(tag, "p") && Hex(tag[1]) :: tag[1]
  }

  function Get(events: Events, id: string): (r: Option<Rumor>)
    ensures r.Some? ==> r.value in events && r.value.id == id
    ensures r == None ==> forall x :: x in events ==> x.id != id
  {
    if events == [] then None else if events[0].id == id then Some(events[0]) else Get(events[1..], id)
  }

  predicate DistinctIds(events: Events) {
    forall i, j :: 0 <= i < j < |events| ==> events[i].id != events[j].id
  }

  predicate Message(r: Rumor) { r.kind == 14 || r.kind == 15 }

  // ------------------------------------------------------------------
  // Deletions

  /** This deletion names that rumor, and the same person wrote both. */
  predicate Deletes(deletion: Rumor, target: Rumor) {
    deletion.kind == 5 && target.pubkey == deletion.pubkey && Names(deletion.tags, "e", target.id)
  }

  /** Some tag has this name and this value. */
  predicate Names(tags: seq<seq<string>>, name: string, value: string) {
    exists k :: 0 <= k < |tags| && |tags[k]| > 1 && tags[k][0] == name && tags[k][1] == value
  }

  /** The rumors deleted by an author's own deletion. */
  ghost function DeletedIds(events: Events): set<string> {
    set t | t in events && (exists d :: d in events && Deletes(d, t)) :: t.id
  }

  /** What one tag of a deletion adds. */
  function TagTargets(events: Events, deletion: Rumor, tag: seq<string>): set<string> {
    if !Tagged(tag, "e") then {}
    else
      match Get(events, tag[1])
      case None => {}
      case Some(target) => if target.pubkey == deletion.pubkey then {target.id} else {}
  }

  ghost predicate DeletedBefore(events: Events, i: nat, id: string)
    requires i <= |events|
  {
    exists t, d :: t in events && d in events[..i] && Deletes(d, t) && t.id == id
  }

  ghost predicate DeletedByTags(events: Events, d: Rumor, j: nat, id: string)
    requires j <= |d.tags|
  {
    exists k :: 0 <= k < j && id in TagTargets(events, d, d.tags[k])
  }

  lemma TagsDelete(events: Events, d: Rumor, id: string)
    requires d.kind == 5 && DistinctIds(events)
    ensures DeletedByTags(events, d, |d.tags|, id) <==> exists t :: t in events && Deletes(d, t) && t.id == id
  {
    if k :| 0 <= k < |d.tags| && id in TagTargets(events, d, d.tags[k]) {
      var t := Get(events, d.tags[k][1]).value;
      assert Deletes(d, t);
    }
    if t :| t in events && Deletes(d, t) && t.id == id {
      var k :| 0 <= k < |d.tags| && |d.tags[k]| > 1 && d.tags[k][0] == "e" && d.tags[k][1] == t.id;
      GetMember(events, t);
      assert id in TagTargets(events, d, d.tags[k]);
    }
  }

  lemma GetMember(events: Events, t: Rumor)
    requires DistinctIds(events) && t in events
    ensures Get(events, t.id) == Some(t)
  {
    var r := Get(events, t.id);
    var i :| 0 <= i < |events| && events[i] == t;
    var j :| 0 <= j < |events| && events[j] == r.value;
  }

  /** The loop of deleted(). */
  method ComputeDeleted(events: Events) returns (ids: set<string>)
    requires DistinctIds(events)
    ensures ids == DeletedIds(events)
  {
    hide Deletes, DistinctIds, TagTargets;
    ids := {};
    for i := 0 to |events|
      invariant forall id :: id in ids <==> DeletedBefore(events, i, id)
    {
      var d := events[i];
      ghost var before := ids;
      if d.kind == 5 {
        for j := 0 to |d.tags|
          invariant forall id :: id in ids <==> id in before || DeletedByTags(events, d, j, id)
        {
          var more := TagTargets(events, d, d.tags[j]);
          forall id ensures DeletedByTags(events, d, j + 1, id) <==> DeletedByTags(events, d, j, id) || id in more {
            NextTag(events, d, j, id);
          }
          ids := ids + more;
        }
      }
      forall id ensures id in ids <==> DeletedBefore(events, i + 1, id) {
        NextDeletion(events, i, id);
      }
    }
    forall id ensures id in ids <==> id in DeletedIds(events) {
      AllDeletions(events, id);
    }
  }

  lemma NextTag(events: Events, d: Rumor, j: nat, id: string)
    requires j < |d.tags|
    ensures DeletedByTags(events, d, j + 1, id) <==> DeletedByTags(events, d, j, id) || id in TagTargets(events, d, d.tags[j])
  {}

  lemma NextDeletion(events: Events, i: nat, id: string)
    requires i < |events| && DistinctIds(events)
    ensures DeletedBefore(events, i + 1, id)
       <==> DeletedBefore(events, i, id) || (events[i].kind == 5 && DeletedByTags(events, events[i], |events[i].tags|, id))
  {
    hide DeletedByTags, DistinctIds;
    var d := events[i];
    assert events[..i + 1] == events[..i] + [d];
    if d.kind == 5 { TagsDelete(events, d, id); }
  }

  lemma AllDeletions(events: Events, id: string)
    ensures DeletedBefore(events, |events|, id) <==> id in DeletedIds(events)
  {
    hide Deletes;
    assert events[..|events|] == events;
  }

  // ------------------------------------------------------------------
  // Reactions

  predicate Refers(tag: seq<string>) { |tag| > 1 && (tag[0] == "e" || tag[0] == "q") && Hex(tag[1]) }

  /** The last rumor a rumor refers to. */
  function TargetId(tags: seq<seq<string>>): Option<string> {
    if tags == [] then None
    else if Refers(tags[|tags| - 1]) then Some(tags[|tags| - 1][1])
    else TargetId(tags[..|tags| - 1])
  }

  function Label(r: Rumor): string { if r.content == "" || r.content == "+" then "♥" else r.content }

  /** A public key or a rumor's id: 64 lower-case hexadecimal digits. */
  predicate Key64(s: string) { |s| == 64 && forall i :: 0 <= i < |s| ==> s[i] in "0123456789abcdef" }

  /** The tag refers to a rumor: it is named e or q and its value is an id. */
  predicate Reference(tag: seq<string>) { |tag| > 1 && tag[0] in {"e", "q"} && Key64(tag[1]) }

  /** Of the tags that refer to a rumor, the last one has this id. */
  ghost predicate PointsAt(tags: seq<seq<string>>, id: string) {
    exists k :: 0 <= k < |tags| && Reference(tags[k]) && tags[k][1] == id && forall j :: k < j < |tags| ==> !Reference(tags[j])
  }

  /** The author takes part, and so does everybody a p tag names by a key. */
  predicate TakesPart(r: Rumor, p: string) { p == r.pubkey || (Names(r.tags, "p", p) && Key64(p)) }

  /** An empty reaction and a plus are hearts; any other is the mark it says. */
  predicate Puts(r: Rumor, mark: string) {
    (r.content in {"", "+"} ==> mark == "♥") && (r.content !in {"", "+"} ==> mark == r.content)
  }

  lemma KeyExact(s: string)
    ensures Hex(s) <==> Key64(s)
  {
    var digits := "0123456789abcdef";
    forall c: char ensures HexDigit(c) <==> c in digits {
      DigitExact(c);
    }
    if Hex(s) { forall i | 0 <= i < |s| ensures s[i] in digits { assert s[i] in s; } }
  }

  lemma DigitExact(c: char)
    ensures HexDigit(c) <==> c in "0123456789abcdef"
  {
    var digits := "0123456789abcdef";
    if '0' <= c <= '9' { assert digits[c as int - '0' as int] == c; }
    if 'a' <= c <= 'f' { assert digits[10 + c as int - 'a' as int] == c; }
  }

  /** The target is the last reference, and there is none exactly when no tag
      refers to a rumor. */
  lemma {:induction false} TargetExact(tags: seq<seq<string>>)
    ensures forall id :: TargetId(tags) == Some(id) <==> PointsAt(tags, id)
    ensures TargetId(tags) == None <==> forall k :: 0 <= k < |tags| ==> !Reference(tags[k])
  {
    hide Hex, Key64;
    if tags != [] {
      var last, init := tags[|tags| - 1], tags[..|tags| - 1];
      if |last| > 1 { KeyExact(last[1]); }
      assert Refers(last) <==> Reference(last);
      if Refers(last) {
        assert PointsAt(tags, last[1]);
      } else {
        TargetExact(init);
        forall id ensures PointsAt(tags, id) <==> PointsAt(init, id) {
          PointsEarlier(tags, id);
        }
      }
    }
  }

  lemma PointsEarlier(tags: seq<seq<string>>, id: string)
    requires tags != [] && !Reference(tags[|tags| - 1])
    ensures PointsAt(tags, id) <==> PointsAt(tags[..|tags| - 1], id)
  {
    hide Key64;
    var init := tags[..|tags| - 1];
    if k :| 0 <= k < |init| && Reference(init[k]) && init[k][1] == id && forall j :: k < j < |init| ==> !Reference(init[j]) {
      assert Reference(tags[k]);
      forall j | k < j < |tags| ensures !Reference(tags[j]) {
        if j < |init| { assert tags[j] == init[j]; }
      }
    }
    if k :| 0 <= k < |tags| && Reference(tags[k]) && tags[k][1] == id && forall j :: k < j < |tags| ==> !Reference(tags[j]) {
      assert Reference(init[k]);
      forall j | k < j < |init| ensures !Reference(init[j]) { assert tags[j] == init[j]; }
    }
  }

  lemma TakesPartExact(r: Rumor, p: string)
    ensures p in Participants(r) <==> TakesPart(r, p)
  {
    hide Hex, Key64;
    KeyExact(p);
    if tag :| tag in r.tags && Tagged(tag, "p") && Hex(tag[1]) && tag[1] == p {
      var k :| 0 <= k < |r.tags| && r.tags[k] == tag;
      assert Names(r.tags, "p", p);
    }
    if Names(r.tags, "p", p) && Hex(p) {
      var k :| 0 <= k < |r.tags| && |r.tags[k]| > 1 && r.tags[k][0] == "p" && r.tags[k][1] == p;
      assert r.tags[k] in r.tags;
    }
  }

  lemma AllTakePart(r: Rumor, target: Rumor)
    ensures Participants(r) <= Participants(target) <==> forall p :: TakesPart(r, p) ==> TakesPart(target, p)
  {
    hide Participants, TakesPart;
    forall p, x: Rumor ensures p in Participants(x) <==> TakesPart(x, p) {
      TakesPartExact(x, p);
    }
  }

  /** A reaction that counts: not deleted, on a known message, from somebody who
      takes part in it, and sent to nobody else. */
  ghost predicate Reacts(events: Events, r: Rumor, target: Rumor) {
    && r.kind == 7 && r.id !in DeletedIds(events) && target in events && PointsAt(r.tags, target.id)
    && target.kind in {14, 15} && forall p :: TakesPart(r, p) ==> TakesPart(target, p)
  }

  /** Who put this mark on this message. */
  ghost function Authors(events: Events, id: string, mark: string): set<string> {
    set r | r in events && ReactsOn(events, r, id) && Puts(r, mark) :: r.pubkey
  }

  ghost predicate ReactsOn(events: Events, r: Rumor, id: string) {
    exists t :: t in events && t.id == id && Reacts(events, r, t)
  }

  type Index = map<string, map<string, nat>>

  /** Every message with a reaction is listed, with every mark on it, and the
      number beside a mark is the number of people who put it there. */
  ghost predicate Tallies(events: Events, index: Index) {
    && (forall id :: id in index <==> exists r :: r in events && ReactsOn(events, r, id))
    && forall id :: id in index ==> TalliesFor(events, id, index[id])
  }

  ghost predicate TalliesFor(events: Events, id: string, counts: map<string, nat>) {
    && (forall mark :: mark in counts <==> Authors(events, id, mark) != {})
    && forall mark :: mark in counts ==> counts[mark] == |Authors(events, id, mark)|
  }

  /** The tallies determine the index. */
  lemma TalliesUnique(events: Events, a: Index, b: Index)
    requires Tallies(events, a) && Tallies(events, b)
    ensures a == b
  {
    hide Authors, ReactsOn;
    assert a.Keys == b.Keys;
    forall id | id in a ensures a[id] == b[id] {
      assert a[id].Keys == b[id].Keys;
    }
  }

  // ------------------------------------------------------------------
  // The loops of reactions()

  /** The message this rumor counts for, given what is deleted. */
  function CountsFor(events: Events, gone: set<string>, r: Rumor): Option<string> {
    if r.kind != 7 || r.id in gone then None
    else
      match TargetId(r.tags)
      case None => None
      case Some(id) =>
        match Get(events, id)
        case None => None
        case Some(target) =>
          if Message(target) && Participants(r) <= Participants(target) then Some(id) else None
  }

  lemma CountsForReacts(events: Events, r: Rumor, id: string)
    requires DistinctIds(events)
    ensures CountsFor(events, DeletedIds(events), r) == Some(id) <==> ReactsOn(events, r, id)
  {
    hide DeletedIds, Participants, DistinctIds, TargetId, PointsAt, TakesPart;
    TargetExact(r.tags);
    if t :| t in events && t.id == id && Reacts(events, r, t) {
      GetMember(events, t);
      AllTakePart(r, t);
    }
    if CountsFor(events, DeletedIds(events), r) == Some(id) {
      var t := Get(events, id).value;
      AllTakePart(r, t);
      assert Reacts(events, r, t);
    }
  }

  lemma PutsLabel(r: Rumor, mark: string)
    ensures Puts(r, mark) <==> Label(r) == mark
  {}

  /** One person's mark, as the program keys it. */
  function Key(pubkey: string, mark: string): string { pubkey + ":" + mark }

  lemma KeyInjective(p: string, m: string, q: string, n: string)
    requires |p| == |q| && Key(p, m) == Key(q, n)
    ensures p == q && m == n
  {
    var k, l := Key(p, m), Key(q, n);
    assert p == k[..|p|] && q == l[..|q|];
    assert m == k[|p| + 1..] && n == l[|q| + 1..];
  }

  predicate KeysWide(events: Events) { forall r :: r in events ==> |r.pubkey| == 64 }

  ghost predicate Votes(events: Events, gone: set<string>, i: nat, id: string, r: Rumor)
    requires i <= |events|
  {
    r in events[..i] && CountsFor(events, gone, r) == Some(id)
  }

  ghost predicate SomeVote(events: Events, gone: set<string>, i: nat, id: string)
    requires i <= |events|
  {
    exists r :: Votes(events, gone, i, id, r)
  }

  /** The first i rumors, grouped by message and by person and mark. */
  ghost predicate Grouped(events: Events, gone: set<string>, i: nat, grouped: map<string, map<string, string>>)
    requires i <= |events|
  {
    && (forall id :: id in grouped <==> SomeVote(events, gone, i, id))
    && (forall id, r :: Votes(events, gone, i, id, r) ==> HasVote(grouped, id, r))
    && forall id, k :: id in grouped && k in grouped[id] ==> VotedBy(events, gone, i, id, k, grouped[id][k])
  }

  ghost predicate HasVote(grouped: map<string, map<string, string>>, id: string, r: Rumor) {
    id in grouped && Key(r.pubkey, Label(r)) in grouped[id]
  }

  ghost predicate VotedBy(events: Events, gone: set<string>, i: nat, id: string, k: string, mark: string)
    requires i <= |events|
  {
    exists r :: Votes(events, gone, i, id, r) && Key(r.pubkey, Label(r)) == k && Label(r) == mark
  }

  method GroupVotes(events: Events, gone: set<string>) returns (grouped: map<string, map<string, string>>)
    ensures Grouped(events, gone, |events|, grouped)
  {
    hide CountsFor, Key, Label;
    grouped := map[];
    for i := 0 to |events|
      invariant Grouped(events, gone, i, grouped)
    {
      var r := events[i];
      var to := CountsFor(events, gone, r);
      ghost var before := grouped;
      if to.Some? {
        var id := to.value;
        var unique := if id in grouped then grouped[id] else map[];
        grouped := grouped[id := unique[Key(r.pubkey, Label(r)) := Label(r)]];
      }
      NextVote(events, gone, i, before, grouped);
    }
  }

  lemma NextVote(events: Events, gone: set<string>, i: nat, before: map<string, map<string, string>>, after: map<string, map<string, string>>)
    requires i < |events| && Grouped(events, gone, i, before)
    requires var r, to := events[i], CountsFor(events, gone, events[i]);
      after == if to == None then before
               else before[to.value := (if to.value in before then before[to.value] else map[])[Key(r.pubkey, Label(r)) := Label(r)]]
    ensures Grouped(events, gone, i + 1, after)
  {
    hide CountsFor, Key, Label, Votes, SomeVote;
    var n, r := i + 1, events[i];
    var to := CountsFor(events, gone, r);
    forall id, x ensures Votes(events, gone, n, id, x) <==> Votes(events, gone, i, id, x) || (x == r && to == Some(id)) {
      VoteNext(events, gone, i, id, x);
    }
    forall id ensures id in after <==> SomeVote(events, gone, n, id) {
      SomeVoteNext(events, gone, i, id);
    }
    forall id, k | id in after && k in after[id] ensures VotedBy(events, gone, n, id, k, after[id][k]) {
      if id in before && k in before[id] && before[id][k] == after[id][k] {
        var x :| Votes(events, gone, i, id, x) && Key(x.pubkey, Label(x)) == k && Label(x) == after[id][k];
        assert Votes(events, gone, n, id, x);
      } else {
        assert Votes(events, gone, n, id, r);
      }
    }
  }

  lemma VoteNext(events: Events, gone: set<string>, i: nat, id: string, x: Rumor)
    requires i < |events|
    ensures Votes(events, gone, i + 1, id, x)
       <==> Votes(events, gone, i, id, x) || (x == events[i] && CountsFor(events, gone, events[i]) == Some(id))
  {
    hide CountsFor;
    assert events[..i + 1] == events[..i] + [events[i]];
  }

  lemma SomeVoteNext(events: Events, gone: set<string>, i: nat, id: string)
    requires i < |events|
    ensures SomeVote(events, gone, i + 1, id)
       <==> SomeVote(events, gone, i, id) || CountsFor(events, gone, events[i]) == Some(id)
  {
    hide CountsFor, Votes;
    var n := i + 1;
    forall x ensures Votes(events, gone, n, id, x)
                <==> Votes(events, gone, i, id, x) || (x == events[i] && CountsFor(events, gone, events[i]) == Some(id)) {
      VoteNext(events, gone, i, id, x);
    }
    if x :| Votes(events, gone, i, id, x) { assert Votes(events, gone, n, id, x); }
    if CountsFor(events, gone, events[i]) == Some(id) { assert Votes(events, gone, n, id, events[i]); }
  }

  ghost function Marked(unique: map<string, string>, done: set<string>, mark: string): set<string>
    requires done <= unique.Keys
  {
    set k | k in done && unique[k] == mark
  }

  ghost predicate Counted(unique: map<string, string>, done: set<string>, counts: map<string, nat>)
    requires done <= unique.Keys
  {
    && (forall mark :: mark in counts <==> Marked(unique, done, mark) != {})
    && forall mark :: mark in counts ==> counts[mark] == |Marked(unique, done, mark)|
  }

  lemma CountNone(unique: map<string, string>)
    ensures Counted(unique, {}, map[])
  {}

  lemma CountOne(unique: map<string, string>, done: set<string>, k: string, counts: map<string, nat>)
    requires done <= unique.Keys && k in unique && k !in done && Counted(unique, done, counts)
    ensures Counted(unique, done + {k}, counts[unique[k] := (if unique[k] in counts then counts[unique[k]] else 0) + 1])
  {
    var mark, next := unique[k], done + {k};
    forall m ensures Marked(unique, next, m) == if m == mark then Marked(unique, done, m) + {k} else Marked(unique, done, m) {}
    assert k !in Marked(unique, done, mark);
    if mark !in counts { assert Marked(unique, done, mark) == {}; }
  }

  /** How often each mark occurs. */
  method CountMarks(unique: map<string, string>) returns (counts: map<string, nat>)
    ensures Counted(unique, unique.Keys, counts)
  {
    hide Counted;
    counts := map[];
    var rest := unique.Keys;
    ghost var done: set<string> := {};
    CountNone(unique);
    while rest != {}
      invariant done <= unique.Keys && rest == unique.Keys - done
      invariant Counted(unique, done, counts)
      decreases |rest|
    {
      var k :| k in rest;
      var mark := unique[k];
      CountOne(unique, done, k, counts);
      counts := counts[mark := (if mark in counts then counts[mark] else 0) + 1];
      rest := rest - {k};
      done := done + {k};
    }
    assert done == unique.Keys;
  }

  lemma {:induction false} KeyCount(authors: set<string>, mark: string)
    requires forall a :: a in authors ==> |a| == 64
    ensures |set a | a in authors :: Key(a, mark)| == |authors|
    decreases |authors|
  {
    hide Key;
    if authors == {} {
      assert (set a | a in authors :: Key(a, mark)) == {};
    } else {
      var x :| x in authors;
      var more := authors - {x};
      KeyCount(more, mark);
      var keys := set a | a in more :: Key(a, mark);
      assert (set a | a in authors :: Key(a, mark)) == keys + {Key(x, mark)};
      if Key(x, mark) in keys {
        var y :| y in more && Key(y, mark) == Key(x, mark);
        KeyInjective(x, mark, y, mark);
      }
    }
  }

  /** Counting a message's keys is counting its people. */
  lemma GroupTallies(events: Events, grouped: map<string, map<string, string>>, id: string, mark: string)
    requires DistinctIds(events) && KeysWide(events) && Grouped(events, DeletedIds(events), |events|, grouped) && id in grouped
    ensures Marked(grouped[id], grouped[id].Keys, mark) == set a | a in Authors(events, id, mark) :: Key(a, mark)
    ensures |Marked(grouped[id], grouped[id].Keys, mark)| == |Authors(events, id, mark)|
  {
    hide CountsFor, Key, Label, Puts, DeletedIds, ReactsOn, DistinctIds;
    var gone := DeletedIds(events);
    var authors := Authors(events, id, mark);
    assert events[..|events|] == events;
    forall k | k in Marked(grouped[id], grouped[id].Keys, mark) ensures exists a :: a in authors && k == Key(a, mark) {
      var r :| Votes(events, gone, |events|, id, r) && Key(r.pubkey, Label(r)) == k && Label(r) == mark;
      CountsForReacts(events, r, id);
      PutsLabel(r, mark);
      assert r.pubkey in authors;
    }
    forall a | a in authors ensures Key(a, mark) in Marked(grouped[id], grouped[id].Keys, mark) {
      var r :| r in events && ReactsOn(events, r, id) && Puts(r, mark) && r.pubkey == a;
      PutsLabel(r, mark);
      CountsForReacts(events, r, id);
      assert Votes(events, gone, |events|, id, r);
      var x :| Votes(events, gone, |events|, id, x) && Key(x.pubkey, Label(x)) == Key(a, mark) && Label(x) == grouped[id][Key(a, mark)];
      KeyInjective(x.pubkey, Label(x), a, mark);
    }
    KeyCount(authors, mark);
  }

  lemma GroupListed(events: Events, grouped: map<string, map<string, string>>, id: string)
    requires DistinctIds(events) && Grouped(events, DeletedIds(events), |events|, grouped)
    ensures id in grouped <==> exists r :: r in events && ReactsOn(events, r, id)
  {
    hide CountsFor, DeletedIds, ReactsOn, DistinctIds;
    var gone := DeletedIds(events);
    assert events[..|events|] == events;
    if id in grouped {
      var r :| Votes(events, gone, |events|, id, r);
      CountsForReacts(events, r, id);
    }
    if r :| r in events && ReactsOn(events, r, id) {
      CountsForReacts(events, r, id);
      assert Votes(events, gone, |events|, id, r);
    }
  }

  /** The loops of reactions(). */
  method ComputeReactions(events: Events, gone: set<string>) returns (index: Index)
    requires DistinctIds(events) && KeysWide(events) && gone == DeletedIds(events)
    ensures Tallies(events, index)
  {
    hide DistinctIds, DeletedIds, ReactsOn, Authors, Grouped, Marked;
    var grouped := GroupVotes(events, gone);
    index := map[];
    var rest := grouped.Keys;
    while rest != {}
      invariant rest <= grouped.Keys && index.Keys == grouped.Keys - rest
      invariant forall id :: id in index ==> TalliesFor(events, id, index[id])
      decreases |rest|
    {
      var id :| id in rest;
      var counts := CountMarks(grouped[id]);
      forall mark ensures |Marked(grouped[id], grouped[id].Keys, mark)| == |Authors(events, id, mark)| {
        GroupTallies(events, grouped, id, mark);
      }
      forall mark ensures Marked(grouped[id], grouped[id].Keys, mark) != {} <==> Authors(events, id, mark) != {} {
        SameEmpty(Marked(grouped[id], grouped[id].Keys, mark), Authors(events, id, mark));
      }
      index := index[id := counts];
      rest := rest - {id};
    }
    forall id ensures id in index <==> exists r :: r in events && ReactsOn(events, r, id) {
      GroupListed(events, grouped, id);
    }
  }

  lemma SameEmpty(a: set<string>, b: set<string>)
    requires |a| == |b|
    ensures a != {} <==> b != {}
  {}
}
