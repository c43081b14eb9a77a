/** Message edits in rooms: the batch view of tinyclient/rooms.go picks each
    author's newest edit, the live view of tinyclient/rooms.js applies edits as
    they arrive, and the two agree. */
module RoomEdits {
  import opened Prelude

  const EDIT: nat := 40003

  /** An event with the values of its "e" tags. */
  datatype Event = Event(kind: nat, pubkey: string, content: string, createdAt: int, targets: seq<string>)

  datatype Message = Message(id: string, pubkey: string, content: string, createdAt: int)

  /** A message as a page shows it. */
  datatype Item = Item(content: string, updatedAt: int, edited: bool)

  function Fresh(m: Message): Item { Item(m.content, m.createdAt, false) }

  // ------------------------------------------------------------------
  // The batch view

  /** This key's edit of that message. */
  predicate Edits(e: Event, target: string, pubkey: string) {
    e.kind == EDIT && e.targets != [] && e.targets[|e.targets| - 1] == target && e.pubkey == pubkey
  }

  /** The newest edit, the first of equally new ones. */
  function Newest(events: seq<Event>, target: string, pubkey: string): (r: Option<Event>)
    ensures r.Some? ==> r.value in events && Edits(r.value, target, pubkey)
    ensures r.Some? ==> forall e :: e in events && Edits(e, target, pubkey) ==> e.createdAt <= r.value.createdAt
    ensures r == None ==> forall e :: e in events ==> !Edits(e, target, pubkey)
  {
    if events == [] then None
    else
      var prior, last := Newest(events[..|events| - 1], target, pubkey), events[|events| - 1];
      assert events == events[..|events| - 1] + [last];
      if Edits(last, target, pubkey) && (prior == None || last.createdAt > prior.value.createdAt) then Some(last) else prior
  }

  function Lookup(edits: map<string, map<string, Event>>, target: string, pubkey: string): Option<Event> {
    if target in edits && pubkey in edits[target] then Some(edits[target][pubkey]) else None
  }

  ghost predicate Summarizes(events: seq<Event>, edits: map<string, map<string, Event>>) {
    forall target, pubkey :: Lookup(edits, target, pubkey) == Newest(events, target, pubkey)
  }

  /** editSummary: the newest edit of each message by each key. */
  method EditSummary(events: seq<Event>) returns (edits: map<string, map<string, Event>>)
    ensures Summarizes(events, edits)
  {
    hide Newest;
    edits := map[];
    NoEdits();
    for i := 0 to |events|
      invariant Summarizes(events[..i], edits)
    {
      var e := events[i];
      NextEvent(events, i, edits);
      if e.kind != EDIT || e.targets == [] {
        continue;
      }
      var target := e.targets[|e.targets| - 1];
      var byKey := if target in edits then edits[target] else map[];
      if e.pubkey !in byKey || e.createdAt > byKey[e.pubkey].createdAt {
        byKey := byKey[e.pubkey := e];
      }
      edits := edits[target := byKey];
    }
    assert events[..|events|] == events;
  }

  lemma NoEdits()
    ensures Summarizes([], map[])
  {}

  lemma NewestNext(events: seq<Event>, i: nat, target: string, pubkey: string)
    requires i < |events|
    ensures var prior, e := Newest(events[..i], target, pubkey), events[i];
      Newest(events[..i + 1], target, pubkey)
        == if Edits(e, target, pubkey) && (prior == None || e.createdAt > prior.value.createdAt) then Some(e) else prior
  {
    var l := events[..i + 1];
    assert l[..|l| - 1] == events[..i] && l[|l| - 1] == events[i];
  }

  lemma NextEvent(events: seq<Event>, i: nat, edits: map<string, map<string, Event>>)
    requires i < |events| && Summarizes(events[..i], edits)
    ensures var e := events[i];
      if e.kind != EDIT || e.targets == [] then Summarizes(events[..i + 1], edits)
      else
        var target := e.targets[|e.targets| - 1];
        var byKey := if target in edits then edits[target] else map[];
        var better := if e.pubkey !in byKey || e.createdAt > byKey[e.pubkey].createdAt then byKey[e.pubkey := e] else byKey;
        Summarizes(events[..i + 1], edits[target := better])
  {
    hide Newest;
    var l := events[..i + 1];
    var e := events[i];
    forall target, pubkey
      ensures var prior := Newest(events[..i], target, pubkey);
        Newest(l, target, pubkey)
          == if Edits(e, target, pubkey) && (prior == None || e.createdAt > prior.value.createdAt) then Some(e) else prior
    {
      NewestNext(events, i, target, pubkey);
    }
  }

  /** roomItems' use of the summary: only the author's edit, and only forward in
      time. */
  function Batch(m: Message, events: seq<Event>): Item {
    var edit := Newest(events, m.id, m.pubkey);
    if edit.Some? && edit.value.createdAt >= m.createdAt then Item(edit.value.content, edit.value.createdAt, true) else Fresh(m)
  }

  // ------------------------------------------------------------------
  // The live view

  /** roomEdit on a rendered message. */
  function Live(m: Message, item: Item, e: Event): Item {
    if Edits(e, m.id, m.pubkey) && e.createdAt >= item.updatedAt then Item(e.content, e.createdAt, true) else item
  }

  function LiveAll(m: Message, item: Item, events: seq<Event>): Item {
    if events == [] then item else Live(m, LiveAll(m, item, events[..|events| - 1]), events[|events| - 1])
  }

  class RenderedMessage {
    const message: Message
    var content: string
    var updatedAt: int
    var edited: bool

    ghost function View(): Item
      reads this
    {
      Item(content, updatedAt, edited)
    }

    constructor (m: Message)
      ensures message == m && View() == Fresh(m)
    {
      message, content, updatedAt, edited := m, m.content, m.createdAt, false;
    }

    method RoomEdit(e: Event)
      modifies this
      ensures View() == if e.kind == EDIT then Live(message, old(View()), e) else old(View())
    {
      if e.kind != EDIT || e.targets == [] || e.targets[|e.targets| - 1] != message.id || e.pubkey != message.pubkey {
        return;
      }
      if e.createdAt < updatedAt {
        return;
      }
      updatedAt := e.createdAt;
      content := e.content;
      if edited {
        return;
      }
      edited := true;
    }
  }

  // ------------------------------------------------------------------
  // Agreement

  /** An edit that may show: by the author, and not older than the message. */
  predicate Shows(m: Message, e: Event) { Edits(e, m.id, m.pubkey) && e.createdAt >= m.createdAt }

  /** None of these edits that may show is newer. */
  ghost predicate Top(m: Message, s: seq<Event>, e: Event) {
    e in s && Shows(m, e) && forall f :: f in s && Shows(m, f) ==> f.createdAt <= e.createdAt
  }

  /** The newest edits that may show say the same. */
  ghost predicate NewestAgree(m: Message, s: seq<Event>) {
    forall e, f :: Top(m, s, e) && Top(m, s, f) ==> e.content == f.content
  }

  function Edited(e: Event): Item { Item(e.content, e.createdAt, true) }

  /** The message as written when no edit may show, one of the newest edits
      otherwise. */
  ghost predicate Current(m: Message, s: seq<Event>, item: Item) {
    || (item == Fresh(m) && forall e :: e in s ==> !Shows(m, e))
    || exists e :: Top(m, s, e) && item == Edited(e)
  }

  lemma BatchCurrent(m: Message, s: seq<Event>)
    ensures Current(m, s, Batch(m, s))
  {
    hide Newest;
    var edit := Newest(s, m.id, m.pubkey);
    if edit.Some? && edit.value.createdAt >= m.createdAt {
      assert Top(m, s, edit.value);
    }
  }

  /** Applying an edit live keeps the item current. */
  lemma LiveCurrent(m: Message, s: seq<Event>, item: Item, e: Event)
    requires Current(m, s, item)
    ensures Current(m, s + [e], Live(m, item, e))
  {
    hide Edits;
    var l := s + [e];
    if Edits(e, m.id, m.pubkey) && e.createdAt >= item.updatedAt {
      assert Top(m, l, e);
    } else if item != Fresh(m) || exists x :: x in s && Shows(m, x) {
      var x :| Top(m, s, x) && item == Edited(x);
      assert Top(m, l, x);
    }
  }

  lemma {:induction false} LiveAllCurrent(m: Message, rendered: seq<Event>, item: Item, arrived: seq<Event>)
    requires Current(m, rendered, item)
    ensures Current(m, rendered + arrived, LiveAll(m, item, arrived))
  {
    hide Current, Live;
    if arrived == [] {
      assert rendered + arrived == rendered;
    } else {
      var init, last := arrived[..|arrived| - 1], arrived[|arrived| - 1];
      LiveAllCurrent(m, rendered, item, init);
      LiveCurrent(m, rendered + init, LiveAll(m, item, init), last);
      assert rendered + arrived == (rendered + init) + [last];
    }
  }

  lemma CurrentUnique(m: Message, s: seq<Event>, x: Item, y: Item)
    requires NewestAgree(m, s) && Current(m, s, x) && Current(m, s, y)
    ensures x == y
  {
    hide Shows;
    if e :| Top(m, s, e) && x == Edited(e) {
      if f :| Top(m, s, f) && y == Edited(f) {}
    }
  }

  /** From any batch-rendered start, live edits in any order and with any
      repetition lead to the batch view of them all, whenever the newest edits
      agree. */
  lemma LiveRefinesBatch(m: Message, rendered: seq<Event>, arrived: seq<Event>)
    requires NewestAgree(m, rendered + arrived)
    ensures LiveAll(m, Batch(m, rendered), arrived) == Batch(m, rendered + arrived)
  {
    hide Current, NewestAgree, Batch;
    BatchCurrent(m, rendered);
    LiveAllCurrent(m, rendered, Batch(m, rendered), arrived);
    BatchCurrent(m, rendered + arrived);
    CurrentUnique(m, rendered + arrived, LiveAll(m, Batch(m, rendered), arrived), Batch(m, rendered + arrived));
  }

  /** Among edits that disagree at the top, the batch view shows the one listed
      first and the live view the one that arrives last. */
  lemma TieSplits(m: Message, s: seq<Event>, e: Event, f: Event)
    requires var all := [e] + s + [f]; Top(m, all, e) && Top(m, all, f) && e.content != f.content
    ensures LiveAll(m, Fresh(m), [e] + s + [f]) != Batch(m, [e] + s + [f])
  {
    hide Newest, Edits;
    var all := [e] + s + [f];
    FirstNewest(m, [e], s + [f]);
    assert [e] + (s + [f]) == all;
    assert all[..|all| - 1] == [e] + s && all[|all| - 1] == f;
    var before := LiveAll(m, Fresh(m), [e] + s);
    assert LiveAll(m, Fresh(m), all) == Live(m, before, f);
    NothingEdited(m);
    LiveAllCurrent(m, [], Fresh(m), [e] + s);
    assert [] + ([e] + s) == [e] + s;
    NotNewer(m, [e] + s, f, before);
  }

  lemma NothingEdited(m: Message)
    ensures Current(m, [], Fresh(m))
  {}

  /** A newest edit is never older than what is shown. */
  lemma NotNewer(m: Message, s: seq<Event>, f: Event, item: Item)
    requires Top(m, s + [f], f) && Current(m, s, item)
    ensures f.createdAt >= item.updatedAt
  {
    hide Edits;
    if x :| Top(m, s, x) && item == Edited(x) {
      assert x in s + [f];
    }
  }

  /** Nothing listed after a newest edit replaces it in the batch view. */
  lemma {:induction false} FirstNewest(m: Message, first: seq<Event>, more: seq<Event>)
    requires |first| == 1 && Top(m, first + more, first[0])
    ensures Newest(first + more, m.id, m.pubkey) == Some(first[0])
  {
    hide Newest, Edits;
    var all := first + more;
    if more == [] {
      assert all[..0] == [] && all[..1] == all;
      NewestNext(all, 0, m.id, m.pubkey);
      NoEdits();
      assert Lookup(map[], m.id, m.pubkey) == Newest([], m.id, m.pubkey);
    } else {
      var init := more[..|more| - 1];
      var n := |all| - 1;
      assert all[..n] == first + init && all[..n + 1] == all;
      forall x | x in first + init && Shows(m, x) ensures x.createdAt <= first[0].createdAt { assert x in all; }
      FirstNewest(m, first, init);
      NewestNext(all, n, m.id, m.pubkey);
      assert all[n] in all;
    }
  }

  /** The views agree on every order and every split of the same edits into
      rendered and arrived ones if and only if the newest edits agree. */
  lemma AgreeExactly(m: Message, s: seq<Event>)
    ensures (forall rendered, arrived :: multiset(rendered + arrived) == multiset(s)
               ==> LiveAll(m, Batch(m, rendered), arrived) == Batch(m, rendered + arrived))
       <==> NewestAgree(m, s)
  {
    hide LiveAll, Batch, NewestAgree;
    if NewestAgree(m, s) {
      forall rendered, arrived | multiset(rendered + arrived) == multiset(s)
        ensures LiveAll(m, Batch(m, rendered), arrived) == Batch(m, rendered + arrived)
      {
        AgreeMembers(m, s, rendered + arrived);
        LiveRefinesBatch(m, rendered, arrived);
      }
    } else {
      var arrived := SplittingOrder(m, s);
      assert [] + arrived == arrived;
      BatchOfNone(m);
      assert LiveAll(m, Batch(m, []), arrived) != Batch(m, [] + arrived);
    }
  }

  lemma BatchOfNone(m: Message)
    ensures Batch(m, []) == Fresh(m)
  {}

  lemma SameMembers(s: seq<Event>, t: seq<Event>)
    requires multiset(s) == multiset(t)
    ensures forall e :: e in s <==> e in t
  {
    forall e ensures e in s <==> e in t {
      assert e in s <==> e in multiset(s);
      assert e in t <==> e in multiset(t);
    }
  }

  lemma TopMembers(m: Message, s: seq<Event>, t: seq<Event>, e: Event)
    requires forall x :: x in s <==> x in t
    ensures Top(m, s, e) <==> Top(m, t, e)
  {
    hide Shows;
  }

  lemma AgreeMembers(m: Message, s: seq<Event>, t: seq<Event>)
    requires multiset(s) == multiset(t) && NewestAgree(m, s)
    ensures NewestAgree(m, t)
  {
    hide Top;
    SameMembers(s, t);
    forall e ensures Top(m, s, e) <==> Top(m, t, e) { TopMembers(m, s, t, e); }
  }

  /** An order of the edits on which the views part. */
  lemma SplittingOrder(m: Message, s: seq<Event>) returns (order: seq<Event>)
    requires !NewestAgree(m, s)
    ensures multiset(order) == multiset(s) && LiveAll(m, Fresh(m), order) != Batch(m, order)
  {
    hide Shows, LiveAll, Batch, Top, Without;
    var e, f :| Top(m, s, e) && Top(m, s, f) && e.content != f.content;
    TopIn(m, s, e);
    TopIn(m, s, f);
    var i :| 0 <= i < |s| && s[i] == e;
    var j :| 0 <= j < |s| && s[j] == f;
    var middle := if i < j then Without(s, i, j) else Without(s, j, i);
    order := [e] + middle + [f];
    if i < j { WithoutKeeps(s, i, j); } else { WithoutKeeps(s, j, i); }
    EndsAdded(middle, e, f);
    TiedOrder(m, s, middle, e, f);
  }

  lemma EndsAdded(middle: seq<Event>, e: Event, f: Event)
    ensures multiset([e] + middle + [f]) == multiset(middle) + multiset{e, f}
    ensures multiset{e, f} == multiset{f, e}
  {}

  lemma TiedOrder(m: Message, s: seq<Event>, middle: seq<Event>, e: Event, f: Event)
    requires multiset([e] + middle + [f]) == multiset(s) && Top(m, s, e) && Top(m, s, f) && e.content != f.content
    ensures LiveAll(m, Fresh(m), [e] + middle + [f]) != Batch(m, [e] + middle + [f])
  {
    hide Top, LiveAll, Batch;
    var order := [e] + middle + [f];
    SameMembers(s, order);
    TopMembers(m, s, order, e);
    TopMembers(m, s, order, f);
    TieSplits(m, middle, e, f);
  }

  lemma TopIn(m: Message, s: seq<Event>, e: Event)
    requires Top(m, s, e)
    ensures e in s
  {}

  function Without(s: seq<Event>, i: nat, j: nat): seq<Event>
    requires i < j < |s|
  {
    s[..i] + s[i + 1..j] + s[j + 1..]
  }

  lemma WithoutKeeps(s: seq<Event>, i: nat, j: nat)
    requires i < j < |s|
    ensures multiset(s) == multiset(Without(s, i, j)) + multiset{s[i], s[j]}
  {
    assert s == s[..i] + [s[i]] + s[i + 1..j] + [s[j]] + s[j + 1..];
  }

  /** Edits of different times always agree. */
  lemma DistinctTimesAgree(m: Message, s: seq<Event>)
    requires forall e, f :: e in s && f in s && Shows(m, e) && Shows(m, f) && e.createdAt == f.createdAt ==> e == f
    ensures NewestAgree(m, s)
  {
    hide Edits;
  }

  /** The batch view does not depend on the order the edits are listed in, when
      the newest agree. */
  lemma BatchOrder(m: Message, s: seq<Event>, t: seq<Event>)
    requires multiset(s) == multiset(t) && NewestAgree(m, s)
    ensures Batch(m, s) == Batch(m, t)
  {
    hide Batch, NewestAgree, Current;
    assert [] + s == s && [] + t == t;
    BatchCurrent(m, s);
    BatchCurrent(m, t);
    CurrentMembers(m, t, s, Batch(m, t));
    CurrentUnique(m, s, Batch(m, s), Batch(m, t));
  }

  lemma CurrentMembers(m: Message, s: seq<Event>, t: seq<Event>, item: Item)
    requires multiset(s) == multiset(t) && Current(m, s, item)
    ensures Current(m, t, item)
  {
    hide Top, Shows;
    SameMembers(s, t);
    forall e ensures Top(m, s, e) <==> Top(m, t, e) { TopMembers(m, s, t, e); }
  }

  /** Nobody else's edit shows. */
  lemma {:induction false} OthersIgnored(m: Message, item: Item, arrived: seq<Event>)
    requires forall e :: e in arrived ==> e.pubkey != m.pubkey
    ensures LiveAll(m, item, arrived) == item && Batch(m, arrived) == Fresh(m)
  {
    if arrived != [] {
      OthersIgnored(m, item, arrived[..|arrived| - 1]);
    }
  }

  /** Alone, an event edits a message, in both views, exactly when it is an edit
      of kind 40003 by the message's author whose last "e" value is the message,
      and it is not older. */
  lemma EditExact(m: Message, e: Event, earlier: seq<string>, last: string)
    requires e.targets == earlier + [last]
    ensures Batch(m, [e]) == Live(m, Fresh(m), e)
    ensures e.kind == 40003 && e.pubkey == m.pubkey && last == m.id && e.createdAt >= m.createdAt
       <==> Live(m, Fresh(m), e) == Item(e.content, e.createdAt, true)
    ensures Live(m, Fresh(m), e) != Item(e.content, e.createdAt, true) ==> Live(m, Fresh(m), e) == Item(m.content, m.createdAt, false)
  {
    var none: seq<Event> := [];
    assert [e][..0] == none;
  }
}
