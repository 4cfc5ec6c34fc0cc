// Merging timeline events (applyAgentSurfaceEvent and mergeAgentSurfaceEvents
// in app/src/features/agent/useAgentSurfaceController.ts).
module SurfaceMerge {

  datatype Event = Event(id: string, time: int, body: string)

  // ---- Stable sorting by time ----

  /** Behind every event that is not later. */
  function Insert(sorted: seq<Event>, e: Event): (r: seq<Event>) {
    if sorted != [] && sorted[|sorted| - 1].time > e.time then
      Insert(sorted[..|sorted| - 1], e) + [sorted[|sorted| - 1]]
    else sorted + [e]
  }

  function StableSort(events: seq<Event>): (r: seq<Event>) {
    if events == [] then [] else Insert(StableSort(events[..|events| - 1]), events[|events| - 1])
  }

  predicate Sorted(events: seq<Event>) {
    forall i, j :: 0 <= i < j < |events| ==> events[i].time <= events[j].time
  }

  /** The events of one moment, in order. */
  function At(events: seq<Event>, time: int): (r: seq<Event>) {
    if events == [] then []
    else At(events[..|events| - 1], time)
         + (if events[|events| - 1].time == time then [events[|events| - 1]] else [])
  }

  /** Sorted, with the events of each moment in the order they had. */
  ghost predicate StablySorted(events: seq<Event>, r: seq<Event>) {
    Sorted(r) && forall time :: At(r, time) == At(events, time)
  }

  lemma {:induction false} InsertSorts(sorted: seq<Event>, e: Event)
    requires Sorted(sorted)
    ensures Sorted(Insert(sorted, e))
    ensures forall x :: x in Insert(sorted, e) ==> x in sorted || x == e
  {
    if sorted != [] && sorted[|sorted| - 1].time > e.time {
      var front, last := sorted[..|sorted| - 1], sorted[|sorted| - 1];
      InsertSorts(front, e);
      var r := Insert(front, e);
      forall i | 0 <= i < |r|
        ensures r[i].time <= last.time
      {
        assert r[i] in r;
      }
    }
  }

  lemma AtAppend(front: seq<Event>, e: Event, time: int)
    ensures At(front + [e], time) == At(front, time) + (if e.time == time then [e] else [])
  {
    assert (front + [e])[..|front|] == front;
  }

  lemma {:induction false} InsertAt(sorted: seq<Event>, e: Event, time: int)
    requires Sorted(sorted)
    ensures At(Insert(sorted, e), time) == At(sorted, time) + (if e.time == time then [e] else [])
  {
    if sorted != [] && sorted[|sorted| - 1].time > e.time {
      var front, last := sorted[..|sorted| - 1], sorted[|sorted| - 1];
      InsertAt(front, e, time);
      AtAppend(Insert(front, e), last, time);
      AtAppend(front, last, time);
      assert sorted == front + [last];
      if e.time == time {
        assert At(sorted, time) == At(front, time);
      } else {
        assert At(Insert(front, e), time) == At(front, time);
      }
    } else {
      AtAppend(sorted, e, time);
    }
  }

  lemma {:induction false} StableSortSorts(events: seq<Event>)
    ensures StablySorted(events, StableSort(events))
  {
    if events != [] {
      var front, e := events[..|events| - 1], events[|events| - 1];
      StableSortSorts(front);
      InsertSorts(StableSort(front), e);
      forall time
        ensures At(StableSort(events), time) == At(events, time)
      {
        InsertAt(StableSort(front), e, time);
      }
    }
  }

  lemma {:induction false} LastOfMoment(events: seq<Event>, time: int)
    requires At(events, time) != []
    ensures exists i :: 0 <= i < |events| && events[i].time == time
  {
    if events[|events| - 1].time != time {
      LastOfMoment(events[..|events| - 1], time);
    }
  }

  lemma LastComesLast(r: seq<Event>, s: seq<Event>)
    requires Sorted(r) && Sorted(s) && r != []
    requires forall time :: At(r, time) == At(s, time)
    ensures s != [] && s[|s| - 1].time >= r[|r| - 1].time
  {
    var time := r[|r| - 1].time;
    assert At(r, time) != [];
    LastOfMoment(s, time);
  }

  lemma SameFront(x: seq<Event>, y: seq<Event>, tail: seq<Event>)
    requires x + tail == y + tail
    ensures x == y
  {
    assert |x| == |y|;
    assert x == (x + tail)[..|x|] && y == (y + tail)[..|y|];
  }

  /** There is one stable sort: any list that is stably sorted is the one computed here. */
  lemma {:induction false} StableSortIsUnique(r: seq<Event>, s: seq<Event>)
    requires Sorted(r) && Sorted(s)
    requires forall time :: At(r, time) == At(s, time)
    ensures r == s
  {
    if r == [] {
      if s != [] {
        LastComesLast(s, r);
      }
    } else {
      LastComesLast(r, s);
      LastComesLast(s, r);
      var r', s', e, f := r[..|r| - 1], s[..|s| - 1], r[|r| - 1], s[|s| - 1];
      assert r == r' + [e] && s == s' + [f];
      AtAppend(r', e, e.time);
      AtAppend(s', f, e.time);
      assert e == At(r, e.time)[|At(r, e.time)| - 1] == f;
      forall time
        ensures At(r', time) == At(s', time)
      {
        AtAppend(r', e, time);
        AtAppend(s', e, time);
        SameFront(At(r', time), At(s', time), if e.time == time then [e] else []);
      }
      StableSortIsUnique(r', s');
    }
  }

  // ---- Replacing an event by its id ----

  function IndexOf(events: seq<Event>, id: string): (i: int)
    ensures -1 <= i < |events|
    ensures i >= 0 ==> events[i].id == id && forall j :: 0 <= j < i ==> events[j].id != id
    ensures i < 0 ==> forall j :: 0 <= j < |events| ==> events[j].id != id
  {
    if events == [] then -1
    else if events[0].id == id then 0
    else
      var i := IndexOf(events[1..], id);
      if i < 0 then -1 else i + 1
  }

  /** In the place of the first event with its id, or at the end: the order a Map keeps. */
  function Upsert(events: seq<Event>, e: Event): (r: seq<Event>) {
    var i := IndexOf(events, e.id);
    if i >= 0 then events[i := e] else events + [e]
  }

  function UpsertAll(events: seq<Event>, incoming: seq<Event>): (r: seq<Event>) {
    if incoming == [] then events
    else Upsert(UpsertAll(events, incoming[..|incoming| - 1]), incoming[|incoming| - 1])
  }

  /** One event: replaced or appended, then sorted. */
  function ApplyOne(events: seq<Event>, e: Event): (r: seq<Event>) {
    StableSort(Upsert(events, e))
  }

  function ApplyEach(events: seq<Event>, incoming: seq<Event>): (r: seq<Event>) {
    if incoming == [] then events
    else ApplyOne(ApplyEach(events, incoming[..|incoming| - 1]), incoming[|incoming| - 1])
  }

  /** A batch: a Map filled with both lists, then sorted. */
  function Merge(existing: seq<Event>, incoming: seq<Event>): (r: seq<Event>) {
    StableSort(UpsertAll(UpsertAll([], existing), incoming))
  }

  predicate UniqueIds(events: seq<Event>) {
    forall i, j :: 0 <= i < j < |events| ==> events[i].id != events[j].id
  }

  predicate SameTimes(events: seq<Event>, others: seq<Event>) {
    forall i, j :: 0 <= i < |events| && 0 <= j < |others| && events[i].id == others[j].id ==>
      events[i].time == others[j].time
  }

  // ---- Sorting keeps the events ----

  lemma AppendAdds(front: seq<Event>, e: Event)
    ensures multiset(front + [e]) == multiset(front) + multiset{e}
  {
  }

  lemma {:induction false} InsertAdds(sorted: seq<Event>, e: Event)
    ensures multiset(Insert(sorted, e)) == multiset(sorted) + multiset{e}
  {
    if sorted != [] && sorted[|sorted| - 1].time > e.time {
      var front, last := sorted[..|sorted| - 1], sorted[|sorted| - 1];
      InsertAdds(front, e);
      AppendAdds(Insert(front, e), last);
      AppendAdds(front, last);
      assert sorted == front + [last];
    }
  }

  lemma SameOneMore(sorted: seq<Event>, front: seq<Event>, e: Event)
    requires multiset(sorted) == multiset(front)
    ensures multiset(Insert(sorted, e)) == multiset(front + [e])
  {
    InsertAdds(sorted, e);
    AppendAdds(front, e);
  }

  lemma {:induction false} SameEvents(events: seq<Event>)
    ensures multiset(StableSort(events)) == multiset(events)
  {
    if events != [] {
      var front, e := events[..|events| - 1], events[|events| - 1];
      assert events == front + [e];
      assert StableSort(events) == Insert(StableSort(front), e);
      SameEvents(front);
      SameOneMore(StableSort(front), front, e);
    }
  }

  lemma {:induction false} CountOfUnique(events: seq<Event>)
    requires UniqueIds(events)
    ensures forall x :: multiset(events)[x] <= 1
  {
    if events != [] {
      var front, e := events[..|events| - 1], events[|events| - 1];
      CountOfUnique(front);
      assert events == front + [e];
      assert e !in front;
    }
  }

  lemma CountTwice(r: seq<Event>, i: nat, j: nat)
    requires i < j < |r| && r[i] == r[j]
    ensures multiset(r)[r[i]] >= 2
  {
    assert r == r[..j] + r[j..] && r[..j][i] == r[i] && r[j..][0] == r[j];
  }

  lemma SortHasSame(events: seq<Event>)
    ensures forall x :: x in StableSort(events) <==> x in events
  {
    SameEvents(events);
    assert forall x :: x in StableSort(events) <==> x in multiset(StableSort(events));
    assert forall x :: x in events <==> x in multiset(events);
  }

  lemma SortKeepsUnique(events: seq<Event>)
    requires UniqueIds(events)
    ensures UniqueIds(StableSort(events))
  {
    SameEvents(events);
    SortHasSame(events);
    CountOfUnique(events);
    var r := StableSort(events);
    forall i, j | 0 <= i < j < |r|
      ensures r[i].id != r[j].id
    {
      assert r[i] in events && r[j] in events;
      if r[i] == r[j] {
        CountTwice(r, i, j);
      }
    }
  }

  // ---- Which of two events comes first ----

  predicate Holds(events: seq<Event>, id: string) {
    IndexOf(events, id) >= 0
  }

  predicate Before(events: seq<Event>, a: string, b: string) {
    IndexOf(events, a) < IndexOf(events, b)
  }

  function TimeOf(events: seq<Event>, id: string): (time: int)
    requires Holds(events, id)
  {
    events[IndexOf(events, id)].time
  }

  lemma IndexIsUnique(events: seq<Event>, k: nat)
    requires UniqueIds(events) && k < |events|
    ensures IndexOf(events, events[k].id) == k
  {
  }

  lemma SameEventsSameTimes(r: seq<Event>, s: seq<Event>, id: string)
    requires UniqueIds(r) && UniqueIds(s) && forall x :: x in r <==> x in s
    ensures Holds(r, id) <==> Holds(s, id)
    ensures Holds(r, id) ==> TimeOf(r, id) == TimeOf(s, id)
  {
    if Holds(r, id) {
      assert r[IndexOf(r, id)] in s;
      var k :| 0 <= k < |s| && s[k] == r[IndexOf(r, id)];
      IndexIsUnique(s, k);
    }
    if Holds(s, id) {
      assert s[IndexOf(s, id)] in s;
      var k :| 0 <= k < |r| && r[k] == s[IndexOf(s, id)];
      IndexIsUnique(r, k);
    }
  }

  /** Insertion splits a sorted list behind the last event that is not later. */
  lemma {:induction false} InsertSplits(sorted: seq<Event>, e: Event) returns (p: nat)
    requires Sorted(sorted)
    ensures p <= |sorted| && Insert(sorted, e) == sorted[..p] + [e] + sorted[p..]
    ensures forall i :: 0 <= i < |sorted| ==> (sorted[i].time <= e.time <==> i < p)
  {
    if sorted != [] && sorted[|sorted| - 1].time > e.time {
      var front, last := sorted[..|sorted| - 1], sorted[|sorted| - 1];
      p := InsertSplits(front, e);
      assert sorted == front + [last];
    } else {
      p := |sorted|;
    }
  }

  lemma IndexAfterInsert(sorted: seq<Event>, e: Event, p: nat, id: string)
    requires p <= |sorted| && !Holds(sorted, e.id)
    ensures var r := sorted[..p] + [e] + sorted[p..];
            IndexOf(r, id) ==
            if id == e.id then p else if IndexOf(sorted, id) < p then IndexOf(sorted, id) else IndexOf(sorted, id) + 1
  {
    var r, k := sorted[..p] + [e] + sorted[p..], IndexOf(sorted, id);
    forall j | 0 <= j < |r|
      ensures r[j] == if j < p then sorted[j] else if j == p then e else sorted[j - 1]
    {
    }
    if id == e.id {
      assert r[p].id == id;
    } else if k >= 0 {
      assert r[if k < p then k else k + 1].id == id;
    }
  }

  lemma IndexInFront(front: seq<Event>, x: Event, id: string)
    ensures IndexOf(front + [x], id) ==
            if Holds(front, id) then IndexOf(front, id) else if id == x.id then |front| else -1
  {
    var r := front + [x];
    assert forall j :: 0 <= j < |front| ==> r[j] == front[j];
    assert r[|front|] == x;
  }

  /** A stable sort orders two events by time, and by their old order when tied. */
  lemma {:induction false} SortOrder(events: seq<Event>, a: string, b: string)
    requires UniqueIds(events) && a != b && Holds(events, a) && Holds(events, b)
    ensures Before(StableSort(events), a, b) <==>
            || TimeOf(events, a) < TimeOf(events, b)
            || (TimeOf(events, a) == TimeOf(events, b) && Before(events, a, b))
  {
    var front, x := events[..|events| - 1], events[|events| - 1];
    assert events == front + [x];
    UniqueFront(front, x);
    IndexInFront(front, x, a);
    IndexInFront(front, x, b);
    var sorted := StableSort(front);
    StableSortSorts(front);
    SortKeepsUnique(front);
    SortHasSame(front);
    SameEventsSameTimes(sorted, front, a);
    SameEventsSameTimes(sorted, front, b);
    SameEventsSameTimes(sorted, front, x.id);
    var p := InsertSplits(sorted, x);
    IndexAfterInsert(sorted, x, p, a);
    IndexAfterInsert(sorted, x, p, b);
    if Holds(front, a) && Holds(front, b) {
      SortOrder(front, a, b);
    }
  }

  ghost predicate SameOrder(r: seq<Event>, s: seq<Event>) {
    forall a, b :: Holds(r, a) && Holds(r, b) && a != b ==> (Before(r, a, b) <==> Before(s, a, b))
  }

  lemma SameLast(r: seq<Event>, s: seq<Event>)
    requires UniqueIds(r) && UniqueIds(s) && (forall x :: x in r <==> x in s) && SameOrder(r, s)
    requires r != [] && s != []
    ensures r[|r| - 1] == s[|s| - 1]
  {
    var x, y := r[|r| - 1], s[|s| - 1];
    assert x in r && y in s;
    var k :| 0 <= k < |s| && s[k] == x;
    var m :| 0 <= m < |r| && r[m] == y;
    IndexIsUnique(s, k);
    IndexIsUnique(r, m);
    IndexIsUnique(s, |s| - 1);
    IndexIsUnique(r, |r| - 1);
    assert x.id != y.id ==> (Before(r, x.id, y.id) <==> Before(s, x.id, y.id));
  }

  lemma HeadIsIn(s: seq<Event>)
    ensures s == [] || s[0] in s
  {
  }

  lemma {:induction false} SameOrderSameList(r: seq<Event>, s: seq<Event>)
    requires UniqueIds(r) && UniqueIds(s) && (forall x :: x in r <==> x in s) && SameOrder(r, s)
    ensures r == s
  {
    if r == [] {
      HeadIsIn(s);
    } else {
      assert r[0] in s;
      SameLast(r, s);
      LastLeaves(r, s);
      SameOrderSameList(r[..|r| - 1], s[..|s| - 1]);
      assert r == r[..|r| - 1] + [r[|r| - 1]] && s == s[..|s| - 1] + [s[|s| - 1]];
    }
  }

  /** Two lists in the same order stay so without their common last event. */
  lemma LastLeaves(r: seq<Event>, s: seq<Event>)
    requires UniqueIds(r) && UniqueIds(s) && (forall x :: x in r <==> x in s) && SameOrder(r, s)
    requires r != [] && s != [] && r[|r| - 1] == s[|s| - 1]
    ensures var r', s' := r[..|r| - 1], s[..|s| - 1];
            (forall x :: x in r' <==> x in s') && SameOrder(r', s')
  {
    var r', s', x := r[..|r| - 1], s[..|s| - 1], r[|r| - 1];
    assert r == r' + [x] && s == s' + [x];
    UniqueFront(r', x);
    UniqueFront(s', x);
    forall y
      ensures y in r' <==> y in s'
    {
      assert y in r' ==> y in r && y != x;
      assert y in s' ==> y in s && y != x;
    }
    forall a, b | Holds(r', a) && Holds(r', b) && a != b
      ensures Before(r', a, b) <==> Before(s', a, b)
    {
      IndexInFront(r', x, a);
      IndexInFront(r', x, b);
      IndexInFront(s', x, a);
      IndexInFront(s', x, b);
      SameEventsSameTimes(r', s', a);
      SameEventsSameTimes(r', s', b);
      assert Before(r, a, b) <==> Before(s, a, b);
    }
  }

  // ---- The batching law ----

  lemma UpsertKeepsUnique(events: seq<Event>, e: Event)
    requires UniqueIds(events)
    ensures UniqueIds(Upsert(events, e))
    ensures forall x :: x in Upsert(events, e) ==> x in events || x == e
  {
  }

  lemma {:induction false} UpsertAllKeepsUnique(events: seq<Event>, incoming: seq<Event>)
    requires UniqueIds(events)
    ensures UniqueIds(UpsertAll(events, incoming))
    ensures forall x :: x in UpsertAll(events, incoming) ==> x in events || x in incoming
  {
    if incoming != [] {
      var front, e := incoming[..|incoming| - 1], incoming[|incoming| - 1];
      UpsertAllKeepsUnique(events, front);
      UpsertKeepsUnique(UpsertAll(events, front), e);
      assert forall x :: x in front ==> x in incoming;
    }
  }

  lemma UniqueFront(front: seq<Event>, e: Event)
    requires UniqueIds(front + [e])
    ensures UniqueIds(front) && IndexOf(front, e.id) == -1
  {
    assert forall i :: 0 <= i < |front| ==> (front + [e])[i] == front[i];
    assert (front + [e])[|front|] == e;
  }

  lemma {:induction false} MapOfUnique(events: seq<Event>)
    requires UniqueIds(events)
    ensures UpsertAll([], events) == events
  {
    if events != [] {
      var front, e := events[..|events| - 1], events[|events| - 1];
      assert events == front + [e];
      UniqueFront(front, e);
      MapOfUnique(front);
    }
  }

  lemma UpsertIndex(events: seq<Event>, e: Event, id: string)
    ensures IndexOf(Upsert(events, e), id) ==
            if id == e.id && !Holds(events, id) then |events| else IndexOf(events, id)
  {
    var i := IndexOf(events, e.id);
    if i >= 0 {
      var r := events[i := e];
      assert forall j :: 0 <= j < |events| ==> r[j].id == events[j].id;
    } else {
      IndexInFront(events, e, id);
    }
  }

  lemma UpsertHas(events: seq<Event>, e: Event, x: Event)
    requires UniqueIds(events)
    ensures x in Upsert(events, e) <==> x == e || (x in events && x.id != e.id)
  {
    var i, r := IndexOf(events, e.id), Upsert(events, e);
    assert r[if i >= 0 then i else |events|] == e;
    if x in events && x.id != e.id {
      var k :| 0 <= k < |events| && events[k] == x;
      assert r[k] == x;
    }
    if x in r && x != e {
      var k :| 0 <= k < |r| && r[k] == x;
      assert events[k] == x;
    }
  }

  lemma SameAfterUpsert(one: seq<Event>, all: seq<Event>, e: Event)
    requires UniqueIds(one) && UniqueIds(all) && forall x :: x in one <==> x in all
    ensures UniqueIds(Upsert(one, e)) && UniqueIds(Upsert(all, e))
    ensures forall x :: x in Upsert(one, e) <==> x in Upsert(all, e)
  {
    UpsertKeepsUnique(one, e);
    UpsertKeepsUnique(all, e);
    forall x
      ensures x in Upsert(one, e) <==> x in Upsert(all, e)
    {
      UpsertHas(one, e, x);
      UpsertHas(all, e, x);
    }
  }

  /** One at a time keeps the events that the Map keeps. */
  lemma {:induction false} EachHasSame(events: seq<Event>, incoming: seq<Event>)
    requires UniqueIds(events)
    ensures UniqueIds(ApplyEach(events, incoming)) && UniqueIds(UpsertAll(events, incoming))
    ensures forall x :: x in ApplyEach(events, incoming) <==> x in UpsertAll(events, incoming)
  {
    if incoming != [] {
      var front, e := incoming[..|incoming| - 1], incoming[|incoming| - 1];
      EachHasSame(events, front);
      var one := ApplyEach(events, front);
      SameAfterUpsert(one, UpsertAll(events, front), e);
      SortKeepsUnique(Upsert(one, e));
      SortHasSame(Upsert(one, e));
    }
  }

  /** Which of two ids was the earlier when their times last differed while
      events came in: -1 for the first, 1 for the second, 0 if they never did. */
  function LastLead(events: seq<Event>, incoming: seq<Event>, a: string, b: string): (lead: int)
    ensures -1 <= lead <= 1
  {
    var all := UpsertAll(events, incoming);
    if incoming == [] || !Holds(all, a) || !Holds(all, b) then 0
    else if TimeOf(all, a) < TimeOf(all, b) then -1
    else if TimeOf(all, a) > TimeOf(all, b) then 1
    else LastLead(events, incoming[..|incoming| - 1], a, b)
  }

  lemma {:induction false} LeadOpposes(events: seq<Event>, incoming: seq<Event>, a: string, b: string)
    ensures LastLead(events, incoming, b, a) == -LastLead(events, incoming, a, b)
  {
    if incoming != [] {
      LeadOpposes(events, incoming[..|incoming| - 1], a, b);
    }
  }

  /** Where one more event leaves two ids, in the list and in the Map. */
  lemma NextOrder(one: seq<Event>, all: seq<Event>, e: Event, a: string, b: string)
    requires UniqueIds(one) && UniqueIds(all) && (forall x :: x in one <==> x in all) && a != b
    requires Holds(Upsert(all, e), a) && Holds(Upsert(all, e), b)
    ensures UniqueIds(Upsert(one, e)) && Holds(Upsert(one, e), a) && Holds(Upsert(one, e), b)
    ensures TimeOf(Upsert(one, e), a) == TimeOf(Upsert(all, e), a) && TimeOf(Upsert(one, e), b) == TimeOf(Upsert(all, e), b)
    ensures Before(Upsert(one, e), a, b) <==>
            if Holds(all, a) && Holds(all, b) then Before(one, a, b) else Before(Upsert(all, e), a, b)
    ensures Holds(all, a) && Holds(all, b) ==> (Before(Upsert(all, e), a, b) <==> Before(all, a, b))
  {
    SameAfterUpsert(one, all, e);
    SameEventsSameTimes(one, all, a);
    SameEventsSameTimes(one, all, b);
    SameEventsSameTimes(Upsert(one, e), Upsert(all, e), a);
    SameEventsSameTimes(Upsert(one, e), Upsert(all, e), b);
    UpsertIndex(one, e, a);
    UpsertIndex(one, e, b);
    UpsertIndex(all, e, a);
    UpsertIndex(all, e, b);
  }

  /** Events one at a time: the last lead decides the order, and without one the order of the Map. */
  lemma {:induction false} EachOrder(events: seq<Event>, incoming: seq<Event>, a: string, b: string)
    requires UniqueIds(events) && a != b
    requires Holds(UpsertAll(events, incoming), a) && Holds(UpsertAll(events, incoming), b)
    ensures Before(ApplyEach(events, incoming), a, b) <==>
            || LastLead(events, incoming, a, b) < 0
            || (LastLead(events, incoming, a, b) == 0 && Before(UpsertAll(events, incoming), a, b))
  {
    if incoming != [] {
      var front, e := incoming[..|incoming| - 1], incoming[|incoming| - 1];
      var one, all := ApplyEach(events, front), UpsertAll(events, front);
      EachHasSame(events, front);
      NextOrder(one, all, e, a, b);
      SortOrder(Upsert(one, e), a, b);
      if Holds(all, a) && Holds(all, b) {
        EachOrder(events, front, a, b);
      } else {
        assert LastLead(events, front, a, b) == 0;
      }
    }
  }

  /** Of two ids tied at the end, the one that is ahead in the Map was not
      behind when their times last differed. */
  ghost predicate TiesKept(events: seq<Event>, incoming: seq<Event>) {
    var all := UpsertAll(events, incoming);
    forall a, b :: Holds(all, a) && Before(all, a, b) && TimeOf(all, a) == TimeOf(all, b) ==>
      LastLead(events, incoming, a, b) <= 0
  }

  /** The batching law, exactly: events one at a time, or all at once, give
      the same list, ties included, if and only if ties are kept. */
  lemma BatchingExactly(existing: seq<Event>, incoming: seq<Event>)
    requires UniqueIds(existing) && incoming != []
    ensures ApplyEach(existing, incoming) == Merge(existing, incoming) <==> TiesKept(existing, incoming)
  {
    var all, one := UpsertAll(existing, incoming), ApplyEach(existing, incoming);
    MapOfUnique(existing);
    EachHasSame(existing, incoming);
    SortKeepsUnique(all);
    SortHasSame(all);
    if TiesKept(existing, incoming) {
      forall a, b | Holds(one, a) && Holds(one, b) && a != b
        ensures Before(one, a, b) <==> Before(StableSort(all), a, b)
      {
        SameEventsSameTimes(one, all, a);
        SameEventsSameTimes(one, all, b);
        TiedOrder(existing, incoming, a, b);
      }
      SameOrderSameList(one, StableSort(all));
    } else {
      var a, b :| Holds(all, a) && Before(all, a, b) && TimeOf(all, a) == TimeOf(all, b)
        && LastLead(existing, incoming, a, b) > 0;
      EachOrder(existing, incoming, a, b);
      SortOrder(all, a, b);
    }
  }

  lemma LeadWhenApart(events: seq<Event>, incoming: seq<Event>, all: seq<Event>, a: string, b: string)
    requires all == UpsertAll(events, incoming) && incoming != [] && Holds(all, a) && Holds(all, b)
    requires TimeOf(all, a) != TimeOf(all, b)
    ensures LastLead(events, incoming, a, b) == if TimeOf(all, a) < TimeOf(all, b) then -1 else 1
  {
  }

  lemma LeadWhenTied(events: seq<Event>, incoming: seq<Event>, all: seq<Event>, a: string, b: string)
    requires all == UpsertAll(events, incoming) && TiesKept(events, incoming)
    requires Holds(all, a) && Holds(all, b) && a != b && TimeOf(all, a) == TimeOf(all, b)
    ensures Before(all, a, b) ==> LastLead(events, incoming, a, b) <= 0
    ensures !Before(all, a, b) ==> LastLead(events, incoming, a, b) >= 0
  {
    if !Before(all, a, b) {
      assert all[IndexOf(all, a)].id == a && all[IndexOf(all, b)].id == b;
      assert Before(all, b, a);
      LeadOpposes(events, incoming, a, b);
    }
  }

  lemma TiedOrder(existing: seq<Event>, incoming: seq<Event>, a: string, b: string)
    requires UniqueIds(existing) && incoming != [] && TiesKept(existing, incoming) && a != b
    requires Holds(UpsertAll(existing, incoming), a) && Holds(UpsertAll(existing, incoming), b)
    ensures Before(ApplyEach(existing, incoming), a, b) <==> Before(StableSort(UpsertAll(existing, incoming)), a, b)
  {
    var all := UpsertAll(existing, incoming);
    EachHasSame(existing, incoming);
    EachOrder(existing, incoming, a, b);
    SortOrder(all, a, b);
    if TimeOf(all, a) == TimeOf(all, b) {
      LeadWhenTied(existing, incoming, all, a, b);
    } else {
      LeadWhenApart(existing, incoming, all, a, b);
    }
  }

  lemma {:induction false} TimesKept(events: seq<Event>, incoming: seq<Event>, id: string)
    requires UniqueIds(events) && SameTimes(events, incoming) && SameTimes(incoming, incoming)
    requires incoming != [] && Holds(UpsertAll(events, incoming[..|incoming| - 1]), id)
    ensures Holds(UpsertAll(events, incoming), id)
    ensures TimeOf(UpsertAll(events, incoming), id) == TimeOf(UpsertAll(events, incoming[..|incoming| - 1]), id)
  {
    var front, e := incoming[..|incoming| - 1], incoming[|incoming| - 1];
    var all := UpsertAll(events, front);
    UpsertAllKeepsUnique(events, front);
    UpsertIndex(all, e, id);
    var x := all[IndexOf(all, id)];
    assert x in all;
    assert x in events || x in front;
  }

  lemma {:induction false} KeptTimesGiveNoLead(events: seq<Event>, incoming: seq<Event>, a: string, b: string)
    requires UniqueIds(events) && SameTimes(events, incoming) && SameTimes(incoming, incoming)
    requires var all := UpsertAll(events, incoming); Holds(all, a) && Holds(all, b) && TimeOf(all, a) == TimeOf(all, b)
    ensures LastLead(events, incoming, a, b) == 0
  {
    if incoming != [] {
      var front := incoming[..|incoming| - 1];
      if Holds(UpsertAll(events, front), a) && Holds(UpsertAll(events, front), b) {
        TimesKept(events, incoming, a);
        TimesKept(events, incoming, b);
        KeptTimesGiveNoLead(events, front, a, b);
      }
    }
  }

  /** Events one at a time, or all at once: the same list, ties included, when each id keeps its time. */
  lemma BatchingLaw(existing: seq<Event>, incoming: seq<Event>)
    requires UniqueIds(existing) && incoming != []
    requires SameTimes(existing, incoming) && SameTimes(incoming, incoming)
    ensures ApplyEach(existing, incoming) == Merge(existing, incoming)
  {
    var all := UpsertAll(existing, incoming);
    forall a, b | Holds(all, a) && Before(all, a, b) && TimeOf(all, a) == TimeOf(all, b)
      ensures LastLead(existing, incoming, a, b) <= 0
    {
      KeptTimesGiveNoLead(existing, incoming, a, b);
    }
    BatchingExactly(existing, incoming);
  }

  lemma SortPair(x: Event, y: Event)
    ensures StableSort([x, y]) == if x.time <= y.time then [x, y] else [y, x]
  {
    assert [x, y][..1] == [x] && [x][..0] == [];
    assert StableSort([x]) == [x];
    assert Insert([], y) == [y];
  }

  lemma UpsertPair(x: Event, y: Event, e: Event)
    requires x.id != y.id && (e.id == x.id || e.id == y.id)
    ensures Upsert([x, y], e) == if e.id == x.id then [e, y] else [x, e]
  {
    assert [x, y][1..] == [y];
    assert IndexOf([y], y.id) == 0;
    assert [x, y][0 := e] == [e, y] && [x, y][1 := e] == [x, e];
  }

  lemma TwoMore(events: seq<Event>, d: Event, e: Event)
    ensures UpsertAll(events, [d, e]) == Upsert(Upsert(events, d), e)
    ensures ApplyEach(events, [d, e]) == ApplyOne(ApplyOne(events, d), e)
  {
    assert [d, e][..1] == [d] && [d][..0] == [];
    assert UpsertAll(events, [d]) == Upsert(events, d);
    assert ApplyEach(events, [d]) == ApplyOne(events, d);
  }

  /** When an id changes its time and back, the two ways order a tie differently. */
  lemma TimesMustStay() returns (existing: seq<Event>, incoming: seq<Event>)
    ensures UniqueIds(existing) && incoming != [] && !SameTimes(incoming, incoming)
    ensures ApplyEach(existing, incoming) != Merge(existing, incoming)
  {
    var a, b, later := Event("a", 1, ""), Event("b", 1, ""), Event("a", 2, "");
    existing, incoming := [a, b], [later, a];
    assert incoming[0].id == incoming[1].id;
    MapOfUnique(existing);
    TwoMore(existing, later, a);
    UpsertPair(a, b, later);
    UpsertPair(later, b, a);
    SortPair(a, b);
    SortPair(later, b);
    UpsertPair(b, later, a);
    SortPair(b, a);
    assert existing[0] != [b, a][0];
  }

  // ---- What every list keeps ----

  /** The event that counts for an id: the last one to come in, or the one that was there. */
  function Latest(events: seq<Event>, incoming: seq<Event>, id: string): (r: set<Event>) {
    if incoming == [] then set x | x in events && x.id == id
    else if incoming[|incoming| - 1].id == id then {incoming[|incoming| - 1]}
    else Latest(events, incoming[..|incoming| - 1], id)
  }

  lemma {:induction false} UpsertAllIsLatest(events: seq<Event>, incoming: seq<Event>, x: Event)
    requires UniqueIds(events)
    ensures x in UpsertAll(events, incoming) <==> x in Latest(events, incoming, x.id)
  {
    if incoming != [] {
      var front, e := incoming[..|incoming| - 1], incoming[|incoming| - 1];
      var all := UpsertAll(events, front);
      UpsertAllIsLatest(events, front, x);
      UpsertAllKeepsUnique(events, front);
      UpsertHas(all, e, x);
    }
  }

  /** A merge is sorted, has each id once, and holds for each id its latest event. */
  lemma MergeKeeps(existing: seq<Event>, incoming: seq<Event>)
    requires UniqueIds(existing)
    ensures Sorted(Merge(existing, incoming)) && UniqueIds(Merge(existing, incoming))
    ensures forall x :: x in Merge(existing, incoming) <==> x in Latest(existing, incoming, x.id)
  {
    MapOfUnique(existing);
    UpsertAllKeepsUnique(existing, incoming);
    var all := UpsertAll(existing, incoming);
    StableSortSorts(all);
    SortKeepsUnique(all);
    SortHasSame(all);
    forall x
      ensures x in Merge(existing, incoming) <==> x in Latest(existing, incoming, x.id)
    {
      UpsertAllIsLatest(existing, incoming, x);
    }
  }
}
