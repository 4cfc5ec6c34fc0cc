// The timelines and cursors of useAgentSurfaceController
// (app/src/features/agent/useAgentSurfaceController.ts).
module SurfaceController {
  import opened Numbers
  import opened SurfaceMerge

  datatype State = State(events: map<string, seq<Event>>, cursors: map<string, nat>)

  const EMPTY: State := State(map[], map[])

  function EventsOf(s: State, surface: string): (events: seq<Event>) {
    if surface in s.events then s.events[surface] else []
  }

  function CursorOf(s: State, surface: string): (cursor: nat) {
    if surface in s.cursors then s.cursors[surface] else 0
  }

  datatype Step =
    | OneEvent(surface: string, e: Event)
    | Sync(surface: string, nextCursor: nat, incoming: seq<Event>)
    | Clear

  function Apply(s: State, step: Step): (r: State) {
    match step
    case OneEvent(surface, e) => s.(events := s.events[surface := ApplyOne(EventsOf(s, surface), e)])
    case Sync(surface, nextCursor, incoming) =>
      var t := s.(cursors := s.cursors[surface := Max(CursorOf(s, surface), nextCursor)]);
      if incoming == [] then t
      else t.(events := t.events[surface := Merge(EventsOf(t, surface), incoming)])
    case Clear => EMPTY
  }

  function Run(steps: seq<Step>): (s: State) {
    if steps == [] then EMPTY else Apply(Run(steps[..|steps| - 1]), steps[|steps| - 1])
  }

  // ---- Over whole runs ----

  predicate Good(events: seq<Event>) {
    Sorted(events) && UniqueIds(events)
  }

  lemma ApplyOneIsGood(events: seq<Event>, e: Event)
    requires UniqueIds(events)
    ensures Good(ApplyOne(events, e))
  {
    UpsertKeepsUnique(events, e);
    StableSortSorts(Upsert(events, e));
    SortKeepsUnique(Upsert(events, e));
  }

  /** In every run, every timeline is sorted and has each event id once. */
  lemma {:induction false} TimelinesAreGood(steps: seq<Step>, surface: string)
    ensures Good(EventsOf(Run(steps), surface))
  {
    if steps != [] {
      var before, step := Run(steps[..|steps| - 1]), steps[|steps| - 1];
      TimelinesAreGood(steps[..|steps| - 1], surface);
      if step.OneEvent? && step.surface == surface {
        ApplyOneIsGood(EventsOf(before, surface), step.e);
      } else if step.Sync? && step.surface == surface && step.incoming != [] {
        MergeKeeps(EventsOf(before, surface), step.incoming);
      }
    }
  }

  /** A sync of the surface at step `i`, with no clearing since, brought this cursor. */
  predicate Brought(steps: seq<Step>, i: int, surface: string, cursor: nat) {
    && 0 <= i < |steps| && steps[i].Sync? && steps[i].surface == surface && steps[i].nextCursor == cursor
    && forall k :: i < k < |steps| ==> !steps[k].Clear?
  }

  lemma BroughtBefore(front: seq<Step>, step: Step, i: int, surface: string, cursor: nat)
    requires i < |front|
    ensures Brought(front + [step], i, surface, cursor) <==> Brought(front, i, surface, cursor) && !step.Clear?
  {
    var steps := front + [step];
    assert steps[|front|] == step;
    if Brought(steps, i, surface, cursor) {
      assert forall k :: i < k < |front| ==> steps[k] == front[k];
    }
  }

  lemma {:induction false} CursorBounds(steps: seq<Step>, surface: string, i: int, cursor: nat)
    requires Brought(steps, i, surface, cursor)
    ensures cursor <= CursorOf(Run(steps), surface)
  {
    var front, step := steps[..|steps| - 1], steps[|steps| - 1];
    assert steps == front + [step];
    if i < |front| {
      BroughtBefore(front, step, i, surface, cursor);
      CursorBounds(front, surface, i, cursor);
    } else {
      assert step == Sync(surface, cursor, step.incoming);
    }
  }

  lemma {:induction false} CursorWasBrought(steps: seq<Step>, surface: string) returns (i: int)
    ensures CursorOf(Run(steps), surface) == 0 || Brought(steps, i, surface, CursorOf(Run(steps), surface))
  {
    if steps == [] {
      i := 0;
    } else {
      var front, step := steps[..|steps| - 1], steps[|steps| - 1];
      assert steps == front + [step];
      i := CursorWasBrought(front, surface);
      var now, was := CursorOf(Run(steps), surface), CursorOf(Run(front), surface);
      if step.Sync? && step.surface == surface && now == step.nextCursor {
        i := |front|;
      } else if was != 0 {
        BroughtBefore(front, step, i, surface, was);
      }
    }
  }

  /** Cursors never go back, however late a sync response comes: a cursor is the
      largest that a sync brought since the last clearing, or 0 if none did. */
  lemma CursorIsLargest(steps: seq<Step>, surface: string)
    ensures var cursor := CursorOf(Run(steps), surface);
            && (forall i, c: nat :: Brought(steps, i, surface, c) ==> c <= cursor)
            && (cursor == 0 || exists i :: Brought(steps, i, surface, cursor))
  {
    forall i, c: nat | Brought(steps, i, surface, c)
      ensures c <= CursorOf(Run(steps), surface)
    {
      CursorBounds(steps, surface, i, c);
    }
    var i := CursorWasBrought(steps, surface);
  }

  function OneByOne(surface: string, incoming: seq<Event>): (steps: seq<Step>) {
    if incoming == [] then []
    else OneByOne(surface, incoming[..|incoming| - 1]) + [OneEvent(surface, incoming[|incoming| - 1])]
  }

  lemma {:induction false} OneByOneApplies(steps: seq<Step>, surface: string, incoming: seq<Event>, other: string)
    ensures EventsOf(Run(steps + OneByOne(surface, incoming)), other)
         == if other == surface then ApplyEach(EventsOf(Run(steps), surface), incoming) else EventsOf(Run(steps), other)
  {
    if incoming == [] {
      assert steps + [] == steps;
    } else {
      var front, step := incoming[..|incoming| - 1], OneEvent(surface, incoming[|incoming| - 1]);
      OneByOneApplies(steps, surface, front, other);
      assert steps + OneByOne(surface, incoming) == steps + OneByOne(surface, front) + [step];
    }
  }

  /** After any run, a sync with events gives the timelines that the same events
      give when they come one at a time, if and only if it keeps the ties of its own timeline. */
  lemma SyncIsOneByOneExactly(steps: seq<Step>, surface: string, nextCursor: nat, incoming: seq<Event>)
    requires incoming != []
    ensures (forall other :: EventsOf(Run(steps + [Sync(surface, nextCursor, incoming)]), other)
                          == EventsOf(Run(steps + OneByOne(surface, incoming)), other))
            <==> TiesKept(EventsOf(Run(steps), surface), incoming)
  {
    TimelinesAreGood(steps, surface);
    var synced, each := Run(steps + [Sync(surface, nextCursor, incoming)]), Run(steps + OneByOne(surface, incoming));
    assert (steps + [Sync(surface, nextCursor, incoming)])[..|steps|] == steps;
    forall other
      ensures other != surface ==> EventsOf(synced, other) == EventsOf(each, other)
    {
      OneByOneApplies(steps, surface, incoming, other);
    }
    OneByOneApplies(steps, surface, incoming, surface);
    BatchingExactly(EventsOf(Run(steps), surface), incoming);
    assert EventsOf(synced, surface) == Merge(EventsOf(Run(steps), surface), incoming);
    assert EventsOf(each, surface) == ApplyEach(EventsOf(Run(steps), surface), incoming);
  }

  /** In particular when each id keeps its time. */
  lemma SyncIsOneByOne(steps: seq<Step>, surface: string, nextCursor: nat, incoming: seq<Event>, other: string)
    requires incoming != [] && SameTimes(EventsOf(Run(steps), surface), incoming) && SameTimes(incoming, incoming)
    ensures EventsOf(Run(steps + [Sync(surface, nextCursor, incoming)]), other)
         == EventsOf(Run(steps + OneByOne(surface, incoming)), other)
  {
    TimelinesAreGood(steps, surface);
    OneByOneApplies(steps, surface, incoming, other);
    BatchingLaw(EventsOf(Run(steps), surface), incoming);
  }

  // ---- The hook ----

  class AgentSurfaceController {
    var eventsBySurfaceId: map<string, seq<Event>>
    var cursorsBySurfaceId: map<string, nat>

    function View(): State
      reads this
    {
      State(eventsBySurfaceId, cursorsBySurfaceId)
    }

    constructor ()
      ensures View() == EMPTY
    {
      eventsBySurfaceId, cursorsBySurfaceId := map[], map[];
    }

    method FindIndex(existing: seq<Event>, id: string) returns (index: int)
      ensures index == IndexOf(existing, id)
    {
      index := 0;
      while index < |existing|
        invariant 0 <= index <= |existing|
        invariant forall j :: 0 <= j < index ==> existing[j].id != id
      {
        if existing[index].id == id {
          return;
        }
        index := index + 1;
      }
      index := -1;
    }

    method ApplyAgentSurfaceEvent(surface: string, e: Event)
      modifies this`eventsBySurfaceId
      ensures View() == Apply(old(View()), OneEvent(surface, e))
    {
      var existing := EventsOf(View(), surface);
      var index := FindIndex(existing, e.id);
      var nextEvents;
      if index >= 0 {
        nextEvents := seq(|existing|, i requires 0 <= i < |existing| => if i == index then e else existing[i]);
        assert nextEvents == existing[index := e];
      } else {
        nextEvents := existing + [e];
      }
      eventsBySurfaceId := eventsBySurfaceId[surface := StableSort(nextEvents)];
    }

    method MergeAgentSurfaceEvents(existing: seq<Event>, incoming: seq<Event>) returns (r: seq<Event>)
      ensures r == Merge(existing, incoming)
    {
      var merged: seq<Event> := [];
      for i := 0 to |existing|
        invariant merged == UpsertAll([], existing[..i])
      {
        merged := Upsert(merged, existing[i]);
        assert existing[..i + 1][..i] == existing[..i];
      }
      assert existing[..|existing|] == existing;
      for i := 0 to |incoming|
        invariant merged == UpsertAll(UpsertAll([], existing), incoming[..i])
      {
        merged := Upsert(merged, incoming[i]);
        assert incoming[..i + 1][..i] == incoming[..i];
      }
      assert incoming[..|incoming|] == incoming;
      r := StableSort(merged);
    }

    method ApplyAgentSurfaceSync(surface: string, nextCursor: nat, incoming: seq<Event>)
      modifies this
      ensures View() == Apply(old(View()), Sync(surface, nextCursor, incoming))
    {
      cursorsBySurfaceId := cursorsBySurfaceId[surface := Max(CursorOf(View(), surface), nextCursor)];
      if incoming == [] {
        return;
      }
      var merged := MergeAgentSurfaceEvents(EventsOf(View(), surface), incoming);
      eventsBySurfaceId := eventsBySurfaceId[surface := merged];
    }

    method ClearAgentSurfaceEvents()
      modifies this
      ensures View() == Apply(old(View()), Clear)
    {
      cursorsBySurfaceId := map[];
      eventsBySurfaceId := map[];
    }

    method GetAgentSurfaceCursor(surface: string) returns (cursor: nat)
      ensures cursor == CursorOf(View(), surface)
    {
      cursor := if surface in cursorsBySurfaceId then cursorsBySurfaceId[surface] else 0;
    }
  }
}
