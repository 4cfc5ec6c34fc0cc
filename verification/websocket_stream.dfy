// How WebSocketConnection.handleData cuts a byte stream into frames
// (relay/server/src/websocket.ts).
module WebSocketStream {
  import opened Bytes
  import opened Options
  import opened Sequences
  import opened WebSocketFrames

  datatype Event = Message(payload: seq<byte>) | Reply(payload: seq<byte>) | PongSeen

  datatype Stop = PeerClosed | Failed(closeCode: nat)

  /** What a connection has done, what it still buffers, and why it stopped, if it did. */
  datatype Outcome = Outcome(events: seq<Event>, rest: seq<byte>, stop: Option<Stop>)

  const CLOSE_OPCODE: nat := 0x8

  /** Text frames are messages, pings are answered, pongs are noted, and any
      other frame before a Close frame is ignored. */
  function EventsOf(opcode: nat, payload: seq<byte>): (events: seq<Event>) {
    if opcode == 0x9 then [Reply(payload)]
    else if opcode == 0xA then [PongSeen]
    else if opcode == 0x1 then [Message(payload)]
    else []
  }

  /** Replies fit in a control frame. */
  predicate SmallReplies(events: seq<Event>) {
    forall e :: e in events && e.Reply? ==> |e.payload| <= 125
  }

  function Process(buffer: seq<byte>): (r: Outcome)
    ensures SmallReplies(r.events)
    ensures r.stop.None? ==> |r.rest| < MAX_PAYLOAD + MAX_HEADER
    decreases |buffer|
  {
    if |buffer| < 2 then Outcome([], buffer, None)
    else
      match TryReadFrame(buffer)
      case Incomplete =>
        IncompleteIsSmall(buffer);
        Outcome([], buffer, None)
      case FrameError(code) => Outcome([], [], Some(Failed(code)))
      case FrameRead(opcode, payload, n) =>
        FrameMakesProgress(buffer);
        if opcode == CLOSE_OPCODE then Outcome([], buffer[n..], Some(PeerClosed))
        else
          var later := Process(buffer[n..]);
          later.(events := EventsOf(opcode, payload) + later.events)
  }

  /** The start of a frame that is not all there yet. */
  predicate Unfinished(tail: seq<byte>) {
    |tail| < 2 || TryReadFrame(tail).Incomplete?
  }

  /** Handling one more chunk, unless the connection has stopped. */
  function Extend(o: Outcome, chunk: seq<byte>): (r: Outcome) {
    if o.stop.Some? then o
    else var later := Process(o.rest + chunk); later.(events := o.events + later.events)
  }

  function Deliver(chunks: seq<seq<byte>>): (r: Outcome) {
    if chunks == [] then Outcome([], [], None)
    else Extend(Deliver(chunks[..|chunks| - 1]), chunks[|chunks| - 1])
  }

  function Joined(chunks: seq<seq<byte>>): (bytes: seq<byte>) {
    if chunks == [] then [] else Joined(chunks[..|chunks| - 1]) + chunks[|chunks| - 1]
  }

  // ---- Chunking does not matter ----

  /** Stopping is final: later bytes only follow what a Close frame left unread. */
  predicate SameUntilStop(o: Outcome, whole: Outcome) {
    && o.events == whole.events && o.stop == whole.stop
    && (o.stop != Some(PeerClosed) ==> o.rest == whole.rest)
    && (o.stop == Some(PeerClosed) ==> o.rest <= whole.rest)
  }

  lemma ProcessFrame(buffer: seq<byte>, frame: ReadResult)
    requires |buffer| >= 2 && frame == TryReadFrame(buffer) && frame.FrameRead?
    ensures 0 < frame.bytesRead <= |buffer|
    ensures Process(buffer) ==
            if frame.opcode == CLOSE_OPCODE then Outcome([], buffer[frame.bytesRead..], Some(PeerClosed))
            else Behind(EventsOf(frame.opcode, frame.payload), Process(buffer[frame.bytesRead..]))
  {
    FrameMakesProgress(buffer);
  }

  lemma StepIsSmall(step: seq<Event>, later: Outcome)
    requires SmallReplies(Behind(step, later).events)
    ensures SmallReplies(step)
  {
    assert forall e :: e in step ==> e in step + later.events;
  }

  function Behind(events: seq<Event>, later: Outcome): (r: Outcome) {
    later.(events := events + later.events)
  }

  lemma BehindResumes(events: seq<Event>, later: Outcome, more: seq<byte>, whole: Outcome)
    requires SameUntilStop(Extend(later, more), whole)
    ensures SameUntilStop(Extend(Behind(events, later), more), Behind(events, whole))
  {
    if later.stop.None? {
      var rest := Process(later.rest + more).events;
      assert events + (later.events + rest) == (events + later.events) + rest;
    }
  }

  lemma DropOfConcat(buffer: seq<byte>, more: seq<byte>, n: nat)
    requires n <= |buffer|
    ensures (buffer + more)[n..] == buffer[n..] + more
  {
  }

  lemma StoppedResumes(buffer: seq<byte>, more: seq<byte>)
    requires |buffer| >= 2 && TryReadFrame(buffer).FrameError?
    ensures SameUntilStop(Extend(Process(buffer), more), Process(buffer + more))
  {
    ReadIsStable(buffer, more);
  }

  lemma UnfinishedResumes(buffer: seq<byte>, more: seq<byte>)
    requires Unfinished(buffer)
    ensures Extend(Process(buffer), more) == Process(buffer + more)
  {
    assert Process(buffer) == Outcome([], buffer, None);
  }

  /** Processing a buffer and then the rest of it with more bytes is processing everything at once. */
  lemma {:induction false} ProcessResumes(buffer: seq<byte>, more: seq<byte>)
    ensures SameUntilStop(Extend(Process(buffer), more), Process(buffer + more))
    decreases |buffer|
  {
    if Unfinished(buffer) {
      UnfinishedResumes(buffer, more);
    } else {
      var frame := TryReadFrame(buffer);
      if frame.FrameError? {
        StoppedResumes(buffer, more);
      } else {
        FrameMakesProgress(buffer);
        ProcessResumes(buffer[frame.bytesRead..], more);
        FrameResumes(buffer, more, frame);
      }
    }
  }

  lemma FrameResumes(buffer: seq<byte>, more: seq<byte>, frame: ReadResult)
    requires |buffer| >= 2 && frame == TryReadFrame(buffer) && frame.FrameRead? && frame.bytesRead <= |buffer|
    requires SameUntilStop(Extend(Process(buffer[frame.bytesRead..]), more), Process(buffer[frame.bytesRead..] + more))
    ensures SameUntilStop(Extend(Process(buffer), more), Process(buffer + more))
  {
    var later := buffer[frame.bytesRead..];
    ReadIsStable(buffer, more);
    ProcessFrame(buffer, frame);
    ProcessFrame(buffer + more, frame);
    DropOfConcat(buffer, more, frame.bytesRead);
    BehindResumes(EventsOf(frame.opcode, frame.payload), Process(later), more, Process(later + more));
  }

  /** For any split of a byte stream into chunks, the connection yields the same
      messages, replies and pongs, stops for the same reason, and buffers the
      same bytes as when it gets the stream in one chunk. */
  lemma {:induction false} ChunkingDoesNotMatter(chunks: seq<seq<byte>>)
    ensures SameUntilStop(Deliver(chunks), Process(Joined(chunks)))
  {
    if chunks != [] {
      var front, chunk := chunks[..|chunks| - 1], chunks[|chunks| - 1];
      ChunkingDoesNotMatter(front);
      ProcessResumes(Joined(front), chunk);
    }
  }

  // ---- What a stream means ----

  function EncodeAll(frames: seq<ClientFrame>): (bytes: seq<byte>)
    requires forall f :: f in frames ==> ValidClientFrame(f)
  {
    if frames == [] then [] else Encode(frames[0]) + EncodeAll(frames[1..])
  }

  function EventsOfAll(frames: seq<ClientFrame>): (events: seq<Event>) {
    if frames == [] then [] else EventsOf(frames[0].opcode, frames[0].payload) + EventsOfAll(frames[1..])
  }

  predicate DataFrames(frames: seq<ClientFrame>) {
    forall f :: f in frames ==> ValidClientFrame(f) && f.opcode != CLOSE_OPCODE
  }

  lemma FrameIsProcessed(f: ClientFrame, later: seq<byte>)
    requires ValidClientFrame(f) && f.opcode != CLOSE_OPCODE
    ensures Process(Encode(f) + later) == Behind(EventsOf(f.opcode, f.payload), Process(later))
  {
    ReadInvertsEncode(f, later);
    ProcessFrame(Encode(f) + later, FrameRead(f.opcode, f.payload, |Encode(f)|));
    DropOfConcat(Encode(f), later, |Encode(f)|);
    assert Encode(f)[|Encode(f)|..] + later == later;
  }

  lemma FirstFrameFirst(frames: seq<ClientFrame>, tail: seq<byte>)
    requires DataFrames(frames) && frames != []
    ensures DataFrames(frames[1..])
    ensures EncodeAll(frames) + tail == Encode(frames[0]) + (EncodeAll(frames[1..]) + tail)
  {
  }

  /** Frames at the head of a stream act before anything else in it. */
  lemma {:induction false} FramesComeFirst(frames: seq<ClientFrame>, tail: seq<byte>)
    requires DataFrames(frames)
    ensures Process(EncodeAll(frames) + tail) == Behind(EventsOfAll(frames), Process(tail))
  {
    if frames == [] {
      assert EncodeAll([]) + tail == tail;
      assert [] + Process(tail).events == Process(tail).events;
    } else {
      FirstFrameFirst(frames, tail);
      FramesComeFirst(frames[1..], tail);
      FrameIsProcessed(frames[0], EncodeAll(frames[1..]) + tail);
      Regroup(EventsOf(frames[0].opcode, frames[0].payload), EventsOfAll(frames[1..]), Process(tail).events);
    }
  }

  lemma StreamIsProcessed(frames: seq<ClientFrame>, tail: seq<byte>)
    requires DataFrames(frames) && Unfinished(tail)
    ensures Process(EncodeAll(frames) + tail) == Outcome(EventsOfAll(frames), tail, None)
  {
    FramesComeFirst(frames, tail);
    assert Process(tail) == Outcome([], tail, None);
    assert EventsOfAll(frames) + [] == EventsOfAll(frames);
  }

  /** However a stream of frames is cut, each frame acts once and in order, and
      an unfinished frame at the end stays buffered. */
  lemma StreamIsDelivered(frames: seq<ClientFrame>, tail: seq<byte>, chunks: seq<seq<byte>>)
    requires DataFrames(frames) && Unfinished(tail)
    requires Joined(chunks) == EncodeAll(frames) + tail
    ensures Deliver(chunks) == Outcome(EventsOfAll(frames), tail, None)
  {
    StreamIsProcessed(frames, tail);
    ChunkingDoesNotMatter(chunks);
  }

  /** Conversely, a stream on which the connection goes on consists of valid
      frames and an unfinished one: nothing is skipped and nothing made up. */
  lemma {:induction false} OnlyFramesAreAccepted(buffer: seq<byte>) returns (frames: seq<ClientFrame>)
    requires Process(buffer).stop.None?
    ensures DataFrames(frames) && Unfinished(Process(buffer).rest)
    ensures buffer == EncodeAll(frames) + Process(buffer).rest
    ensures Process(buffer).events == EventsOfAll(frames)
    decreases |buffer|
  {
    if |buffer| < 2 || TryReadFrame(buffer).Incomplete? {
      frames := [];
    } else {
      FrameMakesProgress(buffer);
      var f := ReadsOnlyEncodings(buffer);
      var n := |Encode(f)|;
      var later := OnlyFramesAreAccepted(buffer[n..]);
      frames := [f] + later;
      assert frames[1..] == later;
      assert buffer == buffer[..n] + buffer[n..];
      assert buffer == (Encode(f) + EncodeAll(later)) + Process(buffer[n..]).rest;
    }
  }
}
