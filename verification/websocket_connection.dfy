// WebSocketConnection (relay/server/src/websocket.ts).
module WebSocketConnections {
  import opened Bytes
  import opened Options
  import opened Sequences
  import opened Utf8
  import opened WebSocketFrames
  import opened WebSocketStream

  // ---- Reading a frame ----

  /** The loop that unmasks a payload in place. */
  method Unmask(payload: array<byte>, mask: seq<byte>)
    requires |mask| == 4
    modifies payload
    ensures payload[..] == Mask(mask, old(payload[..]))
  {
    var index := 0;
    while index < payload.Length
      invariant 0 <= index <= payload.Length
      invariant forall i :: 0 <= i < index ==> payload[i] == Xor(old(payload[i]), mask[i % 4])
      invariant forall i :: index <= i < payload.Length ==> payload[i] == old(payload[i])
    {
      payload[index] := Xor(payload[index], mask[index % 4]);
      index := index + 1;
    }
  }

  method CopyOf(bytes: seq<byte>) returns (copy: array<byte>)
    ensures fresh(copy) && copy[..] == bytes
  {
    copy := new byte[|bytes|](i requires 0 <= i < |bytes| => bytes[i]);
  }

  method ReadFrame(buffer: seq<byte>) returns (r: ReadResult)
    requires |buffer| >= 2
    ensures r == TryReadFrame(buffer)
  {
    var first, second := buffer[0], buffer[1];
    var opcode: nat := first % 16;
    var length: nat := second % 128;
    var offset: nat := 2;
    if first / 16 % 8 != 0 || first < 128 || second < 128 {
      return FrameError(PROTOCOL_ERROR);
    }
    if length == 126 {
      if |buffer| < offset + 2 {
        return Incomplete;
      }
      length := BigEndian(buffer[offset..offset + 2]);
      offset := offset + 2;
    } else if length == 127 {
      if |buffer| < offset + 8 {
        return Incomplete;
      }
      var extendedLength := BigEndian(buffer[offset..offset + 8]);
      if extendedLength > MAX_PAYLOAD {
        return FrameError(TOO_LARGE);
      }
      length := extendedLength;
      offset := offset + 8;
    }
    if length > MAX_PAYLOAD {
      return FrameError(TOO_LARGE);
    }
    if opcode >= 0x8 && length > 125 {
      return FrameError(PROTOCOL_ERROR);
    }
    if |buffer| < offset + 4 + length {
      return Incomplete;
    }
    var mask := buffer[offset..offset + 4];
    offset := offset + 4;
    var payload := CopyOf(buffer[offset..offset + length]);
    Unmask(payload, mask);
    return FrameRead(opcode, payload[..], offset + length);
  }

  // ---- Writing a frame ----

  method EncodeFrame(payload: seq<byte>, opcode: nat) returns (frame: array<byte>)
    requires opcode < 16 && |payload| < 0x8000_0000_0000_0000
    ensures frame[..] == ServerFrame(payload, opcode)
  {
    var headerLength := if |payload| < 126 then 2 else if |payload| <= 0xffff then 4 else 10;
    frame := new byte[headerLength + |payload|](_ => 0);
    frame[0] := 128 + opcode;
    if |payload| < 126 {
      frame[1] := |payload|;
    } else if |payload| <= 0xffff {
      frame[1] := 126;
      var bytes := ToBigEndian(|payload|, 2);
      forall i | 0 <= i < 2 {
        frame[2 + i] := bytes[i];
      }
    } else {
      frame[1] := 127;
      var bytes := ToBigEndian(|payload|, 8);
      forall i | 0 <= i < 8 {
        frame[2 + i] := bytes[i];
      }
    }
    forall i | 0 <= i < |payload| {
      frame[headerLength + i] := payload[i];
    }
  }

  // ---- The connection ----

  /** What leaves the connection: text for its handlers and frames for its socket. */
  datatype Output = Text(payload: seq<byte>) | Wrote(frame: seq<byte>)

  function Outputs(events: seq<Event>): (outputs: seq<Output>)
    requires SmallReplies(events)
  {
    if events == [] then []
    else
      (match events[0]
       case Message(payload) => [Text(payload)]
       case Reply(payload) => [Wrote(ServerFrame(payload, 0xA))]
       case PongSeen => []) + Outputs(events[1..])
  }

  lemma {:induction false} OutputsConcat(s: seq<Event>, t: seq<Event>)
    requires SmallReplies(s) && SmallReplies(t)
    ensures SmallReplies(s + t) && Outputs(s + t) == Outputs(s) + Outputs(t)
  {
    if s == [] {
      assert s + t == t;
    } else {
      assert (s + t)[1..] == s[1..] + t;
      OutputsConcat(s[1..], t);
    }
  }

  /** Longer than any JavaScript string (V8 stops at 0x1fffffe8 units). */
  const MAX_STRING: nat := 0x2000_0000

  function Reason(code: nat): (text: seq<Unit>)
    ensures |text| < MAX_STRING
  {
    if code == TOO_LARGE then Literal("message too large") else Literal("protocol error")
  }

  function CloseFrame(code: nat, reason: seq<Unit>): (frame: seq<byte>)
    requires |reason| < MAX_STRING
  {
    ServerFrame(ToBigEndian(code, 2) + PlatformBytes(reason), CLOSE_OPCODE)
  }

  datatype State = State(buffer: seq<byte>, closed: bool, awaitingPong: bool, output: seq<Output>)

  function Closing(s: State, code: nat, reason: seq<Unit>): (r: State)
    requires |reason| < MAX_STRING
  {
    if s.closed then s
    else s.(closed := true, awaitingPong := false, output := s.output + [Wrote(CloseFrame(code, reason))])
  }

  function Stopping(s: State, stop: Stop): (r: State) {
    match stop
    case PeerClosed => Closing(s, 1000, Literal("closing"))
    case Failed(code) => Closing(s, code, Reason(code))
  }

  function Acting(s: State, events: seq<Event>): (r: State)
    requires SmallReplies(events)
  {
    s.(output := s.output + Outputs(events), awaitingPong := s.awaitingPong && PongSeen !in events)
  }

  /** What processing a stream makes of a connection. */
  function Handling(s: State, o: Outcome): (r: State)
    requires SmallReplies(o.events)
  {
    var acted := Acting(s, o.events).(buffer := o.rest);
    if o.stop.Some? then Stopping(acted, o.stop.value) else acted
  }

  lemma HandlingBehind(s: State, step: seq<Event>, later: Outcome)
    requires SmallReplies(step) && SmallReplies(later.events)
    ensures SmallReplies(Behind(step, later).events)
    ensures Handling(s, Behind(step, later)) == Handling(Acting(s, step), later)
  {
    OutputsConcat(step, later.events);
    assert s.output + (Outputs(step) + Outputs(later.events)) == (s.output + Outputs(step)) + Outputs(later.events);
  }

  lemma HandlingNothing(s: State, rest: seq<byte>, stop: Option<Stop>)
    ensures Handling(s, Outcome([], rest, stop)) ==
            var t := s.(buffer := rest); if stop.Some? then Stopping(t, stop.value) else t
  {
    assert s.output + [] == s.output;
  }

  lemma WaitsAsIs(s: State)
    requires Unfinished(s.buffer)
    ensures Handling(s, Process(s.buffer)) == s && |s.buffer| < MAX_PAYLOAD + MAX_HEADER
  {
    HandlingNothing(s, s.buffer, None);
  }

  lemma FailsAtOnce(s: State)
    requires |s.buffer| >= 2 && TryReadFrame(s.buffer).FrameError?
    ensures Handling(s, Process(s.buffer)) == Stopping(s.(buffer := []), Failed(TryReadFrame(s.buffer).closeCode))
  {
    HandlingNothing(s, [], Some(Failed(TryReadFrame(s.buffer).closeCode)));
  }

  lemma TakesOneFrame(s: State, frame: ReadResult)
    requires |s.buffer| >= 2 && frame == TryReadFrame(s.buffer) && frame.FrameRead?
    ensures 0 < frame.bytesRead <= |s.buffer|
    ensures var later, step := s.buffer[frame.bytesRead..], EventsOf(frame.opcode, frame.payload);
            if frame.opcode == CLOSE_OPCODE then
              Handling(s, Process(s.buffer)) == Stopping(s.(buffer := later), PeerClosed)
            else
              SmallReplies(step)
              && Handling(s, Process(s.buffer)) == Handling(Acting(s.(buffer := later), step), Process(later))
  {
    ProcessFrame(s.buffer, frame);
    var later := s.buffer[frame.bytesRead..];
    if frame.opcode == CLOSE_OPCODE {
      HandlingNothing(s, later, Some(PeerClosed));
    } else {
      StepIsSmall(EventsOf(frame.opcode, frame.payload), Process(later));
      HandlingBehind(s, EventsOf(frame.opcode, frame.payload), Process(later));
    }
  }

  /** Chunk after chunk, until the connection is closed. */
  function Feeding(s: State, chunks: seq<seq<byte>>): (r: State) {
    if chunks == [] then s
    else
      var t := Feeding(s, chunks[..|chunks| - 1]);
      if t.closed then t else Handling(t, Process(t.buffer + chunks[|chunks| - 1]))
  }

  lemma HandlingForgetsBuffer(s: State, rest: seq<byte>, o: Outcome)
    requires SmallReplies(o.events)
    ensures Handling(s.(buffer := rest), o) == Handling(s, o)
  {
  }

  lemma {:induction false} FeedingIsDelivering(s: State, chunks: seq<seq<byte>>)
    requires s.buffer == [] && !s.closed
    ensures SmallReplies(Deliver(chunks).events)
    ensures Feeding(s, chunks) == Handling(s, Deliver(chunks))
    ensures Feeding(s, chunks).closed == Deliver(chunks).stop.Some?
  {
    if chunks == [] {
      HandlingNothing(s, [], None);
    } else {
      var front, chunk := chunks[..|chunks| - 1], chunks[|chunks| - 1];
      FeedingIsDelivering(s, front);
      var o := Deliver(front);
      if o.stop.None? {
        var later := Process(o.rest + chunk);
        HandlingForgetsBuffer(Acting(s, o.events), o.rest, later);
        HandlingBehind(s, o.events, later);
        assert Deliver(chunks) == Behind(o.events, later);
      }
    }
  }

  /** However the bytes arrive, the handlers see the same texts in the same
      order, the socket gets the same frames between them, and the connection
      closes for the same reason; while it is open it also buffers the same bytes. */
  lemma ConnectionIgnoresChunking(s: State, chunks: seq<seq<byte>>)
    requires s.buffer == [] && !s.closed
    ensures var fed, whole := Feeding(s, chunks), Handling(s, Process(Joined(chunks)));
            && fed.closed == whole.closed && fed.awaitingPong == whole.awaitingPong && fed.output == whole.output
            && (!fed.closed ==> fed.buffer == whole.buffer)
  {
    ChunkingDoesNotMatter(chunks);
    FeedingIsDelivering(s, chunks);
  }

  // ---- What a stream of frames shows on the outside ----

  /** The frames that are passed on or answered: texts and pings, in order. */
  function Shown(frames: seq<ClientFrame>): (r: seq<ClientFrame>)
    ensures forall i :: 0 <= i < |r| ==> r[i] in frames && (r[i].opcode == 0x1 || r[i].opcode == 0x9)
  {
    if frames == [] then []
    else (if frames[0].opcode == 0x1 || frames[0].opcode == 0x9 then [frames[0]] else []) + Shown(frames[1..])
  }

  predicate AllValid(frames: seq<ClientFrame>) {
    forall i :: 0 <= i < |frames| ==> ValidClientFrame(frames[i])
  }

  /** A text is passed on and a ping is answered with a pong of its payload. */
  predicate AnsweredBy(f: ClientFrame, o: Output)
    requires ValidClientFrame(f)
  {
    o == if f.opcode == 0x1 then Text(f.payload) else Wrote(ServerFrame(f.payload, 0xA))
  }

  predicate Answered(shown: seq<ClientFrame>, outputs: seq<Output>)
    requires AllValid(shown)
  {
    |outputs| == |shown| && forall i :: 0 <= i < |shown| ==> AnsweredBy(shown[i], outputs[i])
  }

  lemma OneFrameIsAnswered(f: ClientFrame)
    requires ValidClientFrame(f) && f.opcode != CLOSE_OPCODE
    ensures SmallReplies(EventsOf(f.opcode, f.payload))
    ensures Answered(Shown([f]), Outputs(EventsOf(f.opcode, f.payload)))
    ensures PongSeen in EventsOf(f.opcode, f.payload) <==> f.opcode == 0xA
  {
    var step := EventsOf(f.opcode, f.payload);
    assert step != [] ==> step[1..] == [];
    assert [f][1..] == [];
    if f.opcode == 0x9 {
      assert step == [Reply(f.payload)];
    } else if f.opcode == 0xA {
      assert step == [PongSeen];
    } else if f.opcode == 0x1 {
      assert step == [Message(f.payload)];
    }
  }

  lemma AnsweredBehind(shown: seq<ClientFrame>, later: seq<ClientFrame>, first: seq<Output>, rest: seq<Output>)
    requires AllValid(shown) && AllValid(later) && Answered(shown, first) && Answered(later, rest)
    ensures AllValid(shown + later) && Answered(shown + later, first + rest)
  {
    forall i | 0 <= i < |shown + later|
      ensures ValidClientFrame((shown + later)[i]) && AnsweredBy((shown + later)[i], (first + rest)[i])
    {
      assert (shown + later)[i] == (if i < |shown| then shown[i] else later[i - |shown|]);
      assert (first + rest)[i] == (if i < |first| then first[i] else rest[i - |first|]);
    }
  }

  lemma ShownBehind(f: ClientFrame, later: seq<ClientFrame>)
    ensures Shown([f] + later) == Shown([f]) + Shown(later)
  {
    assert [f][1..] == [] && ([f] + later)[1..] == later;
  }

  lemma {:induction false} FramesAreAnswered(frames: seq<ClientFrame>)
    requires DataFrames(frames)
    ensures SmallReplies(EventsOfAll(frames)) && Answered(Shown(frames), Outputs(EventsOfAll(frames)))
    ensures PongSeen in EventsOfAll(frames) <==> exists f :: f in frames && f.opcode == 0xA
  {
    if frames != [] {
      var f, later := frames[0], frames[1..];
      assert frames == [f] + later;
      FramesAreAnswered(later);
      OneFrameIsAnswered(f);
      OutputsConcat(EventsOf(f.opcode, f.payload), EventsOfAll(later));
      ShownBehind(f, later);
      AnsweredBehind(Shown([f]), Shown(later), Outputs(EventsOf(f.opcode, f.payload)), Outputs(EventsOfAll(later)));
      assert forall g :: g in frames <==> g == f || g in later;
    }
  }

  /** However a stream of frames without a Close frame is cut, the connection
      stays open, puts out one text for each text frame and one pong for each
      ping, in their order and nothing else, stops waiting for a pong exactly
      if one came, and keeps an unfinished frame for later. */
  lemma StreamIsAnswered(s: State, frames: seq<ClientFrame>, tail: seq<byte>, chunks: seq<seq<byte>>)
    requires s.buffer == [] && !s.closed && DataFrames(frames) && Unfinished(tail)
    requires Joined(chunks) == EncodeAll(frames) + tail
    ensures var fed := Feeding(s, chunks);
            && !fed.closed && fed.buffer == tail
            && s.output <= fed.output && Answered(Shown(frames), fed.output[|s.output|..])
            && (fed.awaitingPong <==> s.awaitingPong && forall f :: f in frames ==> f.opcode != 0xA)
  {
    StreamIsDelivered(frames, tail, chunks);
    FeedingIsDelivering(s, chunks);
    FramesAreAnswered(frames);
    var outputs := Outputs(EventsOfAll(frames));
    assert Feeding(s, chunks).output == s.output + outputs;
    assert (s.output + outputs)[|s.output|..] == outputs;
  }

  /** The last output is one Close frame, which a client reads with this code and reason. */
  predicate ClosesWith(outputs: seq<Output>, code: nat, reason: seq<Unit>)
    requires |reason| < MAX_STRING
  {
    outputs != [] &&
    var last := outputs[|outputs| - 1];
    last.Wrote? && |last.frame| >= 2
    && ReadServerFrame(last.frame) == (0x8, ToBigEndian(code, 2) + PlatformBytes(reason))
  }

  /** The connection answered these frames and then closed, with this code and reason. */
  predicate AnsweredAndClosed(s: State, t: State, frames: seq<ClientFrame>, code: nat, reason: seq<Unit>)
    requires DataFrames(frames) && |reason| < MAX_STRING
  {
    t.closed && s.output <= t.output &&
    var outputs := t.output[|s.output|..];
    ClosesWith(outputs, code, reason)
    && (forall f :: f in Shown(frames) ==> ValidClientFrame(f))
    && Answered(Shown(frames), outputs[..|outputs| - 1])
  }

  /** The code and reason that go with a stop. */
  predicate StopsWith(stop: Stop, code: nat, reason: seq<Unit>) {
    (stop == PeerClosed && code == 1000 && reason == Literal("closing")) || (stop == Failed(code) && reason == Reason(code))
  }

  lemma StoppedOutput(s: State, frames: seq<ClientFrame>, tail: seq<byte>, chunks: seq<seq<byte>>, code: nat, reason: seq<Unit>)
    requires s.buffer == [] && !s.closed && DataFrames(frames) && |reason| < MAX_STRING
    requires Joined(chunks) == EncodeAll(frames) + tail
    requires Process(tail).events == [] && Process(tail).stop.Some? && StopsWith(Process(tail).stop.value, code, reason)
    ensures SmallReplies(EventsOfAll(frames))
    ensures var t := Feeding(s, chunks);
            t.closed && t.output == s.output + Outputs(EventsOfAll(frames)) + [Wrote(CloseFrame(code, reason))]
  {
    FramesComeFirst(frames, tail);
    ChunkingDoesNotMatter(chunks);
    FeedingIsDelivering(s, chunks);
    FramesAreAnswered(frames);
    assert EventsOfAll(frames) + [] == EventsOfAll(frames);
    var o := Deliver(chunks);
    assert o.events == EventsOfAll(frames) && o.stop == Process(tail).stop;
    var acted := Acting(s, o.events).(buffer := o.rest);
    assert Handling(s, o) == Stopping(acted, o.stop.value);
    assert Stopping(acted, o.stop.value) == Closing(acted, code, reason);
  }

  lemma StoppedStream(s: State, frames: seq<ClientFrame>, tail: seq<byte>, chunks: seq<seq<byte>>, code: nat, reason: seq<Unit>)
    requires s.buffer == [] && !s.closed && DataFrames(frames) && |reason| < MAX_STRING
    requires Joined(chunks) == EncodeAll(frames) + tail
    requires Process(tail).events == [] && Process(tail).stop.Some? && StopsWith(Process(tail).stop.value, code, reason)
    ensures AnsweredAndClosed(s, Feeding(s, chunks), frames, code, reason)
  {
    StoppedOutput(s, frames, tail, chunks, code, reason);
    FramesAreAnswered(frames);
    var outputs, close := Outputs(EventsOfAll(frames)), CloseFrame(code, reason);
    ServerFrameIsRead(ToBigEndian(code, 2) + PlatformBytes(reason), CLOSE_OPCODE);
    var t := Feeding(s, chunks);
    Regroup(s.output, outputs, [Wrote(close)]);
    assert t.output[|s.output|..] == outputs + [Wrote(close)];
    assert (outputs + [Wrote(close)])[..|outputs|] == outputs;
  }

  /** Up to a Close frame, however the stream is cut: what came before it is
      answered, and then one Close frame goes back. */
  lemma StreamIsClosed(s: State, frames: seq<ClientFrame>, f: ClientFrame, rest: seq<byte>, chunks: seq<seq<byte>>)
    requires s.buffer == [] && !s.closed && DataFrames(frames) && ValidClientFrame(f) && f.opcode == 0x8
    requires Joined(chunks) == EncodeAll(frames) + (WebSocketFrames.Encode(f) + rest)
    ensures AnsweredAndClosed(s, Feeding(s, chunks), frames, 1000, Literal("closing"))
  {
    ReadInvertsEncode(f, rest);
    ProcessFrame(WebSocketFrames.Encode(f) + rest, FrameRead(f.opcode, f.payload, |WebSocketFrames.Encode(f)|));
    StoppedStream(s, frames, WebSocketFrames.Encode(f) + rest, chunks, 1000, Literal("closing"));
  }

  /** Up to bytes that are no frame, however the stream is cut: what came
      before them is answered, and then one Close frame goes back with the code
      of the error. */
  lemma StreamIsRefused(s: State, frames: seq<ClientFrame>, bad: seq<byte>, chunks: seq<seq<byte>>)
    requires s.buffer == [] && !s.closed && DataFrames(frames)
    requires |bad| >= 2 && TryReadFrame(bad).FrameError?
    requires Joined(chunks) == EncodeAll(frames) + bad
    ensures var code := TryReadFrame(bad).closeCode;
            AnsweredAndClosed(s, Feeding(s, chunks), frames, code,
                              if code == 1009 then Literal("message too large") else Literal("protocol error"))
  {
    StoppedStream(s, frames, bad, chunks, TryReadFrame(bad).closeCode, Reason(TryReadFrame(bad).closeCode));
  }

  class WebSocketConnection {
    var buffer: seq<byte>
    var closed: bool
    var awaitingPong: bool
    var output: seq<Output>

    function View(): State
      reads this
    {
      State(buffer, closed, awaitingPong, output)
    }

    constructor ()
      ensures buffer == [] && !closed && !awaitingPong && output == []
    {
      buffer, closed, awaitingPong, output := [], false, false, [];
    }

    method WriteFrame(payload: seq<byte>, opcode: nat)
      requires opcode < 16 && |payload| < 0x8000_0000_0000_0000
      modifies this`output
      ensures output == old(output) + [Wrote(ServerFrame(payload, opcode))]
    {
      var frame := EncodeFrame(payload, opcode);
      output := output + [Wrote(frame[..])];
    }

    method SendText(message: seq<Unit>)
      requires |message| < MAX_STRING
      modifies this`output
      ensures output == old(output) + if closed then [] else [Wrote(ServerFrame(PlatformBytes(message), 0x1))]
    {
      if closed {
        return;
      }
      WriteFrame(PlatformBytes(message), 0x1);
    }

    /** writeUInt16BE takes no larger code. */
    method Close(code: nat, reason: seq<Unit>)
      requires code < 0x1_0000 && |reason| < MAX_STRING
      modifies this
      ensures View() == Closing(old(View()), code, reason)
    {
      if closed {
        return;
      }
      WriteFrame(ToBigEndian(code, 2) + PlatformBytes(reason), CLOSE_OPCODE);
      closed := true;
      awaitingPong := false;
    }

    method SendPing()
      modifies this`output, this`awaitingPong
      ensures output == old(output) + if closed || old(awaitingPong) then [] else [Wrote(ServerFrame([], 0x9))]
      ensures awaitingPong == (old(awaitingPong) || !closed)
    {
      if closed || awaitingPong {
        return;
      }
      WriteFrame([], 0x9);
      awaitingPong := true;
    }

    /** What a frame other than a Close frame makes the connection do. */
    method Act(opcode: nat, payload: seq<byte>)
      requires opcode != CLOSE_OPCODE && SmallReplies(EventsOf(opcode, payload))
      modifies this`output, this`awaitingPong
      ensures View() == Acting(old(View()), EventsOf(opcode, payload))
    {
      var step := EventsOf(opcode, payload);
      assert step != [] ==> step[1..] == [];
      assert output + [] == output;
      if opcode == 0x9 {
        assert Reply(payload) in step;
        assert step == [Reply(payload)] && Outputs(step) == [Wrote(ServerFrame(payload, 0xA))];
        WriteFrame(payload, 0xA);
      } else if opcode == 0xA {
        awaitingPong := false;
        assert step == [PongSeen] && Outputs(step) == [];
      } else if opcode == 0x1 {
        output := output + [Text(payload)];
        assert step == [Message(payload)] && Outputs(step) == [Text(payload)];
      }
    }

    /** One chunk from the socket does what processing the buffered bytes and the chunk does. */
    method HandleData(chunk: seq<byte>)
      modifies this
      ensures View() == Handling(old(View()), Process(old(buffer) + chunk))
    {
      buffer := buffer + chunk;
      while |buffer| >= 2
        invariant Handling(View(), Process(buffer)) == Handling(old(View()), Process(old(buffer) + chunk))
        decreases |buffer|
      {
        var frame := ReadFrame(buffer);
        if frame.Incomplete? {
          WaitsAsIs(View());
          // The check for an oversized buffer stands here; it never fires.
          assert |buffer| <= MAX_PAYLOAD + MAX_HEADER;
          return;
        }
        if frame.FrameError? {
          FailsAtOnce(View());
          buffer := [];
          Close(frame.closeCode, Reason(frame.closeCode));
          return;
        }
        TakesOneFrame(View(), frame);
        buffer := buffer[frame.bytesRead..];
        if frame.opcode == CLOSE_OPCODE {
          Close(1000, Literal("closing"));
          return;
        }
        Act(frame.opcode, frame.payload);
      }
      WaitsAsIs(View());
    }
  }
}
