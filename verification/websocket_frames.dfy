// WebSocket frames (relay/server/src/websocket.ts; sections 5.2 and 5.3 of RFC 6455).
module WebSocketFrames {
  import opened Bytes
  import opened Options
  import opened Sequences

  const MAX_PAYLOAD: nat := 8 * 1024 * 1024
  const MAX_HEADER: nat := 14
  const PROTOCOL_ERROR: nat := 1002
  const TOO_LARGE: nat := 1009

  datatype ReadResult =
    | Incomplete
    | FrameRead(opcode: nat, payload: seq<byte>, bytesRead: nat)
    | FrameError(closeCode: nat)

  /** Masking and unmasking are the same exclusive or. */
  function Mask(mask: seq<byte>, data: seq<byte>): (r: seq<byte>)
    requires |mask| == 4
    ensures |r| == |data| && forall i :: 0 <= i < |data| ==> r[i] == Xor(data[i], mask[i % 4])
  {
    seq(|data|, i requires 0 <= i < |data| => Xor(data[i], mask[i % 4]))
  }

  lemma MaskTwice(mask: seq<byte>, data: seq<byte>)
    requires |mask| == 4
    ensures Mask(mask, Mask(mask, data)) == data
  {
    forall i | 0 <= i < |data|
      ensures Mask(mask, Mask(mask, data))[i] == data[i]
    {
      XorInvolution(data[i], mask[i % 4]);
    }
  }

  // ---- Reading ----

  function ReadBody(buffer: seq<byte>, opcode: nat, length: nat, offset: nat): (r: ReadResult) {
    if length > MAX_PAYLOAD then FrameError(TOO_LARGE)
    else if opcode >= 8 && length > 125 then FrameError(PROTOCOL_ERROR)
    else if |buffer| < offset + 4 + length then Incomplete
    else FrameRead(opcode, Mask(buffer[offset..offset + 4], buffer[offset + 4..offset + 4 + length]), offset + 4 + length)
  }

  function TryReadFrame(buffer: seq<byte>): (r: ReadResult)
    requires |buffer| >= 2
  {
    var first, second := buffer[0], buffer[1];
    var opcode, short := first % 16, second % 128;
    if first / 16 % 8 != 0 then FrameError(PROTOCOL_ERROR)
    else if first < 128 then FrameError(PROTOCOL_ERROR)
    else if second < 128 then FrameError(PROTOCOL_ERROR)
    else if short == 126 then
      if |buffer| < 4 then Incomplete else ReadBody(buffer, opcode, BigEndian(buffer[2..4]), 4)
    else if short == 127 then
      if |buffer| < 10 then Incomplete
      else if BigEndian(buffer[2..10]) > MAX_PAYLOAD then FrameError(TOO_LARGE)
      else ReadBody(buffer, opcode, BigEndian(buffer[2..10]), 10)
    else ReadBody(buffer, opcode, short, 2)
  }

  /** A final frame without reserved bits, masked as a client's frame must be. */
  predicate GoodHeader(buffer: seq<byte>)
    requires |buffer| >= 2
  {
    128 <= buffer[0] < 144 && buffer[1] >= 128
  }

  /** The payload length that the header announces, once all of it is there. */
  function Announced(buffer: seq<byte>): (length: Option<nat>)
    requires |buffer| >= 2
  {
    match buffer[1] % 128
    case 126 => if |buffer| < 4 then None else Some(BigEndian(buffer[2..4]))
    case 127 => if |buffer| < 10 then None else Some(BigEndian(buffer[2..10]))
    case n => Some(n as nat)
  }

  /** Every error and its code: 1009 for a length over 8 MiB behind a good
      header, 1002 for a bad header or a control frame over 125 bytes. */
  lemma ErrorsExactly(buffer: seq<byte>)
    requires |buffer| >= 2
    ensures var announced := Announced(buffer);
            && (TryReadFrame(buffer) == FrameError(1009) <==>
                  GoodHeader(buffer) && announced.Some? && announced.value > 8388608)
            && (TryReadFrame(buffer) == FrameError(1002) <==>
                  !GoodHeader(buffer)
                  || (announced.Some? && 125 < announced.value <= 8388608 && buffer[0] % 16 >= 8))
            && (TryReadFrame(buffer).FrameError? ==> TryReadFrame(buffer).closeCode in {1002, 1009})
  {
    assert buffer[0] / 16 % 8 == 0 && buffer[0] >= 128 <==> 128 <= buffer[0] < 144;
  }

  /** Once a frame or an error is seen, more bytes do not change it. */
  lemma ReadIsStable(buffer: seq<byte>, more: seq<byte>)
    requires |buffer| >= 2 && !TryReadFrame(buffer).Incomplete?
    ensures TryReadFrame(buffer + more) == TryReadFrame(buffer)
  {
    var whole := buffer + more;
    if |buffer| >= 4 {
      assert whole[2..4] == buffer[2..4];
    }
    if |buffer| >= 10 {
      assert whole[2..10] == buffer[2..10];
    }
    var r := TryReadFrame(buffer);
    if r.FrameRead? {
      var n := r.bytesRead;
      forall i, j | 0 <= i <= j <= n
        ensures whole[i..j] == buffer[i..j]
      {
      }
    }
  }

  /** A buffer that does not hold a whole frame stays under the payload limit
      plus the largest header, so the check for oversized buffers never fires. */
  lemma IncompleteIsSmall(buffer: seq<byte>)
    requires |buffer| >= 2 && TryReadFrame(buffer).Incomplete?
    ensures |buffer| < MAX_PAYLOAD + MAX_HEADER
  {
  }

  lemma FrameMakesProgress(buffer: seq<byte>)
    requires |buffer| >= 2 && TryReadFrame(buffer).FrameRead?
    ensures 6 <= TryReadFrame(buffer).bytesRead <= |buffer|
  {
  }

  // ---- Client frames ----

  datatype LengthForm = Short | Medium | Long

  datatype ClientFrame = ClientFrame(opcode: nat, mask: seq<byte>, payload: seq<byte>, form: LengthForm)

  predicate ValidClientFrame(f: ClientFrame) {
    && f.opcode < 16 && |f.mask| == 4 && |f.payload| <= MAX_PAYLOAD
    && (f.opcode >= 8 ==> |f.payload| <= 125)
    && (f.form.Short? ==> |f.payload| < 126)
    && (f.form.Medium? ==> |f.payload| < 0x1_0000)
  }

  function LengthBytes(f: ClientFrame): (r: seq<byte>)
    ensures |r| == match f.form case Short => 0 case Medium => 2 case Long => 8
  {
    match f.form
    case Short => []
    case Medium => ToBigEndian(|f.payload|, 2)
    case Long => ToBigEndian(|f.payload|, 8)
  }

  function LengthCode(f: ClientFrame): (n: nat)
    requires ValidClientFrame(f)
    ensures n < 128
  {
    match f.form
    case Short => |f.payload|
    case Medium => 126
    case Long => 127
  }

  /** The bytes of a final, masked frame, with any of the length forms that can hold its length. */
  function Encode(f: ClientFrame): (bytes: seq<byte>)
    requires ValidClientFrame(f)
    ensures |bytes| == 6 + |LengthBytes(f)| + |f.payload|
  {
    [128 + f.opcode, 128 + LengthCode(f)] + LengthBytes(f) + f.mask + Mask(f.mask, f.payload)
  }

  lemma EncodedParts(f: ClientFrame)
    requires ValidClientFrame(f)
    ensures var bytes, n := Encode(f), 2 + |LengthBytes(f)|;
            && bytes[0] == 128 + f.opcode && bytes[1] == 128 + LengthCode(f)
            && bytes[2..n] == LengthBytes(f) && bytes[n..n + 4] == f.mask && bytes[n + 4..] == Mask(f.mask, f.payload)
  {
  }

  lemma LengthIsRead(f: ClientFrame)
    requires ValidClientFrame(f)
    ensures !f.form.Short? ==> BigEndian(LengthBytes(f)) == |f.payload|
  {
    assert Pow256(2) == 0x1_0000 && Pow256(8) == 0x1_0000_0000_0000_0000;
    match f.form
    case Short =>
    case Medium => BigEndianInverse(|f.payload|, 2);
    case Long => BigEndianInverse(|f.payload|, 8);
  }

  lemma HeaderBits(opcode: nat, code: nat)
    requires opcode < 16 && code < 128
    ensures (128 + opcode) % 16 == opcode && (128 + opcode) / 16 % 8 == 0 && (128 + code) % 128 == code
  {
  }

  lemma HeaderIsRead(f: ClientFrame)
    requires ValidClientFrame(f)
    ensures TryReadFrame(Encode(f)) == ReadBody(Encode(f), f.opcode, |f.payload|, 2 + |LengthBytes(f)|)
  {
    var bytes := Encode(f);
    EncodedParts(f);
    HeaderBits(f.opcode, LengthCode(f));
    LengthIsRead(f);
  }

  /** Reading a valid client frame followed by anything gives back its opcode, payload and length. */
  lemma ReadInvertsEncode(f: ClientFrame, rest: seq<byte>)
    requires ValidClientFrame(f)
    ensures TryReadFrame(Encode(f) + rest) == FrameRead(f.opcode, f.payload, |Encode(f)|)
  {
    var bytes, n := Encode(f), 2 + |LengthBytes(f)|;
    EncodedParts(f);
    HeaderIsRead(f);
    MaskTwice(f.mask, f.payload);
    assert bytes[n + 4..n + 4 + |f.payload|] == bytes[n + 4..];
    ReadIsStable(bytes, rest);
  }

  /** Every proper prefix of two or more bytes reads as incomplete. */
  lemma ProperPrefixIsIncomplete(f: ClientFrame, k: nat)
    requires ValidClientFrame(f) && 2 <= k < |Encode(f)|
    ensures TryReadFrame(Encode(f)[..k]) == Incomplete
  {
    var bytes := Encode(f);
    EncodedParts(f);
    LengthIsRead(f);
    var part, n := bytes[..k], 2 + |LengthBytes(f)|;
    if k >= n {
      assert part[2..n] == bytes[2..n];
    }
  }

  function HeaderSize(buffer: seq<byte>): (n: nat)
    requires |buffer| >= 2
  {
    if buffer[1] % 128 == 126 then 4 else if buffer[1] % 128 == 127 then 10 else 2
  }

  lemma FrameShape(buffer: seq<byte>)
    requires |buffer| >= 2 && TryReadFrame(buffer).FrameRead?
    ensures var r, n := TryReadFrame(buffer), HeaderSize(buffer);
            && buffer[0] == 128 + r.opcode && r.opcode < 16 && buffer[1] >= 128
            && (r.opcode >= 8 ==> |r.payload| <= 125)
            && r.bytesRead == n + 4 + |r.payload| <= |buffer| && |r.payload| <= MAX_PAYLOAD
            && r.payload == Mask(buffer[n..n + 4], buffer[n + 4..r.bytesRead])
            && |r.payload| == (if n == 2 then buffer[1] - 128 else BigEndian(buffer[2..n]))
  {
  }

  lemma LengthIsWritten(bytes: seq<byte>)
    ensures ToBigEndian(BigEndian(bytes), |bytes|) == bytes && (|bytes| == 2 ==> BigEndian(bytes) < 0x1_0000)
  {
    ToBigEndianInverse(bytes);
    BigEndianBound(bytes);
    assert Pow256(2) == 0x1_0000;
  }

  /** The client frame a buffer starts with. */
  function FrameAt(buffer: seq<byte>, r: ReadResult): (f: ClientFrame)
    requires |buffer| >= 2 && r == TryReadFrame(buffer) && r.FrameRead?
  {
    FrameShape(buffer);
    var n := HeaderSize(buffer);
    ClientFrame(r.opcode, buffer[n..n + 4], r.payload, if n == 4 then Medium else if n == 10 then Long else Short)
  }

  lemma FrameAtIsValid(buffer: seq<byte>, r: ReadResult)
    requires |buffer| >= 2 && r == TryReadFrame(buffer) && r.FrameRead?
    ensures var f := FrameAt(buffer, r);
            ValidClientFrame(f) && LengthCode(f) == buffer[1] - 128 && LengthBytes(f) == buffer[2..HeaderSize(buffer)]
  {
    FrameShape(buffer);
    var n := HeaderSize(buffer);
    if n == 2 {
      assert buffer[2..2] == [];
    } else {
      LengthIsWritten(buffer[2..n]);
      assert |buffer[2..n]| == n - 2;
    }
  }

  /** Only encodings read as frames: what was read is the encoding of a valid client frame. */
  lemma ReadsOnlyEncodings(buffer: seq<byte>) returns (f: ClientFrame)
    requires |buffer| >= 2 && TryReadFrame(buffer).FrameRead?
    ensures ValidClientFrame(f) && TryReadFrame(buffer) == FrameRead(f.opcode, f.payload, |Encode(f)|)
    ensures buffer[..|Encode(f)|] == Encode(f)
  {
    var r := TryReadFrame(buffer);
    f := FrameAt(buffer, r);
    FrameShape(buffer);
    FrameAtIsValid(buffer, r);
    var n := HeaderSize(buffer);
    MaskTwice(f.mask, buffer[n + 4..r.bytesRead]);
    FourParts(buffer, 2, n, n + 4, r.bytesRead);
    assert buffer[..2] == [buffer[0], buffer[1]];
  }

  // ---- Server frames ----

  /** encodeFrame: final, unmasked, with the shortest length form. */
  function ServerFrame(payload: seq<byte>, opcode: nat): (bytes: seq<byte>)
    requires opcode < 16 && |payload| < 0x8000_0000_0000_0000
  {
    if |payload| < 126 then [128 + opcode, |payload|] + payload
    else if |payload| <= 0xffff then [128 + opcode, 126] + ToBigEndian(|payload|, 2) + payload
    else [128 + opcode, 127] + ToBigEndian(|payload|, 8) + payload
  }

  /** How a client reads an unmasked frame: opcode and payload. */
  function ReadServerFrame(bytes: seq<byte>): (nat, seq<byte>)
    requires |bytes| >= 2
  {
    var n := if bytes[1] == 126 then 4 else if bytes[1] == 127 then 10 else 2;
    (bytes[0] % 16, if |bytes| < n then [] else
       var length := if n == 2 then bytes[1] as nat else BigEndian(bytes[2..n]);
       if |bytes| < n + length then [] else bytes[n..n + length])
  }

  /** A client reads back what the server framed. */
  lemma ServerFrameIsRead(payload: seq<byte>, opcode: nat)
    requires opcode < 16 && |payload| < 0x8000_0000_0000_0000
    ensures ReadServerFrame(ServerFrame(payload, opcode)) == (opcode, payload)
  {
    var bytes := ServerFrame(payload, opcode);
    assert Pow256(2) == 0x1_0000 && Pow256(8) == 0x1_0000_0000_0000_0000;
    if |payload| < 126 {
      assert bytes[2..2 + |payload|] == payload;
    } else if |payload| <= 0xffff {
      BigEndianInverse(|payload|, 2);
      assert bytes[2..4] == ToBigEndian(|payload|, 2);
      assert bytes[4..4 + |payload|] == payload;
    } else {
      BigEndianInverse(|payload|, 8);
      assert bytes[2..10] == ToBigEndian(|payload|, 8);
      assert bytes[10..10 + |payload|] == payload;
    }
  }
}
