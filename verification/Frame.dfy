/** The binary frame codec over a caller-owned buffer. */
module FrameCodec {
  import opened Uhal
  import opened Bytes8
  import opened Register16
  import opened Crc
  import opened CrcPolynomial

  const SYNC_WORD: bv16 := 0xA55A
  const HEADER_SIZE: nat := 5
  const CRC_SIZE: nat := 2

  /** `payload` is the fixed buffer, of which `payloadSize` bytes are in use. */
  datatype Frame = Frame(opcode: Byte, payload: Bytes, payloadSize: nat)

  // ---- the wire image ----------------------------------------------------

  /** The bytes the CRC covers.  The header counts as five bytes but only four
      are written, so the byte behind the payload is whatever the buffer held
      before: `gap`. */
  function Body(frame: Frame, gap: Byte): (b: Bytes)
    requires frame.payloadSize <= |frame.payload|
    ensures |b| == HEADER_SIZE + frame.payloadSize
  {
    [0xA5, 0x5A, ByteOf(frame.payloadSize), frame.opcode] + frame.payload[..frame.payloadSize] + [gap]
  }

  ghost predicate IsWire(frame: Frame, gap: Byte, bytes: Bytes) {
    && frame.payloadSize <= |frame.payload|
    && |bytes| == HEADER_SIZE + frame.payloadSize + CRC_SIZE
    && bytes[..|bytes| - 2] == Body(frame, gap)
    && Word(bytes[|bytes| - 2..]) == Crc16(Body(frame, gap))
  }

  method Encode(frame: Frame, output: array?<Byte>, capacity: nat) returns (r: Result<nat>)
    requires output != null ==> capacity <= output.Length
    modifies if output == null then {} else {output}
    ensures output == null || frame.payloadSize > |frame.payload| || capacity < HEADER_SIZE + frame.payloadSize + CRC_SIZE
        ==> r == Failure(InvalidArgument) && (output != null ==> output[..] == old(output[..]))
    ensures output != null && frame.payloadSize <= |frame.payload| && HEADER_SIZE + frame.payloadSize + CRC_SIZE <= capacity
        ==> && r == Success(HEADER_SIZE + frame.payloadSize + CRC_SIZE)
            && IsWire(frame, old(output[4 + frame.payloadSize]), output[..r.value])
            && output[r.value..] == old(output[..])[r.value..]
  {
    hide Word, Fold, ByteOf, SizeOf, Wide;
    if output == null || frame.payloadSize > |frame.payload| {
      return Failure(InvalidArgument);
    }
    var frameSize := HEADER_SIZE + frame.payloadSize + CRC_SIZE;
    if capacity < frameSize {
      return Failure(InvalidArgument);
    }
    WriteBody(frame, output);
    ghost var body := output[..frameSize - 2];
    ghost var behind := output[frameSize..];
    var crc := Crc16Modbus(output, HEADER_SIZE + frame.payloadSize);
    var field := Field16(crc);
    output[frameSize - 2] := field[0];
    output[frameSize - 1] := field[1];
    assert output[..frameSize][..frameSize - 2] == body;
    assert output[..frameSize][frameSize - 2..] == field;
    assert output[frameSize..] == behind == old(output[..])[frameSize..];
    return Success(frameSize);
  }

  method WriteBody(frame: Frame, output: array<Byte>)
    requires frame.payloadSize <= |frame.payload| && HEADER_SIZE + frame.payloadSize <= output.Length
    modifies output
    ensures output[..HEADER_SIZE + frame.payloadSize] == Body(frame, old(output[4 + frame.payloadSize]))
    ensures output[HEADER_SIZE + frame.payloadSize..] == old(output[..])[HEADER_SIZE + frame.payloadSize..]
  {
    hide ByteOf;
    var n := frame.payloadSize;
    output[0] := 0xA5;
    output[1] := 0x5A;
    output[2] := ByteOf(n);
    output[3] := frame.opcode;
    for index := 0 to n
      invariant output[..4] == [0xA5, 0x5A, ByteOf(n), frame.opcode]
      invariant output[4..4 + index] == frame.payload[..index]
      invariant output[4 + n..] == old(output[4 + n..])
    {
      output[4 + index] := frame.payload[index];
    }
    assert output[..5 + n] == output[..4] + output[4..4 + n] + output[4 + n..5 + n];
    assert output[5 + n..] == output[4 + n..][1..];
  }

  /** The frame a decoder hands out: the buffer behind the payload is zero. */
  function Received(bytes: Bytes, maximum: nat): (f: Frame)
    requires 7 <= |bytes| && |bytes| - 7 <= maximum
    ensures f.payloadSize <= |f.payload| == maximum
  {
    Frame(bytes[3], bytes[4..|bytes| - 3] + seq(maximum - (|bytes| - 7), _ => 0), |bytes| - 7)
  }

  method Decode(maximum: nat, input: array?<Byte>, inputSize: nat) returns (r: Result<Frame>)
    requires input != null ==> inputSize <= input.Length
    ensures r == if input == null then Failure(InvalidArgument) else Decoded(maximum, input[..inputSize])
  {
    hide Word, Fold, ByteOf, SizeOf, Join16, Wide;
    if input == null || inputSize < HEADER_SIZE + CRC_SIZE {
      return Failure(InvalidArgument);
    }
    SyncBytes(input[1], input[0]);
    var syncWord := Join16(input[1], input[0]);
    if syncWord != SYNC_WORD {
      return Failure(Nack);
    }
    var payloadSize := SizeOf(input[2]);
    var frameSize := HEADER_SIZE + payloadSize + CRC_SIZE;
    if payloadSize > maximum || inputSize != frameSize {
      return Failure(InvalidArgument);
    }
    var (lo, hi) := (input[frameSize - 2], input[frameSize - 1]);
    var expectedCrc := Join16(lo, hi);
    var crc := Crc16Modbus(input, frameSize - CRC_SIZE);
    WideInjective(crc, expectedCrc);
    ghost var bytes := input[..inputSize];
    assert bytes[frameSize - 2..] == [lo, hi];
    assert bytes[..frameSize - 2] == input[..frameSize - 2];
    if crc != expectedCrc {
      return Failure(IoError);
    }
    var payload := seq(maximum, _ => 0);
    for index := 0 to payloadSize
      invariant |payload| == maximum
      invariant payload[..index] == bytes[4..4 + index]
      invariant forall k :: index <= k < maximum ==> payload[k] == 0
    {
      payload := payload[index := input[4 + index]];
    }
    r := Success(Frame(input[3], payload, payloadSize));
    assert r.value.payload == Received(bytes, maximum).payload;
  }

  lemma SyncBytes(lo: Byte, hi: Byte)
    ensures Join16(lo, hi) == SYNC_WORD <==> hi == 0xA5 && lo == 0x5A
  {
  }

  // ---- what decoding means ---------------------------------------------------

  /** The decoder's verdict on a byte string, in the order of its checks. */
  function Decoded(maximum: nat, bytes: Bytes): Result<Frame> {
    if |bytes| < HEADER_SIZE + CRC_SIZE then Failure(InvalidArgument)
    else if bytes[0] != 0xA5 || bytes[1] != 0x5A then Failure(Nack)
    else if SizeOf(bytes[2]) > maximum || |bytes| != 7 + SizeOf(bytes[2]) then Failure(InvalidArgument)
    else if Crc16(bytes[..|bytes| - 2]) != Word(bytes[|bytes| - 2..]) then Failure(IoError)
    else Success(Received(bytes, maximum))
  }

  lemma BodyParts(f: Frame, gap: Byte)
    requires f.payloadSize <= |f.payload|
    ensures var (b, n) := (Body(f, gap), f.payloadSize);
            && b[0] == 0xA5 && b[1] == 0x5A && b[2] == ByteOf(n) && b[3] == f.opcode
            && b[4..4 + n] == f.payload[..n] && b[4 + n] == gap
  {
    hide ByteOf;
  }

  lemma Front(bytes: Bytes, n: nat, i: nat, j: nat)
    requires i <= j <= n <= |bytes|
    ensures bytes[..n][i..j] == bytes[i..j]
  {}

  /** The bytes of an encoded frame, one by one: sync word, size, opcode, payload, one byte
      that was not written, and the CRC-16 remainder of all these, low byte first. */
  lemma WireLayout(f: Frame, gap: Byte, bytes: Bytes)
    requires IsWire(f, gap, bytes)
    ensures var n := f.payloadSize;
            && |bytes| == n + 7 && bytes[0] == 0xA5 && bytes[1] == 0x5A
            && SizeOf(bytes[2]) == n % 256 && bytes[3] == f.opcode
            && bytes[4..4 + n] == f.payload[..n] && bytes[4 + n] == gap
            && IsRemainder(Dividend(bytes[..5 + n], 16), G16, 16, Reflected(Wide(Join16(bytes[5 + n], bytes[6 + n])), 16))
  {
    hide Word, Fold, ByteOf, SizeOf, Join16, Wide, IsRemainder, Dividend, Reflected;
    var n := f.payloadSize;
    var body := bytes[..|bytes| - 2];
    SizeOfByte(n);
    BodyParts(f, gap);
    Front(bytes, 5 + n, 4, 4 + n);
    hide Body;
    assert bytes[0] == body[0] && bytes[1] == body[1] && bytes[2] == body[2] && bytes[3] == body[3];
    assert bytes[4 + n] == body[4 + n];
    assert bytes[5 + n..] == [bytes[5 + n], bytes[6 + n]];
    Crc16IsRemainder(body, Join16(bytes[5 + n], bytes[6 + n]));
  }

  /** How the decoder names the damage: a sync word that is not one, a size that does not
      match, and a CRC that does not. */
  lemma DamageIsNamed(f: Frame, gap: Byte, sent: Bytes, received: Bytes, i: nat)
    requires IsWire(f, gap, sent) && f.payloadSize <= 255
    ensures |received| >= 7 && received[..2] != sent[..2] ==> Decoded(|f.payload|, received) == Failure(Nack)
    ensures |received| < 7 ==> Decoded(|f.payload|, received) == Failure(InvalidArgument)
    ensures |received| >= 7 && received[..3] == sent[..3] && |received| != |sent| ==>
              Decoded(|f.payload|, received) == Failure(InvalidArgument)
    ensures DifferInside(sent, received, i, 2) && i >= 3 && received != sent ==>
              Decoded(|f.payload|, received) == Failure(IoError)
  {
    WireDecodes(f, gap, sent);
    WireLayout(f, gap, sent);
    hide Word, Fold, ByteOf, SizeOf, Join16, Wide, IsRemainder, IsWire;
    if |received| >= 3 && received[..3] == sent[..3] { SameHead(sent, received); }
    if |received| >= 7 && received[..2] != sent[..2] {
      assert received[..2] == [received[0], received[1]] && sent[..2] == [sent[0], sent[1]];
    }
    if DifferInside(sent, received, i, 2) && i >= 3 && received != sent {
      BurstIsRejected(f, gap, sent, received, i, |f.payload|);
      Front(sent, i, 0, 3);
      Front(received, i, 0, 3);
      SameHead(sent, received);
    }
  }

  lemma SameHead(sent: Bytes, received: Bytes)
    requires |sent| >= 3 && |received| >= 3 && received[..3] == sent[..3]
    ensures received[0] == sent[0] && received[1] == sent[1] && received[2] == sent[2]
  {
    assert received[0] == received[..3][0] && received[1] == received[..3][1] && received[2] == received[..3][2];
  }

  /** The decoder accepts exactly the images the encoder can produce, for any
      content of the unwritten byte. */
  lemma AcceptsExactlyWires(maximum: nat, bytes: Bytes)
    ensures Decoded(maximum, bytes).Success? <==>
              exists f, gap :: IsWire(f, gap, bytes) && |f.payload| == maximum && f.payloadSize <= 255
    ensures Decoded(maximum, bytes).Success? ==> IsWire(Decoded(maximum, bytes).value, bytes[|bytes| - 3], bytes)
  {
    hide Word, Fold, ByteOf, SizeOf, Join16, Wide;
    if Decoded(maximum, bytes).Success? {
      ByteOfSize(bytes[2]);
      var f := Decoded(maximum, bytes).value;
      var n := f.payloadSize;
      assert bytes[..|bytes| - 2] == bytes[..4] + bytes[4..4 + n] + [bytes[4 + n]];
      assert bytes[..|bytes| - 2] == Body(f, bytes[|bytes| - 3]);
      assert IsWire(f, bytes[|bytes| - 3], bytes);
    }
    forall f, gap | IsWire(f, gap, bytes) && |f.payload| == maximum && f.payloadSize <= 255
      ensures Decoded(maximum, bytes).Success?
    {
      WireDecodes(f, gap, bytes);
    }
  }

  /** An encoded frame comes back with its opcode, size and payload, exactly
      when its size fits the one-byte size field. */
  lemma WireDecodes(f: Frame, gap: Byte, bytes: Bytes)
    requires IsWire(f, gap, bytes)
    ensures Decoded(|f.payload|, bytes).Success? <==> f.payloadSize <= 255
    ensures f.payloadSize <= 255 ==>
              && var d := Decoded(|f.payload|, bytes).value;
              && d.opcode == f.opcode && d.payloadSize == f.payloadSize
              && d.payload[..d.payloadSize] == f.payload[..f.payloadSize]
  {
    hide Word, Fold, ByteOf, SizeOf, Join16, Wide;
    var n := f.payloadSize;
    var body := bytes[..|bytes| - 2];
    SizeOfByte(n);
    assert bytes[0] == body[0] && bytes[1] == body[1] && bytes[2] == body[2] && bytes[3] == body[3];
    assert bytes[4..4 + n] == body[4..4 + n] == f.payload[..n];
    if n <= 255 {
      assert Received(bytes, |f.payload|).payload[..n] == bytes[4..4 + n];
    }
  }

  /** No change confined to two consecutive bytes of an encoded frame, header
      and check field included, is ever decoded. */
  lemma BurstIsRejected(f: Frame, gap: Byte, sent: Bytes, received: Bytes, i: nat, maximum: nat)
    requires IsWire(f, gap, sent)
    requires DifferInside(sent, received, i, 2) && sent != received
    ensures Decoded(maximum, received).Failure?
  {
    hide Word, Fold, ByteOf, SizeOf, Join16, Wide;
    Crc16DetectsBurst(sent, received, |sent| - 2, i);
  }
}
