/**
 Frames: a payload with its checksum behind it, encoded and delimited, and a reader
 that takes a stream a byte at a time from any point in it.
 */
module Frame {
  import opened Bytes
  import opened Wrappers
  import opened Limits
  import opened Crc
  import opened Cobs

  const DELIMITER: byte := 0x00
  const MAX_ENCODED: nat := MAX_FRAME - FRAME_DELIMITER_BYTES
  const MAX_DECODED: nat := MAX_PAYLOAD + CRC_BYTES
  const INCOMPLETE_AFTER_MS: nat := 50
  const U32_MAX: u32 := 0xFFFF_FFFF

  datatype FrameError =
    | PayloadTooLong
    | DestinationTooSmall
    | FrameTooLong
    | Cobs(why: CobsError)
    | MissingCrc
    | BadCrc

  datatype Received =
    | Nothing
    | Frame(envelope: seq<byte>)
    | Dropped(why: FrameError)
    | Abandoned

  function MaxFrameLen(payload: nat): nat {
    MaxEncodedLen(payload + CRC_BYTES) + FRAME_DELIMITER_BYTES
  }

  function LittleEndian(v: u16): (bytes: seq<byte>)
    ensures |bytes| == CRC_BYTES
  {
    [v % 256, v / 256]
  }

  function FromLittleEndian(low: byte, high: byte): u16 {
    (low as int) + 256 * (high as int)
  }

  lemma LittleEndianInverse(v: u16, low: byte, high: byte)
    ensures FromLittleEndian(low, high) == v <==> LittleEndian(v) == [low, high]
  {}

  /** What COBS encodes for a payload, and the frame that goes on the wire. */
  function Body(payload: seq<byte>): (body: seq<byte>)
    ensures |body| == |payload| + CRC_BYTES
  {
    payload + LittleEndian(Crc16(payload))
  }

  function Framed(payload: seq<byte>): seq<byte> {
    Encoded(Body(payload)) + [DELIMITER]
  }

  // ---------------------------------------------------------------------------
  // Specification of the reader: each run between delimiters is judged alone.

  function FromCobs(why: CobsError): FrameError {
    if why == CobsError.DestinationTooSmall then PayloadTooLong else Cobs(why)
  }

  function CheckCrc(filled: seq<byte>): Result<seq<byte>, FrameError> {
    if |filled| < CRC_BYTES then Failure(MissingCrc)
    else
      var n := |filled| - CRC_BYTES;
      if Crc16(filled[..n]) != FromLittleEndian(filled[n], filled[n + 1]) then Failure(BadCrc)
      else Success(filled[..n])
  }

  function Judge(run: seq<byte>): Received {
    if |run| > MAX_ENCODED then Dropped(FrameTooLong)
    else if run == [] then Nothing
    else
      match Decoded(run, MAX_DECODED)
      case Failure(why) => Dropped(FromCobs(why))
      case Success(filled) =>
        match CheckCrc(filled)
        case Failure(why) => Dropped(why)
        case Success(envelope) => Frame(envelope)
  }

  /** The run in progress, and how long nothing has followed it. */
  datatype Line = Line(run: seq<byte>, waiting: u32)

  function PushByte(line: Line, b: byte): (Received, Line) {
    if b == DELIMITER then (Judge(line.run), Line([], 0))
    else (Nothing, line.(run := line.run + [b]))
  }

  function TickLine(line: Line, input: Option<byte>, sinceMs: u32): (Received, Line) {
    match input
    case Some(b) => PushByte(line.(waiting := 0), b)
    case None =>
      var waited: u32 := if line.waiting + sinceMs > U32_MAX then U32_MAX else line.waiting + sinceMs;
      if line.run != [] && waited >= INCOMPLETE_AFTER_MS then (Abandoned, Line([], 0))
      else (Nothing, line.(waiting := waited))
  }

  // ---------------------------------------------------------------------------
  // What a judged run can be.

  lemma CheckCrcBody(filled: seq<byte>, envelope: seq<byte>)
    ensures CheckCrc(filled) == Success(envelope) <==> filled == Body(envelope)
  {
    if |filled| >= CRC_BYTES {
      var n := |filled| - CRC_BYTES;
      var head, tail := filled[..n], [filled[n], filled[n + 1]];
      assert filled == head + tail;
      LittleEndianInverse(Crc16(head), filled[n], filled[n + 1]);
      if filled == Body(envelope) {
        assert head == envelope && tail == LittleEndian(Crc16(envelope));
      }
    }
  }

  /**
   Exactly the runs that deliver `envelope`: within the buffer, carrying no more
   than a payload, and spelling the envelope with its own checksum behind it.
   */
  lemma DeliveredExactly(run: seq<byte>, envelope: seq<byte>)
    ensures Judge(run) == Frame(envelope) <==>
            |run| <= MAX_ENCODED && |envelope| <= MAX_PAYLOAD && Canonical(run, Body(envelope))
  {
    if Judge(run) == Frame(envelope) {
      var filled := Decoded(run, MAX_DECODED).value;
      CheckCrcBody(filled, envelope);
      DecodesTo(run, filled, MAX_DECODED);
    } else if |run| <= MAX_ENCODED && |envelope| <= MAX_PAYLOAD && Canonical(run, Body(envelope)) {
      DecodesTo(run, Body(envelope), MAX_DECODED);
      CheckCrcBody(Body(envelope), envelope);
    }
  }

  lemma FramedShape(payload: seq<byte>)
    requires |payload| <= MAX_PAYLOAD
    ensures NoZero(Encoded(Body(payload))) && 0 < |Encoded(Body(payload))| <= MAX_ENCODED
    ensures |Framed(payload)| <= MaxFrameLen(|payload|)
    ensures Judge(Encoded(Body(payload))) == Frame(payload)
  {
    RoundTrip(Body(payload), MAX_DECODED);
    DeliveredExactly(Encoded(Body(payload)), payload);
  }

  // ---------------------------------------------------------------------------
  // Whole streams.

  /** What a reader in the middle of `run` says to each byte of a stream. */
  function Answers(run: seq<byte>, stream: seq<byte>): (answers: seq<Received>)
    ensures |answers| == |stream|
    decreases |stream|
  {
    if stream == [] then []
    else
      var (answer, line) := PushByte(Line(run, 0), stream[0]);
      [answer] + Answers(line.run, stream[1..])
  }

  /** The delimited runs of a stream, in order; what follows the last delimiter is not one. */
  function Runs(stream: seq<byte>): seq<seq<byte>>
    decreases |stream|
  {
    if DELIMITER !in stream then []
    else
      var at := FirstDelimiter(stream);
      [stream[..at]] + Runs(stream[at + 1..])
  }

  function FirstDelimiter(stream: seq<byte>): (at: nat)
    requires DELIMITER in stream
    ensures at < |stream| && stream[at] == DELIMITER && NoZero(stream[..at])
  {
    if stream[0] == DELIMITER then 0
    else
      assert DELIMITER in stream[1..];
      1 + FirstDelimiter(stream[1..])
  }

  function Verdicts(runs: seq<seq<byte>>): seq<Received> {
    if runs == [] then []
    else (if Judge(runs[0]) == Nothing then [] else [Judge(runs[0])]) + Verdicts(runs[1..])
  }

  function Spoken(answers: seq<Received>): seq<Received> {
    if answers == [] then []
    else (if answers[0] == Nothing then [] else [answers[0]]) + Spoken(answers[1..])
  }

  lemma {:induction false} FirstDelimiterIs(run: seq<byte>, rest: seq<byte>)
    requires NoZero(run)
    ensures FirstDelimiter(run + [DELIMITER] + rest) == |run|
  {
    var stream := run + [DELIMITER] + rest;
    assert forall i :: 0 <= i < |run| ==> stream[i] == run[i];
    assert stream[|run|] == DELIMITER;
    assert forall i :: 0 <= i < FirstDelimiter(stream) ==> stream[..FirstDelimiter(stream)][i] == stream[i];
  }

  /**
   The byte-at-a-time reader is the reader that splits the stream on delimiters
   and judges each run alone.
   */
  lemma {:induction false} ReaderSplitsAndJudges(run: seq<byte>, stream: seq<byte>)
    requires NoZero(run)
    ensures Spoken(Answers(run, stream)) == Verdicts(Runs(run + stream))
    decreases |stream|
  {
    hide Judge;
    if stream == [] {
      assert run + stream == run;
    } else if stream[0] == DELIMITER {
      assert run + stream == run + [DELIMITER] + stream[1..];
      FirstDelimiterIs(run, stream[1..]);
      ReaderSplitsAndJudges([], stream[1..]);
      assert [] + stream[1..] == stream[1..];
      assert (run + stream)[..|run|] == run && (run + stream)[|run| + 1..] == stream[1..];
      assert Runs(run + stream) == [run] + Runs(stream[1..]);
    } else {
      ReaderSplitsAndJudges(run + [stream[0]], stream[1..]);
      assert run + [stream[0]] + stream[1..] == run + stream;
    }
  }

  function Silence(n: nat): (s: seq<Received>)
    ensures |s| == n && forall i :: 0 <= i < n ==> s[i] == Nothing
  {
    seq(n, _ => Nothing)
  }

  lemma {:induction false} AnswersWithinRun(run: seq<byte>, more: seq<byte>)
    requires NoZero(more)
    ensures Answers(run, more + [DELIMITER]) == Silence(|more|) + [Judge(run + more)]
    decreases |more|
  {
    var stream := more + [DELIMITER];
    if more == [] {
      assert stream[1..] == [] && run + more == run;
    } else {
      assert stream[1..] == more[1..] + [DELIMITER];
      AnswersWithinRun(run + [more[0]], more[1..]);
      assert run + [more[0]] + more[1..] == run + more;
      assert [Nothing] + Silence(|more| - 1) == Silence(|more|);
    }
  }

  lemma AnswerToDelimiter(run: seq<byte>, rest: seq<byte>)
    ensures Answers(run, [DELIMITER] + rest) == [Judge(run)] + Answers([], rest)
  {
    hide Judge;
    assert ([DELIMITER] + rest)[1..] == rest;
  }

  /** A reader with nothing in hand says nothing until a frame's last byte, and then delivers it. */
  lemma FrameAlone(payload: seq<byte>)
    requires |payload| <= MAX_PAYLOAD
    ensures Answers([], Framed(payload)) == Silence(|Framed(payload)| - 1) + [Frame(payload)]
  {
    FramedShape(payload);
    var encoded := Encoded(Body(payload));
    AnswersWithinRun([], encoded);
    assert [] + encoded == encoded;
  }

  /**
   One delimiter restores step from any state: the frame written next is
   delivered exactly at its last byte, and nothing is said before it.
   */
  lemma FrameDelivered(garbage: seq<byte>, payload: seq<byte>)
    requires NoZero(garbage) && |payload| <= MAX_PAYLOAD
    ensures Answers(garbage, [DELIMITER] + Framed(payload))
         == [Judge(garbage)] + (Silence(|Framed(payload)| - 1) + [Frame(payload)])
  {
    AnswerToDelimiter(garbage, Framed(payload));
    FrameAlone(payload);
  }

  datatype Input = Byte(b: byte) | Quiet(sinceMs: u32) | Discard

  function Step(line: Line, input: Input): (Received, Line) {
    match input
    case Byte(b) => TickLine(line, Some(b), 0)
    case Quiet(sinceMs) => TickLine(line, None, sinceMs)
    case Discard => (Nothing, Line([], 0))
  }

  function Replies(line: Line, inputs: seq<Input>): (replies: seq<Received>)
    ensures |replies| == |inputs|
    decreases |inputs|
  {
    if inputs == [] then []
    else [Step(line, inputs[0]).0] + Replies(Step(line, inputs[0]).1, inputs[1..])
  }

  function BytesOf(stream: seq<byte>): (inputs: seq<Input>)
    ensures |inputs| == |stream|
  {
    if stream == [] then [] else [Byte(stream[0])] + BytesOf(stream[1..])
  }

  /** A delimiter, a discard, or the silence that times a partial run out. */
  predicate RestoresStep(line: Line, input: Input) {
    match input
    case Byte(b) => b == DELIMITER
    case Quiet(sinceMs) => line.run != [] && line.waiting + sinceMs >= INCOMPLETE_AFTER_MS
    case Discard => true
  }

  lemma {:induction false} RepliesToBytes(line: Line, stream: seq<byte>)
    ensures Replies(line, BytesOf(stream)) == Answers(line.run, stream)
    decreases |stream|
  {
    hide Judge;
    if stream != [] {
      RepliesToBytes(Step(line, Byte(stream[0])).1, stream[1..]);
      assert BytesOf(stream)[1..] == BytesOf(stream[1..]);
    }
  }

  /** However the reader got where it is, any one of these puts the next frame through whole. */
  lemma Resynchronises(line: Line, input: Input, payload: seq<byte>)
    requires RestoresStep(line, input) && |payload| <= MAX_PAYLOAD
    ensures Replies(Step(line, input).1, BytesOf(Framed(payload)))
         == Silence(|Framed(payload)| - 1) + [Frame(payload)]
  {
    assert Step(line, input).1.run == [];
    RepliesToBytes(Step(line, input).1, Framed(payload));
    FrameAlone(payload);
  }

  // ---------------------------------------------------------------------------
  // The implementation.

  class FrameWriter {
    const body: array<byte>

    constructor ()
      ensures body.Length == MAX_DECODED && fresh(body)
    {
      body := new byte[MAX_DECODED](_ => 0);
    }

    /** Frame `payload` into `dst`: refused on the two lengths alone, before `dst` is touched. */
    method Write(payload: seq<byte>, dst: array<byte>) returns (r: Result<nat, FrameError>)
      requires body.Length == MAX_DECODED && dst != body
      modifies body, dst
      ensures dst.Length < MaxFrameLen(|payload|) ==> r == Failure(FrameError.DestinationTooSmall)
      ensures dst.Length >= MaxFrameLen(|payload|) && |payload| > MAX_PAYLOAD ==> r == Failure(PayloadTooLong)
      ensures dst.Length >= MaxFrameLen(|payload|) && |payload| <= MAX_PAYLOAD ==>
                r == Success(|Framed(payload)|) && |Framed(payload)| <= dst.Length
      ensures r.Success? ==> dst[..r.value] == Framed(payload)
      ensures var end := if r.Success? then r.value else 0;
              forall i :: end <= i < dst.Length ==> dst[i] == old(dst[i])
    {
      var end := |payload| + CRC_BYTES;
      if dst.Length < MaxFrameLen(|payload|) {
        return Failure(FrameError.DestinationTooSmall);
      }
      if end > body.Length {
        return Failure(PayloadTooLong);
      }
      var crc := ComputeCrc16(payload);
      var source := payload + LittleEndian(crc);
      for i := 0 to end
        invariant forall k :: 0 <= k < i ==> body[k] == source[k]
        invariant forall k :: 0 <= k < dst.Length ==> dst[k] == old(dst[k])
      {
        body[i] := source[i];
      }
      assert body[..end] == Body(payload);
      var encoded := Encode(body[..end], dst);
      FramedShape(payload);
      dst[encoded.value] := DELIMITER;
      return Success(encoded.value + 1);
    }
  }

  class FrameReader {
    const encoded: array<byte>
    var at: nat
    var overlong: bool
    const decoded: array<byte>
    var waiting: u32
    /** Every byte since the last delimiter, kept or not. */
    ghost var run: seq<byte>

    ghost predicate Valid()
      reads this, encoded, decoded
    {
      && encoded != decoded
      && encoded.Length == MAX_ENCODED && decoded.Length == MAX_DECODED
      && NoZero(run)
      && at <= MAX_ENCODED
      && (if overlong then at == MAX_ENCODED < |run| else at == |run|)
      && encoded[..at] == run[..at]
    }

    ghost function State(): Line
      reads this
    {
      Line(run, waiting)
    }

    constructor ()
      ensures Valid() && State() == Line([], 0)
    {
      encoded := new byte[MAX_ENCODED](_ => 0);
      decoded := new byte[MAX_DECODED](_ => 0);
      at := 0;
      overlong := false;
      waiting := 0;
      run := [];
    }

    method Push(b: byte) returns (r: Received)
      requires Valid()
      modifies this, encoded, decoded
      ensures Valid()
      ensures (r, State()) == PushByte(old(State()), b)
    {
      if b != DELIMITER {
        Hold(b);
        return Nothing;
      }
      waiting := 0;
      var len := at;
      at := 0;
      var long := overlong;
      overlong := false;
      ghost var judged := run;
      run := [];
      if long {
        return Dropped(FrameTooLong);
      }
      if len == 0 {
        return Nothing;
      }
      assert encoded[..len] == judged;
      var taken := Take(len);
      match taken {
        case Success(envelope) => return Frame(envelope);
        case Failure(why) => return Dropped(why);
      }
    }

    method DiscardRun()
      requires Valid()
      modifies this
      ensures Valid() && (Nothing, State()) == Step(old(State()), Discard)
    {
      at := 0;
      overlong := false;
      waiting := 0;
      run := [];
    }

    method Tick(input: Option<byte>, sinceMs: u32) returns (r: Received)
      requires Valid()
      modifies this, encoded, decoded
      ensures Valid()
      ensures (r, State()) == TickLine(old(State()), input, sinceMs)
    {
      if input.None? {
        waiting := if waiting + sinceMs > U32_MAX then U32_MAX else waiting + sinceMs;
        if at > 0 && waiting >= INCOMPLETE_AFTER_MS {
          DiscardRun();
          return Abandoned;
        }
        return Nothing;
      }
      waiting := 0;
      r := Push(input.value);
    }

    method Hold(b: byte)
      requires Valid() && b != DELIMITER
      modifies this, encoded
      ensures Valid() && run == old(run) + [b] && waiting == old(waiting)
    {
      if at < encoded.Length {
        encoded[at] := b;
        at := at + 1;
      } else {
        overlong := true;
      }
      run := run + [b];
    }

    /** Decode one run and check its checksum, handing back the envelope it covered. */
    method Take(len: nat) returns (r: Result<seq<byte>, FrameError>)
      requires 0 < len <= MAX_ENCODED == encoded.Length && decoded.Length == MAX_DECODED && encoded != decoded
      modifies decoded
      ensures match Judge(encoded[..len]) {
                case Frame(envelope) => r == Success(envelope)
                case Dropped(why) => r == Failure(why)
                case _ => false
              }
    {
      ghost var judged := encoded[..len];
      var decoding := Decode(encoded[..len], decoded);
      if decoding.Failure? {
        return Failure(FromCobs(decoding.error));
      }
      var filled := decoding.value;
      var envelopeLen := if filled < CRC_BYTES then 0 else filled - CRC_BYTES;
      if filled - envelopeLen != CRC_BYTES {
        return Failure(MissingCrc);
      }
      var envelope := decoded[..envelopeLen];
      assert decoded[..filled][..envelopeLen] == envelope;
      var crc := ComputeCrc16(envelope);
      if crc != FromLittleEndian(decoded[envelopeLen], decoded[envelopeLen + 1]) {
        return Failure(BadCrc);
      }
      return Success(envelope);
    }
  }
}
