/**
 Item heads: the first byte and argument of an item, decoded from arbitrary input,
 and the one encoding of them that is written.
 */
module CborHeads {
  import opened Bytes
  import opened Wrappers
  import opened Limits

  datatype CborError =
    | EndOfInput
    | TrailingBytes
    | TrailingItem
    | Unfinished
    | IndefiniteLength
    | TagNotAllowed
    | FloatNotAllowed
    | SimpleValueNotAllowed
    | ReservedHead
    | KeyNotInteger
    | RepeatedKey
    | MisplacedKey
    | KeysNotAscending
    | DepthExceeded
    | StringTooLong
    | InvalidUtf8
    | WrongType
    | IntegerOutOfRange
    | DestinationTooSmall

  /** The machine word a length has to fit: the controller's is thirty-two bits. */
  const USIZE_MAX: nat := 0xFFFF_FFFF

  datatype Major = UnsignedInt | NegativeInt | ByteString | TextString | ArrayOf | MapOf | Tag | Simple

  datatype Head =
    | Unsigned(arg: u64)
    | Negative(arg: u64)
    | Bytes(raw: seq<byte>)
    | Text(raw: seq<byte>)
    | Array(count: nat)
    | Map(pairs: nat)
    | Bool(value: bool)

  function MajorBits(m: Major): (bits: nat)
    ensures bits < 8
  {
    match m
    case UnsignedInt => 0
    case NegativeInt => 1
    case ByteString => 2
    case TextString => 3
    case ArrayOf => 4
    case MapOf => 5
    case Tag => 6
    case Simple => 7
  }

  function MajorOf(first: byte): Major {
    match first / 32
    case 0 => UnsignedInt
    case 1 => NegativeInt
    case 2 => ByteString
    case 3 => TextString
    case 4 => ArrayOf
    case 5 => MapOf
    case 6 => Tag
    case _ => Simple
  }

  /** UTF-8 as RFC 3629 bounds it: no overlong form, no surrogate, nothing past U+10FFFF. */
  predicate Utf8(s: seq<byte>)
    decreases |s|
  {
    if s == [] then true
    else if s[0] < 0x80 then Utf8(s[1..])
    else if 0xC2 <= s[0] <= 0xDF then |s| >= 2 && Continuation(s[1]) && Utf8(s[2..])
    else if 0xE0 <= s[0] <= 0xEF then
      |s| >= 3 && Continuation(s[1]) && Continuation(s[2]) &&
      (s[0] == 0xE0 ==> s[1] >= 0xA0) && (s[0] == 0xED ==> s[1] < 0xA0) && Utf8(s[3..])
    else if 0xF0 <= s[0] <= 0xF4 then
      |s| >= 4 && Continuation(s[1]) && Continuation(s[2]) && Continuation(s[3]) &&
      (s[0] == 0xF0 ==> s[1] >= 0x90) && (s[0] == 0xF4 ==> s[1] < 0x90) && Utf8(s[4..])
    else false
  }

  predicate Continuation(b: byte) { 0x80 <= b <= 0xBF }

  // ---------------------------------------------------------------------------
  // Reading a head.

  function Take(b: seq<byte>, at: nat, len: nat): Result<(seq<byte>, nat), CborError>
    requires at <= |b|
  {
    if len > |b| - at then Failure(EndOfInput) else Success((b[at..at + len], at + len))
  }

  function WidthOf(info: nat): Result<nat, CborError>
    requires info < 32
  {
    if info < 24 then Success(0)
    else if info == 24 then Success(1)
    else if info == 25 then Success(2)
    else if info == 26 then Success(4)
    else if info == 27 then Success(8)
    else if info < 31 then Failure(ReservedHead)
    else Failure(IndefiniteLength)
  }

  /** The argument that `info` announces, and where it ends. */
  function Argument(b: seq<byte>, at: nat, info: nat): (r: Result<(u64, nat), CborError>)
    requires at <= |b| && info < 32
    ensures r.Success? ==> at <= r.value.1 <= |b|
  {
    var width :- WidthOf(info);
    if width == 0 then Success((info, at))
    else
      var (tail, end) :- Take(b, at, width);
      FromBigEndianBound(tail);
      Pow256Values();
      Success((FromBigEndian(tail), end))
  }

  function Length(b: seq<byte>, at: nat, info: nat): (r: Result<(nat, nat), CborError>)
    requires at <= |b| && info < 32
    ensures r.Success? ==> at <= r.value.1 <= |b|
  {
    var (arg, end) :- Argument(b, at, info);
    if arg > USIZE_MAX then Failure(EndOfInput) else Success((arg, end))
  }

  function SimpleHead(info: nat): Result<Head, CborError>
    requires info < 32
  {
    if info == 20 then Success(Bool(false))
    else if info == 21 then Success(Bool(true))
    else if 25 <= info <= 27 then Failure(FloatNotAllowed)
    else if 28 <= info <= 30 then Failure(ReservedHead)
    else if info == 31 then Failure(IndefiniteLength)
    else Failure(SimpleValueNotAllowed)
  }

  /** A container's count, refused when what is left could not hold that many items at a byte each. */
  function Count(b: seq<byte>, at: nat, info: nat, perItem: nat): (r: Result<(nat, nat), CborError>)
    requires at <= |b| && info < 32
    ensures r.Success? ==> at <= r.value.1 <= |b| && r.value.0 * perItem <= |b| - r.value.1
  {
    var (count, end) :- Length(b, at, info);
    if count * perItem > USIZE_MAX || count * perItem > |b| - end then Failure(EndOfInput)
    else Success((count, end))
  }

  /** The head of the item at `at`, its string included, and where it ends. */
  function DecodeHead(b: seq<byte>, at: nat): (r: Result<(Head, nat), CborError>)
    requires at <= |b|
    ensures r.Success? ==> at < r.value.1 <= |b|
  {
    if at == |b| then Failure(EndOfInput)
    else
      var info, next := b[at] % 32, at + 1;
      match MajorOf(b[at])
      case UnsignedInt =>
        var (arg, end) :- Argument(b, next, info);
        Success((Unsigned(arg), end))
      case NegativeInt =>
        var (arg, end) :- Argument(b, next, info);
        Success((Negative(arg), end))
      case ByteString =>
        var (len, from) :- Length(b, next, info);
        var (raw, end) :- Take(b, from, len);
        Success((Bytes(raw), end))
      case TextString =>
        var (len, from) :- Length(b, next, info);
        if len > MAX_STRING then Failure(StringTooLong)
        else
          var (raw, end) :- Take(b, from, len);
          if Utf8(raw) then Success((Text(raw), end)) else Failure(InvalidUtf8)
      case ArrayOf =>
        var (count, end) :- Count(b, next, info, 1);
        Success((Array(count), end))
      case MapOf =>
        var (pairs, end) :- Count(b, next, info, 2);
        Success((Map(pairs), end))
      case Tag => Failure(TagNotAllowed)
      case Simple =>
        var head :- SimpleHead(info);
        Success((head, next))
  }

  // ---------------------------------------------------------------------------
  // Writing a head.

  function Width(arg: u64): nat {
    if arg < 24 then 0
    else if arg <= 0xFF then 1
    else if arg <= 0xFFFF then 2
    else if arg <= 0xFFFF_FFFF then 4
    else 8
  }

  function Info(arg: u64): (info: nat)
    ensures info < 28 && WidthOf(info) == Success(Width(arg))
  {
    match Width(arg)
    case 0 => arg
    case 1 => 24
    case 2 => 25
    case 4 => 26
    case _ => 27
  }

  function HeadBytes(m: Major, arg: u64): (bytes: seq<byte>)
    ensures |bytes| == 1 + Width(arg)
  {
    [MajorBits(m) * 32 + Info(arg)] + BigEndian(arg, Width(arg))
  }

  /** The argument written is the argument read. */
  lemma ArgumentWritten(pre: seq<byte>, arg: u64, post: seq<byte>)
    ensures var b := pre + BigEndian(arg, Width(arg)) + post;
            Argument(b, |pre|, Info(arg)) == Success((arg, |pre| + Width(arg)))
  {
    var tail := BigEndian(arg, Width(arg));
    var b := pre + tail + post;
    assert b[|pre|..|pre| + Width(arg)] == tail;
    Pow256Values();
    if Width(arg) > 0 { BigEndianInverse(arg, Width(arg)); }
  }

  /** No head that says the same argument is shorter (section 4.2.1 of RFC 8949). */
  lemma ShortestForm(b: seq<byte>, at: nat, info: nat)
    requires at <= |b| && info < 32 && Argument(b, at, info).Success?
    ensures var (arg, end) := Argument(b, at, info).value; Width(arg) <= end - at
  {
    var width := WidthOf(info).value;
    if width > 0 {
      FromBigEndianBound(b[at..at + width]);
      Pow256Values();
    }
  }
}
