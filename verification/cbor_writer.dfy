/**
 The writer as a specification over the bytes so far and the stack, and as a class
 over a fixed array that changes only what it answers for.
 */
module CborWriters {
  import opened Bytes
  import opened Wrappers
  import opened Limits
  import opened CborHeads
  import opened CborGrammar
  import opened CborWalk
  import opened CborPairs
  import opened CborReaders

  type usize = x: int | 0 <= x <= USIZE_MAX

  type i32 = x: int | -0x8000_0000 <= x <= 0x7FFF_FFFF

  type i64 = x: int | -1 - I64_MAX <= x <= I64_MAX

  /** A slice, and a slice known to be text, as the language's own types guarantee them. */
  type Slice = s: seq<byte> | |s| <= USIZE_MAX

  type Str = s: Slice | Utf8(s)

  datatype Call =
    | PutArray(len: usize)
    | PutMap(pairs: usize)
    | PutKey(key: i64)
    | PutU64(number: u64)
    | PutI32(integer: i32)
    | PutBool(flag: bool)
    | PutBytes(raw: Slice)
    | PutZeros(room: usize)
    | PutText(text: Str)
    | PutRaw(item: Slice)

  // ---------------------------------------------------------------------------
  // Specification.

  function Zeros(n: nat): (zeros: seq<byte>)
    ensures |zeros| == n && forall i :: 0 <= i < n ==> zeros[i] == 0
  {
    seq(n, _ => 0)
  }

  /** The head a call writes, with the string behind it; none for an item copied in. */
  function HeadOf(call: Call): (h: Head)
    requires !call.PutRaw? && (call.PutKey? ==> call.key >= 0)
  {
    match call
    case PutArray(len) => Array(len)
    case PutMap(pairs) => Map(pairs)
    case PutKey(key) => Unsigned(key)
    case PutU64(number) => Unsigned(number)
    case PutI32(integer) => if integer < 0 then Negative(-1 - integer) else Unsigned(integer)
    case PutBool(flag) => Bool(flag)
    case PutBytes(raw) => Head.Bytes(raw)
    case PutZeros(room) => Head.Bytes(Zeros(room))
    case PutText(text) => Text(text)
  }

  /** The bytes a head is written as, its argument in the shortest form. */
  function EncodeHead(h: Head): (bytes: seq<byte>)
    requires (h.Array? ==> h.count <= USIZE_MAX) && (h.Map? ==> h.pairs <= USIZE_MAX)
    requires (h.Bytes? || h.Text?) ==> |h.raw| <= USIZE_MAX
    ensures |bytes| >= 1
  {
    match h
    case Unsigned(arg) => HeadBytes(UnsignedInt, arg)
    case Negative(arg) => HeadBytes(NegativeInt, arg)
    case Bytes(raw) => HeadBytes(ByteString, |raw|) + raw
    case Text(raw) => HeadBytes(TextString, |raw|) + raw
    case Array(count) => HeadBytes(ArrayOf, count)
    case Map(pairs) => HeadBytes(MapOf, pairs)
    case Bool(value) => HeadBytes(Simple, if value then 21 else 20)
  }

  function Emission(call: Call): seq<byte>
    requires call.PutKey? ==> call.key >= 0
  {
    if call.PutRaw? then call.item else EncodeHead(HeadOf(call))
  }

  datatype WriterState = WriterState(out: seq<byte>, opens: seq<Open>)

  const EMPTY: WriterState := WriterState([], [])

  function SettleOpens(opens: seq<Open>): (settled: seq<Open>)
    ensures settled == [] || Last(settled).remaining > 0
    ensures |settled| <= |opens|
  {
    if opens == [] || Last(opens).remaining > 0 then opens else SettleOpens(Front(opens))
  }

  predicate AtKeyOpens(opens: seq<Open>) {
    opens != [] && ExpectsKey(Last(opens).kind, Last(opens).remaining)
  }

  function RawRefusal(opens: seq<Open>, item: seq<byte>): Option<CborError> {
    match Item(item, 0, MAX_DEPTH, true)
    case Failure(why) => Some(why)
    case Success(w) =>
      if w.end < |item| then Some(TrailingBytes)
      else if |opens| + w.height > MAX_DEPTH then Some(DepthExceeded)
      else None
  }

  /** Why a call is refused on a settled stack, room in the buffer aside. */
  function Refusal(s: WriterState, call: Call): Option<CborError> {
    if call.PutKey? then
      if !AtKeyOpens(s.opens) then Some(MisplacedKey)
      else
        var lastKey := Last(s.opens).lastKey;
        if lastKey.Some? && AtMost(KeyRank(false, if call.key < 0 then 0 else call.key), lastKey.value)
          then Some(KeysNotAscending)
        else None
    else if AtKeyOpens(s.opens) then Some(MisplacedKey)
    else if s.opens == [] && s.out != [] then Some(TrailingItem)
    else if call.PutRaw? then RawRefusal(s.opens, call.item)
    else if (call.PutArray? || call.PutMap?) && |s.opens| >= MAX_DEPTH then Some(DepthExceeded)
    else if call.PutMap? && 2 * call.pairs > USIZE_MAX then Some(DestinationTooSmall)
    else if call.PutText? && |call.text| > MAX_STRING then Some(StringTooLong)
    else None
  }

  /** The stack with a written key taken. */
  function TakenKey(opens: seq<Open>, call: Call): (taken: seq<Open>)
    requires call.PutKey? ==> opens != [] && call.key >= 0
    ensures |taken| == |opens|
  {
    if call.PutKey? then Front(opens) + [Last(opens).(lastKey := Some(KeyRank(false, call.key)))] else opens
  }

  function Entered(opens: seq<Open>, call: Call): seq<Open> {
    match call
    case PutArray(len) => CountedOpens(opens) + [Open(InArray, len, None, 0)]
    case PutMap(pairs) => CountedOpens(opens) + [Open(InMap, 2 * pairs, None, 0)]
    case _ => CountedOpens(opens)
  }

  /** One call: what it answers, and the writer after it, refused or not. */
  function Write(s: WriterState, capacity: nat, call: Call): (Result<(), CborError>, WriterState) {
    if call.PutKey? && call.key < 0 then (Failure(IntegerOutOfRange), s)
    else
      var settled := s.(opens := SettleOpens(s.opens));
      match Refusal(settled, call)
      case Some(why) => (Failure(why), settled)
      case None =>
        var taken := TakenKey(settled.opens, call);
        if |s.out| + |Emission(call)| > capacity then (Failure(DestinationTooSmall), s.(opens := taken))
        else (Success(()), WriterState(s.out + Emission(call), Entered(taken, call)))
  }

  function Close(s: WriterState): Result<nat, CborError> {
    if SettleOpens(s.opens) != [] then Failure(Unfinished) else Success(|s.out|)
  }

  /** A string goes out as its head and then its bytes. */
  lemma StringEmission(out: seq<byte>, major: Major, raw: seq<byte>, call: Call)
    requires |raw| <= USIZE_MAX
    requires (major == ByteString && call == PutBytes(raw))
             || (major == TextString && Utf8(raw) && call == PutText(raw))
             || (major == ByteString && call == PutZeros(|raw|) && raw == Zeros(|raw|))
    ensures out + HeadBytes(major, |raw|) + raw == out + Emission(call)
    ensures |HeadBytes(major, |raw|)| + |raw| == |Emission(call)|
  {
    hide HeadBytes, Zeros, Utf8;
    assert Emission(call) == HeadBytes(major, |raw|) + raw;
    assert out + HeadBytes(major, |raw|) + raw == out + (HeadBytes(major, |raw|) + raw);
  }

  // ---------------------------------------------------------------------------
  // The implementation.

  class CborWriter {
    const dst: array<byte>
    var next: nat
    var opens: seq<Open>

    ghost predicate Valid()
      reads this
    {
      next <= dst.Length
    }

    ghost function State(): WriterState
      requires Valid()
      reads this, dst
    {
      WriterState(dst[..next], opens)
    }

    /** What a call leaves behind: its answer, its state, and nothing written past it or on refusal. */
    twostate predicate Wrote(new r: Result<(), CborError>, call: Call)
      requires old(Valid())
      reads this, dst
    {
      && Valid()
      && (r, State()) == Write(old(State()), dst.Length, call)
      && (r.Failure? ==> dst[..] == old(dst[..]))
      && forall i :: next <= i < dst.Length ==> dst[i] == old(dst[i])
    }

    constructor (dst: array<byte>)
      ensures Valid() && State() == EMPTY && this.dst == dst
    {
      this.dst := dst;
      next := 0;
      opens := [];
    }

    method SettleNest()
      requires Valid()
      modifies this`opens
      ensures opens == SettleOpens(old(opens))
    {
      while opens != [] && Last(opens).remaining == 0
        invariant SettleOpens(opens) == SettleOpens(old(opens))
        decreases |opens|
      {
        opens := Front(opens);
      }
    }

    method Emit(data: seq<byte>) returns (r: Result<(), CborError>)
      requires Valid()
      modifies this`next, dst
      ensures Valid() && opens == old(opens)
      ensures if old(next) + |data| > dst.Length
              then r == Failure(DestinationTooSmall) && next == old(next) && dst[..] == old(dst[..])
              else r == Success(()) && dst[..next] == old(dst[..next]) + data
      ensures forall i :: next <= i < dst.Length ==> dst[i] == old(dst[i])
    {
      if next + |data| > dst.Length {
        return Failure(DestinationTooSmall);
      }
      forall i | 0 <= i < |data| {
        dst[next + i] := data[i];
      }
      assert dst[next..next + |data|] == data;
      next := next + |data|;
      return Success(());
    }

    /** The head byte and its argument, with room for `payload` bytes behind them checked first. */
    method PutHead(major: Major, arg: u64, payload: nat) returns (r: Result<(), CborError>)
      requires Valid()
      modifies this`next, dst
      ensures Valid() && opens == old(opens)
      ensures if old(next) + |HeadBytes(major, arg)| + payload > dst.Length
              then r == Failure(DestinationTooSmall) && next == old(next) && dst[..] == old(dst[..])
              else
                && r == Success(()) && dst[..next] == old(dst[..next]) + HeadBytes(major, arg)
                && next + payload <= dst.Length
      ensures forall i :: next <= i < dst.Length ==> dst[i] == old(dst[i])
    {
      var tail := BigEndian(arg, Width(arg));
      if next + 1 + |tail| + payload > dst.Length {
        return Failure(DestinationTooSmall);
      }
      var first := Emit([MajorBits(major) * 32 + Info(arg)]);
      r := Emit(tail);
    }

    /** Settle the stack, then answer whether a value may come next: not at a key, and not after the whole item. */
    method OpenItem() returns (r: Result<(), CborError>)
      requires Valid()
      modifies this`opens
      ensures opens == SettleOpens(old(opens))
      ensures r == if AtKeyOpens(opens) then Failure(MisplacedKey)
                   else if opens == [] && next != 0 then Failure(TrailingItem) else Success(())
    {
      SettleNest();
      if opens != [] && ExpectsKey(Last(opens).kind, Last(opens).remaining) {
        return Failure(MisplacedKey);
      }
      if opens == [] && next != 0 {
        return Failure(TrailingItem);
      }
      return Success(());
    }

    method Array(len: usize) returns (r: Result<(), CborError>)
      requires Valid()
      modifies this, dst
      ensures Wrote(r, PutArray(len))
    {
      var admitted := OpenItem();
      if admitted.Failure? {
        return admitted;
      }
      if |opens| >= MAX_DEPTH {
        return Failure(DepthExceeded);
      }
      r := PutHead(ArrayOf, len, 0);
      if r.Success? {
        opens := CountedOpens(opens) + [Open(InArray, len, None, 0)];
      }
    }

    method Map(pairs: usize) returns (r: Result<(), CborError>)
      requires Valid()
      modifies this, dst
      ensures Wrote(r, PutMap(pairs))
    {
      var admitted := OpenItem();
      if admitted.Failure? {
        return admitted;
      }
      if |opens| >= MAX_DEPTH {
        return Failure(DepthExceeded);
      }
      var items := 2 * (pairs as int);
      if items > USIZE_MAX {
        return Failure(DestinationTooSmall);
      }
      r := PutHead(MapOf, pairs, 0);
      if r.Success? {
        opens := CountedOpens(opens) + [Open(InMap, items, None, 0)];
      }
    }

    /** A nonnegative key above the innermost map's last one, which it becomes even if there is no room for it. */
    method Key(key: i64) returns (r: Result<(), CborError>)
      requires Valid()
      modifies this, dst
      ensures Wrote(r, PutKey(key))
    {
      if key < 0 {
        return Failure(IntegerOutOfRange);
      }
      SettleNest();
      if opens == [] || !ExpectsKey(Last(opens).kind, Last(opens).remaining) {
        return Failure(MisplacedKey);
      }
      var rank, top := KeyRank(false, key), Last(opens);
      if top.lastKey.Some? && AtMost(rank, top.lastKey.value) {
        return Failure(KeysNotAscending);
      }
      opens := Front(opens) + [top.(lastKey := Some(rank))];
      r := PutHead(UnsignedInt, key, 0);
      if r.Success? {
        opens := CountedOpens(opens);
      }
    }

    method U64(number: u64) returns (r: Result<(), CborError>)
      requires Valid()
      modifies this, dst
      ensures Wrote(r, PutU64(number))
    {
      var admitted := OpenItem();
      if admitted.Failure? {
        return admitted;
      }
      r := PutHead(UnsignedInt, number, 0);
      if r.Success? {
        opens := CountedOpens(opens);
      }
    }

    method I32(integer: i32) returns (r: Result<(), CborError>)
      requires Valid()
      modifies this, dst
      ensures Wrote(r, PutI32(integer))
    {
      var admitted := OpenItem();
      if admitted.Failure? {
        return admitted;
      }
      var magnitude: nat := if integer < 0 then -(integer as int) else integer;
      if integer < 0 {
        r := PutHead(NegativeInt, magnitude - 1, 0);
      } else {
        r := PutHead(UnsignedInt, magnitude, 0);
      }
      if r.Success? {
        opens := CountedOpens(opens);
      }
    }

    method Bool(flag: bool) returns (r: Result<(), CborError>)
      requires Valid()
      modifies this, dst
      ensures Wrote(r, PutBool(flag))
    {
      var admitted := OpenItem();
      if admitted.Failure? {
        return admitted;
      }
      r := PutHead(Simple, if flag then 21 else 20, 0);
      if r.Success? {
        opens := CountedOpens(opens);
      }
    }

    method Bytes(raw: Slice) returns (r: Result<(), CborError>)
      requires Valid()
      modifies this, dst
      ensures Wrote(r, PutBytes(raw))
    {
      hide Emission, SettleOpens, Item, Zeros, Utf8, HeadBytes;
      StringEmission(State().out, ByteString, raw, PutBytes(raw));
      var admitted := OpenItem();
      if admitted.Failure? {
        return admitted;
      }
      r := PutHead(ByteString, |raw|, |raw|);
      if r.Failure? {
        return;
      }
      r := Emit(raw);
      if r.Success? {
        opens := CountedOpens(opens);
      }
    }

    method Text(text: Str) returns (r: Result<(), CborError>)
      requires Valid()
      modifies this, dst
      ensures Wrote(r, PutText(text))
    {
      hide Emission, SettleOpens, Item, Zeros, Utf8, HeadBytes;
      StringEmission(State().out, TextString, text, PutText(text));
      var admitted := OpenItem();
      if admitted.Failure? {
        return admitted;
      }
      if |text| > MAX_STRING {
        return Failure(StringTooLong);
      }
      r := PutHead(TextString, |text|, |text|);
      if r.Failure? {
        return;
      }
      r := Emit(text);
      opens := CountedOpens(opens);
    }

    /** A byte string of zeros, and where it sits, for the caller to fill later. */
    method BytesToFill(room: usize) returns (r: Result<(), CborError>, from: nat, to: nat)
      requires Valid()
      modifies this, dst
      ensures Wrote(r, PutZeros(room))
      ensures r.Success? ==> from <= to == next && to - from == room
    {
      hide Emission, SettleOpens, Item, Zeros, Utf8, HeadBytes;
      StringEmission(State().out, ByteString, Zeros(room), PutZeros(room));
      from, to := next, next;
      var admitted := OpenItem();
      if admitted.Failure? {
        r := admitted;
        return;
      }
      r := PutHead(ByteString, room, room);
      if r.Failure? {
        return;
      }
      from := next;
      r := Emit(Zeros(room));
      to := next;
      opens := CountedOpens(opens);
    }

    /** One item already encoded, walked first and counted as one. */
    method Raw(item: Slice) returns (r: Result<(), CborError>)
      requires Valid()
      modifies this, dst
      ensures Wrote(r, PutRaw(item))
    {
      var admitted := OpenItem();
      if admitted.Failure? {
        return admitted;
      }
      var walk := new CborReader(item, true);
      WalkOfItem(item);
      var walked := walk.Skip();
      if walked.Failure? {
        return walked;
      }
      var deepest := walk.deepest;
      assert deepest == walk.State().deepest;
      var finished := walk.Finish();
      if finished.Failure? {
        return finished;
      }
      if |opens| + deepest > MAX_DEPTH {
        return Failure(DepthExceeded);
      }
      r := Emit(item);
      if r.Success? {
        opens := CountedOpens(opens);
      }
    }

    /** Answers the bytes written when nothing is owed, and refuses otherwise. */
    method Finish() returns (r: Result<nat, CborError>)
      requires Valid()
      modifies this`opens
      ensures r == Close(old(State()))
    {
      SettleNest();
      if opens != [] {
        return Failure(Unfinished);
      }
      return Success(next);
    }
  }

  /** A fresh reader's walk of one item, and its verdict on what is left. */
  lemma WalkOfItem(item: seq<byte>)
    ensures var walk := Item(item, 0, MAX_DEPTH, true);
            && (walk.Failure? ==> SkipItem(item, START, true) == Failure(walk.error))
            && (walk.Success? ==> SkipItem(item, START, true) == Success(AfterItemAlone(walk.value)))
    ensures var walk := Item(item, 0, MAX_DEPTH, true);
            walk.Success? ==>
              Finished(item, AfterItemAlone(walk.value))
              == if walk.value.end < |item| then Failure(TrailingBytes) else Success(())
  {
    hide Item, DecodeHead;
    assert Settle([]) == [] && Counted([]) == [];
  }

  function AfterItemAlone(w: Walked): ReaderState { ReaderState(w.end, [], w.height, false, false) }
}
