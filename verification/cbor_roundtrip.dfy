/**
 The writer against the reader: whatever calls a writer accepted, refused ones
 among them, a finished message is one item, and reading it gives back what was
 written.
 */
module CborRoundTrip {
  import opened Bytes
  import opened Wrappers
  import opened Limits
  import opened CborHeads
  import opened CborGrammar
  import opened CborWalk
  import opened CborPairs
  import opened CborReaders
  import opened CborWriters

  // ---------------------------------------------------------------------------
  // Heads.

  lemma ArgumentBehindHead(b: seq<byte>, at: nat, m: Major, arg: u64)
    requires SameBytes(HeadBytes(m, arg), 0, |HeadBytes(m, arg)|, b, at)
    ensures at < |b| && MajorOf(b[at]) == m && b[at] % 32 == Info(arg)
    ensures Argument(b, at + 1, Info(arg)) == Success((arg, at + |HeadBytes(m, arg)|))
  {
    hide Argument;
    var bytes, tail := HeadBytes(m, arg), BigEndian(arg, Width(arg));
    assert b[at] == bytes[0];
    var pre, post := b[..at + 1], b[at + 1 + Width(arg)..];
    assert tail == bytes[1..];
    assert b == pre + tail + post;
    ArgumentWritten(pre, arg, post);
  }

  /** A head this writer may write: what it counts fits a length, and its text is text. */
  predicate Writable(h: Head) {
    match h
    case Bytes(raw) => |raw| <= USIZE_MAX
    case Text(raw) => |raw| <= MAX_STRING && Utf8(raw)
    case Array(count) => count <= USIZE_MAX
    case Map(pairs) => 2 * pairs <= USIZE_MAX
    case _ => true
  }

  /** Every head written is read back as itself, wherever it stands, given room for the items it counts. */
  lemma HeadReadsBack(b: seq<byte>, at: nat, h: Head)
    requires Writable(h)
    requires SameBytes(EncodeHead(h), 0, |EncodeHead(h)|, b, at)
    requires Owes(h).Some? ==> at + |EncodeHead(h)| + Owes(h).value.1 <= |b|
    ensures at <= |b| && DecodeHead(b, at) == Success((h, at + |EncodeHead(h)|))
  {
    hide Argument, HeadBytes, Utf8, Info, Width;
    match h
    case Unsigned(arg) => ArgumentBehindHead(b, at, UnsignedInt, arg);
    case Negative(arg) => ArgumentBehindHead(b, at, NegativeInt, arg);
    case Bytes(raw) => StringBehindHead(b, at, ByteString, raw);
    case Text(raw) => StringBehindHead(b, at, TextString, raw);
    case Array(count) => ArgumentBehindHead(b, at, ArrayOf, count);
    case Map(pairs) => ArgumentBehindHead(b, at, MapOf, pairs);
    case Bool(value) => BoolBehindHead(b, at, value);
  }

  lemma BoolBehindHead(b: seq<byte>, at: nat, value: bool)
    requires SameBytes(EncodeHead(Bool(value)), 0, |EncodeHead(Bool(value))|, b, at)
    ensures |EncodeHead(Bool(value))| == 1 && at < |b|
    ensures MajorOf(b[at]) == Simple && b[at] % 32 == if value then 21 else 20
  {
    hide Argument, HeadBytes;
    ArgumentBehindHead(b, at, Simple, if value then 21 else 20);
  }

  lemma StringBehindHead(b: seq<byte>, at: nat, m: Major, raw: seq<byte>)
    requires |raw| <= USIZE_MAX
    requires SameBytes(HeadBytes(m, |raw|) + raw, 0, |HeadBytes(m, |raw|)| + |raw|, b, at)
    ensures at < |b| && MajorOf(b[at]) == m && b[at] % 32 == Info(|raw|)
    ensures Argument(b, at + 1, Info(|raw|)) == Success((|raw|, at + |HeadBytes(m, |raw|)|))
    ensures Take(b, at + |HeadBytes(m, |raw|)|, |raw|) == Success((raw, at + |HeadBytes(m, |raw|)| + |raw|))
  {
    hide Argument, HeadBytes;
    var head := HeadBytes(m, |raw|);
    assert forall i :: 0 <= i < |head| ==> head[i] == (head + raw)[i];
    ArgumentBehindHead(b, at, m, |raw|);
    var from := at + |head|;
    forall i | 0 <= i < |raw| ensures b[from + i] == raw[i] {
      assert (head + raw)[|head| + i] == raw[i];
    }
    assert b[from..from + |raw|] == raw;
  }

  // ---------------------------------------------------------------------------
  // Calls, and reading them back.

  /** The writer after `calls`, and the calls it accepted. */
  function WriteAll(s: WriterState, capacity: nat, calls: seq<Call>): WriterState
    decreases |calls|
  {
    if calls == [] then s else WriteAll(Write(s, capacity, calls[0]).1, capacity, calls[1..])
  }

  function Accepted(s: WriterState, capacity: nat, calls: seq<Call>): seq<Call>
    decreases |calls|
  {
    if calls == [] then []
    else
      var (answer, after) := Write(s, capacity, calls[0]);
      (if answer.Success? then [calls[0]] else []) + Accepted(after, capacity, calls[1..])
  }

  /** The reader past a value read, when it is the value expected. */
  function IfSame<T(==)>(r: Result<(T, ReaderState), CborError>, value: T): Option<ReaderState> {
    if r.Success? && r.value.0 == value then Some(r.value.1) else None
  }

  /** The read that answers each call: the reader past it, and nothing if it refuses or gives another value. */
  function Returns(b: seq<byte>, r: ReaderState, call: Call): (after: Option<ReaderState>)
    requires Within(b, r)
    ensures after.Some? ==> Within(b, after.value)
  {
    match call
    case PutArray(len) => IfSame(ReadAs(b, r, AsArray), len)
    case PutMap(pairs) => IfSame(ReadAs(b, r, AsMap), pairs)
    case PutKey(key) => IfSame(ReadAs(b, r, AsKey), key)
    case PutU64(number) => IfSame(ReadNumber(b, r, 0xFFFF_FFFF_FFFF_FFFF), number)
    case PutI32(integer) => IfSame(ReadAs(b, r, AsI32), integer)
    case PutBool(flag) => IfSame(ReadAs(b, r, AsBool), flag)
    case PutBytes(raw) => IfSame(ReadAs(b, r, AsBytes), raw)
    case PutZeros(room) => IfSame(ReadAs(b, r, AsBytes), Zeros(room))
    case PutText(text) => IfSame(ReadAs(b, r, AsText), text)
    case PutRaw(item) =>
      match SkipItem(b, r, true)
      case Failure(_) => None
      case Success(after) => if b[r.next..after.next] == item then Some(after) else None
  }

  /** Every call read back in turn, and the reader satisfied at the end. */
  predicate ReadsBack(b: seq<byte>, r: ReaderState, calls: seq<Call>)
    requires Within(b, r)
    decreases |calls|
  {
    if calls == [] then Finished(b, r) == Success(())
    else
      var after := Returns(b, r, calls[0]);
      after.Some? && ReadsBack(b, after.value, calls[1..])
  }

  // ---------------------------------------------------------------------------
  // The writer's stack against the reader's.

  /** Every key a map has carried is one the writer would not write again. */
  predicate Below(seen: set<KeyRank>, lastKey: Option<KeyRank>) {
    forall key :: key in seen ==> lastKey.Some? && AtMost(key, lastKey.value)
  }

  predicate Matches(open: Open, frame: Frame) {
    open.kind == frame.kind && open.remaining == frame.remaining && Below(frame.seen, open.lastKey)
  }

  predicate Shape(opens: seq<Open>, frames: seq<Frame>) {
    |opens| == |frames| && forall i :: 0 <= i < |opens| ==> Matches(opens[i], frames[i])
  }

  /** A reader that has read exactly what a writer has written. */
  predicate Follows(s: WriterState, r: ReaderState) {
    && r.next == |s.out| && !r.unsettled && !r.skipped
    && |r.frames| <= r.deepest <= MAX_DEPTH
    && Shape(SettleOpens(s.opens), Settle(r.frames))
    && (s.out == [] ==> s.opens == [] && r.frames == [])
  }

  lemma {:induction false} SettleKeepsShape(opens: seq<Open>, frames: seq<Frame>)
    requires Shape(opens, frames)
    ensures Shape(SettleOpens(opens), Settle(frames))
    decreases |opens|
  {
    if opens != [] {
      assert Matches(Last(opens), Last(frames));
      if Last(opens).remaining == 0 { SettleKeepsShape(Front(opens), Front(frames)); }
    }
  }

  lemma TopMatches(opens: seq<Open>, frames: seq<Frame>)
    requires Shape(opens, frames)
    ensures opens == [] <==> frames == []
    ensures opens != [] ==> Matches(Last(opens), Last(frames))
    ensures AtKeyOpens(opens) == AtKey(frames)
  {
    if opens != [] { assert Matches(Last(opens), Last(frames)); }
  }

  lemma CountedKeepsShape(opens: seq<Open>, frames: seq<Frame>)
    requires Shape(opens, frames)
    ensures Shape(CountedOpens(opens), Counted(frames))
  {
    TopMatches(opens, frames);
  }

  lemma PushedKeepsShape(opens: seq<Open>, frames: seq<Frame>, kind: Nesting, items: nat)
    requires Shape(opens, frames)
    ensures Shape(opens + [Open(kind, items, None, 0)], frames + [Frame(kind, items, {})])
  {}

  /** A key above the last one has not been seen, and is above every key seen. */
  lemma KeyTakenKeepsShape(opens: seq<Open>, frames: seq<Frame>, key: KeyRank)
    requires Shape(opens, frames) && opens != []
    requires Last(opens).lastKey.None? || !AtMost(key, Last(opens).lastKey.value)
    ensures key !in Last(frames).seen
    ensures Shape(Front(opens) + [Last(opens).(lastKey := Some(key))], frames)
    ensures Shape(Front(opens) + [Last(opens).(lastKey := Some(key))], WithKey(frames, key))
  {
    TopMatches(opens, frames);
  }

  /** A refusal leaves the reader where it was, whatever the stack did before refusing. */
  lemma RefusedFollows(s: WriterState, capacity: nat, call: Call, r: ReaderState)
    requires Follows(s, r) && Write(s, capacity, call).0.Failure?
    ensures Write(s, capacity, call).1.out == s.out
    ensures Follows(Write(s, capacity, call).1, r)
  {
    hide Emission, Settle, RawRefusal, Shape;
    if !(call.PutKey? && call.key < 0) {
      var settled := s.(opens := SettleOpens(s.opens));
      if Refusal(settled, call).None? && call.PutKey? {
        KeyTakenKeepsShape(settled.opens, Settle(r.frames), KeyRank(false, call.key));
      }
    }
  }

  // ---------------------------------------------------------------------------
  // One accepted call.

  /** The reader once it has read what an accepted call wrote. */
  function Past(s: WriterState, call: Call, r: ReaderState): ReaderState
    requires call.PutKey? ==> call.key >= 0
  {
    var frames, next := Settle(r.frames), |s.out| + |Emission(call)|;
    if call.PutRaw? then
      var w := Item(call.item, 0, MAX_DEPTH, true);
      var height := if w.Success? then w.value.height else 0;
      ReaderState(next, Settle(Counted(frames)), Max(r.deepest, Above(|frames|, height)), false, false)
    else
      var after := AfterHead(frames, MAX_DEPTH, HeadOf(call));
      if after.Failure? then r else ReaderState(next, after.value, Max(r.deepest, |after.value|), false, false)
  }

  predicate Takes(s: WriterState, capacity: nat, call: Call) { Write(s, capacity, call).0.Success? }

  /** What an accepted call says of the stack it was written on. */
  lemma TakenFacts(s: WriterState, capacity: nat, call: Call)
    requires Takes(s, capacity, call)
    ensures call.PutKey? ==> call.key >= 0
    ensures var opens := SettleOpens(s.opens);
            && Refusal(s.(opens := opens), call).None?
            && Write(s, capacity, call).1 == WriterState(s.out + Emission(call), Entered(TakenKey(opens, call), call))
            && AtKeyOpens(opens) == call.PutKey?
            && (s.out != [] ==> opens != [])
            && (call.PutArray? || call.PutMap? ==> |opens| < MAX_DEPTH)
            && (call.PutRaw? ==> RawRefusal(opens, call.item).None?)
            && (call.PutKey? && Last(opens).lastKey.Some?
                ==> !AtMost(KeyRank(false, call.key), Last(opens).lastKey.value))
            && (!call.PutRaw? ==> Writable(HeadOf(call)))
  {
    hide Item, Emission, Utf8;
  }

  lemma EmissionNonempty(s: WriterState, capacity: nat, call: Call)
    requires Takes(s, capacity, call)
    ensures |Emission(call)| >= 1
  {
    hide Item, EncodeHead;
    TakenFacts(s, capacity, call);
  }

  /** The head of an accepted call, entered in the reader's stack: no refusal, no repeat, the same shape after. */
  lemma HeadEnters(s: WriterState, capacity: nat, call: Call, frames: seq<Frame>)
    requires Takes(s, capacity, call) && !call.PutRaw?
    requires Shape(SettleOpens(s.opens), frames)
    ensures var after := AfterHead(frames, MAX_DEPTH, HeadOf(call));
            && after.Success? && Shape(Write(s, capacity, call).1.opens, after.value)
            && (Owes(HeadOf(call)).Some? && !AtKey(frames) ==>
                  after.value != [] && Last(after.value).remaining == Owes(HeadOf(call)).value.1)
    ensures AtKey(frames) ==> KeyOf(HeadOf(call)).Success?
    ensures !Repeats(frames, HeadOf(call)) && (AtKey(frames) <==> call.PutKey?)
  {
    hide Shape, SettleOpens, Counted, CountedOpens, WithKey, Emission, Zeros;
    TakenFacts(s, capacity, call);
    var opens, head := SettleOpens(s.opens), HeadOf(call);
    TopMatches(opens, frames);
    if call.PutKey? {
      var key := KeyRank(false, call.key);
      KeyTakenKeepsShape(opens, frames, key);
      CountedKeepsShape(TakenKey(opens, call), WithKey(frames, key));
    } else {
      CountedKeepsShape(opens, frames);
      if Owes(head).Some? {
        var (kind, items) := Owes(head).value;
        ShapeLength(opens, frames);
        PushedKeepsShape(CountedOpens(opens), Counted(frames), kind, items);
      }
    }
  }

  lemma ShapeLength(opens: seq<Open>, frames: seq<Frame>)
    requires Shape(opens, frames)
    ensures |opens| == |frames|
  {}

  lemma AcceptedFollows(s: WriterState, capacity: nat, call: Call, r: ReaderState)
    requires Follows(s, r) && Takes(s, capacity, call)
    ensures call.PutKey? ==> call.key >= 0
    ensures Follows(Write(s, capacity, call).1, Past(s, call, r))
    ensures Write(s, capacity, call).1.out == s.out + Emission(call) != []
  {
    hide Shape, Settle, SettleOpens, Counted, CountedOpens, Emission, AfterHead, Refusal, Write;
    TakenFacts(s, capacity, call);
    EmissionNonempty(s, capacity, call);
    var opens, frames := SettleOpens(s.opens), Settle(r.frames);
    var after := Write(s, capacity, call).1;
    ShapeLength(opens, frames);
    if call.PutRaw? {
      CountedKeepsShape(opens, frames);
      SettleKeepsShape(CountedOpens(opens), Counted(frames));
      SettledTwice(Counted(frames));
    } else {
      HeadEnters(s, capacity, call, frames);
      SettleKeepsShape(after.opens, AfterHead(frames, MAX_DEPTH, HeadOf(call)).value);
    }
  }

  /** Everything still owed after the reader reads on from here, and nothing after that. */
  predicate ReadsOut(b: seq<byte>, s: WriterState, r: ReaderState) {
    && r.next <= |b| && |r.frames| <= MAX_DEPTH
    && var left := if s.out == [] then Item(b, 0, MAX_DEPTH, true) else Rest(b, r.next, r.frames, MAX_DEPTH, true);
       left.Success? && left.value.end == |b|
  }

  // ---------------------------------------------------------------------------
  // Reading an accepted call back, given that what follows it reads on.

  lemma RoomForOwed(b: seq<byte>, at: nat, frames: seq<Frame>, room: nat)
    requires at <= |b| && frames != [] && |frames| <= room && Rest(b, at, frames, room, true).Success?
    ensures at + Last(frames).remaining <= |b|
  {
    hide Owed, Item;
  }

  /** The bytes a call emitted stand in every message that starts as the writer's does. */
  lemma EmittedAt(b: seq<byte>, out: seq<byte>, emitted: seq<byte>)
    requires |out| + |emitted| <= |b| && b[..|out| + |emitted|] == out + emitted
    ensures SameBytes(emitted, 0, |emitted|, b, |out|) && b[|out|..|out| + |emitted|] == emitted
    ensures b[..|out|] == out
  {
    forall i | 0 <= i < |emitted| ensures b[|out| + i] == emitted[i] {
      assert b[..|out| + |emitted|][|out| + i] == (out + emitted)[|out| + i];
    }
    assert b[..|out|] == b[..|out| + |emitted|][..|out|] == (out + emitted)[..|out|];
  }

  /** The head a call wrote decodes as itself where it stands. */
  lemma HeadStands(s: WriterState, capacity: nat, call: Call, r: ReaderState, b: seq<byte>)
    requires Follows(s, r) && Takes(s, capacity, call) && !call.PutRaw?
    requires var after := Write(s, capacity, call).1;
             |after.out| <= |b| && b[..|after.out|] == after.out && ReadsOut(b, after, Past(s, call, r))
    ensures DecodeHead(b, r.next) == Success((HeadOf(call), |Write(s, capacity, call).1.out|))
    ensures ReadHead(b, r, true, false) == Success((HeadOf(call), Past(s, call, r)))
  {
    hide *;
    TakenFacts(s, capacity, call);
    AcceptedFollows(s, capacity, call, r);
    var frames, head, past := Settle(r.frames), HeadOf(call), Past(s, call, r);
    FollowsFrom(s, r, b);
    HeadEnters(s, capacity, call, frames);
    EmittedAt(b, s.out, Emission(call));
    EmissionOf(call);
    PastHead(s, call, r);
    if Owes(head).Some? {
      HeadKind(call);
      CompletesRest(b, Write(s, capacity, call).1, past);
      RoomForOwed(b, past.next, past.frames, MAX_DEPTH);
    }
    HeadReadsBack(b, r.next, head);
    ReadsOn(b, r, head, past);
  }

  lemma EmissionOf(call: Call)
    requires !call.PutRaw? && (call.PutKey? ==> call.key >= 0)
    ensures Emission(call) == EncodeHead(HeadOf(call))
  {}

  lemma PastHead(s: WriterState, call: Call, r: ReaderState)
    requires !call.PutRaw? && (call.PutKey? ==> call.key >= 0)
    requires AfterHead(Settle(r.frames), MAX_DEPTH, HeadOf(call)).Success?
    ensures var after := AfterHead(Settle(r.frames), MAX_DEPTH, HeadOf(call)).value;
            Past(s, call, r) == ReaderState(|s.out| + |Emission(call)|, after, Max(r.deepest, |after|), false, false)
  {}

  lemma CompletesRest(b: seq<byte>, s: WriterState, r: ReaderState)
    requires ReadsOut(b, s, r) && s.out != []
    ensures r.next <= |b| && |r.frames| <= MAX_DEPTH && Rest(b, r.next, r.frames, MAX_DEPTH, true).Success?
  {}

  /** A head decoded where the reader stands, with nothing against it, is read. */
  lemma ReadsOn(b: seq<byte>, r: ReaderState, head: Head, past: ReaderState)
    requires Within(b, r) && !r.skipped && DecodeHead(b, r.next) == Success((head, past.next))
    requires var frames := Settle(r.frames);
             && (AtKey(frames) ==> KeyOf(head).Success?) && !Repeats(frames, head)
             && AfterHead(frames, MAX_DEPTH, head) == Success(past.frames)
    requires past == ReaderState(past.next, past.frames, Max(r.deepest, |past.frames|), false, false)
    ensures ReadHead(b, r, true, false) == Success((head, past))
  {
    hide DecodeHead, AfterHead, Repeats, AtKey, Settle;
  }

  lemma HeadKind(call: Call)
    requires !call.PutRaw? && (call.PutKey? ==> call.key >= 0)
    ensures Owes(HeadOf(call)).Some? <==> call.PutArray? || call.PutMap?
  {
    hide Zeros;
  }

  lemma HeadCompletes(s: WriterState, capacity: nat, call: Call, r: ReaderState, b: seq<byte>)
    requires Follows(s, r) && Takes(s, capacity, call) && !call.PutRaw?
    requires var after := Write(s, capacity, call).1;
             |after.out| <= |b| && b[..|after.out|] == after.out && ReadsOut(b, after, Past(s, call, r))
    ensures ReadsOut(b, s, r)
  {
    hide DecodeHead, Shape, SettleOpens, Write, Refusal, Rest, Item, Emission, HeadOf, AfterHead, Settle, AtKey,
         Repeats;
    TakenFacts(s, capacity, call);
    AcceptedFollows(s, capacity, call, r);
    HeadStands(s, capacity, call, r, b);
    var frames := Settle(r.frames);
    HeadEnters(s, capacity, call, frames);
    if s.out == [] {
      ItemStep(b, 0, MAX_DEPTH, true);
    } else {
      RestSettled(b, r.next, r.frames, MAX_DEPTH, true);
      ShapeLength(SettleOpens(s.opens), frames);
      RestStep(b, r.next, frames, MAX_DEPTH, true);
    }
  }

  /** A whole item off what the innermost container owes. */
  lemma RestItem(b: seq<byte>, at: nat, frames: seq<Frame>, room: nat)
    requires at <= |b| && |frames| <= room && frames != [] && !AtKey(frames) && Last(frames).remaining > 0
    requires Item(b, at, room - |frames|, true).Success?
    ensures var w := Item(b, at, room - |frames|, true).value;
            var rest := Rest(b, w.end, Counted(frames), room, true);
            rest.Success?
            ==> Rest(b, at, frames, room, true).Success? && Rest(b, at, frames, room, true).value.end == rest.value.end
  {
    hide Item, Owed, Rest, DecodeHead;
    var below, top := Front(frames), Last(frames);
    assert frames == below + [top];
    var counted := top.(remaining := top.remaining - 1);
    var end := Item(b, at, room - |frames|, true).value.end;
    OwedItemStep(b, at, top.kind, top.remaining, top.seen, room - |frames|, true);
    RestTop(b, at, below, top, room, true);
    RestTop(b, end, below, counted, room, true);
  }

  lemma RawFacts(s: WriterState, capacity: nat, item: Slice)
    requires Takes(s, capacity, PutRaw(item))
    ensures var opens, walk := SettleOpens(s.opens), Item(item, 0, MAX_DEPTH, true);
            && !AtKeyOpens(opens) && walk.Success? && walk.value.end == |item|
               && |opens| + walk.value.height <= MAX_DEPTH
    ensures Emission(PutRaw(item)) == item
  {
    hide Item;
    TakenFacts(s, capacity, PutRaw(item));
  }

  /** An item copied in is the same item where it stands, at the depth it stands at. */
  lemma RawStands(s: WriterState, capacity: nat, item: Slice, r: ReaderState, b: seq<byte>)
    requires Follows(s, r) && Takes(s, capacity, PutRaw(item))
    requires |s.out| <= |b| && SameBytes(item, 0, |item|, b, |s.out|)
    ensures !AtKey(Settle(r.frames)) && r.next == |s.out|
    ensures Item(item, 0, MAX_DEPTH, true).Success?
    ensures Item(b, r.next, MAX_DEPTH - |Settle(r.frames)|, true)
         == Success(Walked(r.next + |item|, Item(item, 0, MAX_DEPTH, true).value.height))
  {
    hide *;
    RawFacts(s, capacity, item);
    FollowsFrom(s, r, b);
    var opens, frames := SettleOpens(s.opens), Settle(r.frames);
    TopMatches(opens, frames);
    ShapeLength(opens, frames);
    ItemElsewhere(item, MAX_DEPTH - |frames|, b, r.next);
  }

  lemma ItemElsewhere(item: seq<byte>, room: nat, b: seq<byte>, at: nat)
    requires Item(item, 0, MAX_DEPTH, true).Success? && Item(item, 0, MAX_DEPTH, true).value.end == |item|
    requires Item(item, 0, MAX_DEPTH, true).value.height <= room
    requires SameBytes(item, 0, |item|, b, at)
    ensures at <= |b|
            && Item(b, at, room, true) == Success(Walked(at + |item|, Item(item, 0, MAX_DEPTH, true).value.height))
  {
    hide Item;
    ItemRoom(item, 0, MAX_DEPTH, room, true);
    ItemLocal(item, 0, room, true, b, at);
  }

  lemma RawCompletes(s: WriterState, capacity: nat, item: Slice, r: ReaderState, b: seq<byte>)
    requires Follows(s, r) && Takes(s, capacity, PutRaw(item))
    requires var after := Write(s, capacity, PutRaw(item)).1;
             |after.out| <= |b| && b[..|after.out|] == after.out && ReadsOut(b, after, Past(s, PutRaw(item), r))
    ensures ReadsOut(b, s, r)
    ensures SkipItem(b, r, true) == Success(Past(s, PutRaw(item), r))
  {
    hide Item, Write, Refusal, Shape, SettleOpens, Settle, Rest, Counted, AtKey;
    TakenFacts(s, capacity, PutRaw(item));
    AcceptedFollows(s, capacity, PutRaw(item), r);
    EmittedAt(b, s.out, item);
    RawStands(s, capacity, item, r, b);
    var frames, end := Settle(r.frames), r.next + |item|;
    ShapeLength(SettleOpens(s.opens), frames);
    RestSettled(b, end, Counted(frames), MAX_DEPTH, true);
    if s.out == [] {
      assert Counted([]) == [];
      NothingOwed(b, end, MAX_DEPTH, true);
    } else {
      RestSettled(b, r.next, r.frames, MAX_DEPTH, true);
      RestItem(b, r.next, frames, MAX_DEPTH);
    }
  }

  lemma RawReturns(s: WriterState, capacity: nat, call: Call, r: ReaderState, b: seq<byte>)
    requires Follows(s, r) && Takes(s, capacity, call) && call.PutRaw?
    requires var after := Write(s, capacity, call).1;
             |after.out| <= |b| && b[..|after.out|] == after.out && ReadsOut(b, after, Past(s, call, r))
    ensures ReadsOut(b, s, r) && Within(b, r)
    ensures Returns(b, r, call) == Some(Past(s, call, r))
  {
    hide Write, Refusal, Follows, ReadHead, Past, SkipItem, ReadsOut, Takes, HeadOf, ReadAs, Item, Settle, Shape, AtKey,
         DecodeHead, EncodeHead, SettleOpens, Entered, TakenKey, RawRefusal, ReadNumber, Zeros, Utf8;
    TakenFacts(s, capacity, call);
    AcceptedFollows(s, capacity, call, r);
    FollowsFrom(s, r, b);
    RawCompletes(s, capacity, call.item, r, b);
    EmittedAt(b, s.out, call.item);
    PastRaw(s, call.item, r);
  }

  lemma HeadedReturns(s: WriterState, capacity: nat, call: Call, r: ReaderState, b: seq<byte>)
    requires Follows(s, r) && Takes(s, capacity, call) && !call.PutRaw?
    requires var after := Write(s, capacity, call).1;
             |after.out| <= |b| && b[..|after.out|] == after.out && ReadsOut(b, after, Past(s, call, r))
    ensures ReadsOut(b, s, r) && Within(b, r)
    ensures Returns(b, r, call) == Some(Past(s, call, r))
  {
    hide Write, Refusal, Follows, ReadHead, Past, SkipItem, ReadsOut, Takes, HeadOf, ReadAs, Item, Settle, Shape, AtKey;
    TakenFacts(s, capacity, call);
    AcceptedFollows(s, capacity, call, r);
    FollowsFrom(s, r, b);
    HeadStands(s, capacity, call, r, b);
    HeadCompletes(s, capacity, call, r, b);
    HeadReturns(b, r, call, Past(s, call, r));
  }

  /** What an accepted call wrote is what the read that answers it returns. */
  lemma CallReturns(s: WriterState, capacity: nat, call: Call, r: ReaderState, b: seq<byte>)
    requires Follows(s, r) && Takes(s, capacity, call)
    requires var after := Write(s, capacity, call).1;
             |after.out| <= |b| && b[..|after.out|] == after.out && ReadsOut(b, after, Past(s, call, r))
    ensures ReadsOut(b, s, r) && Within(b, r)
    ensures Returns(b, r, call) == Some(Past(s, call, r))
  {
    hide Write, Follows, Past, ReadsOut, Takes;
    if call.PutRaw? { RawReturns(s, capacity, call, r, b); } else { HeadedReturns(s, capacity, call, r, b); }
  }

  /** Each head is the one its own typed read accepts, with the value written. */
  lemma HeadReturns(b: seq<byte>, r: ReaderState, call: Call, after: ReaderState)
    requires Within(b, r) && !call.PutRaw? && (call.PutKey? ==> call.key >= 0)
    requires ReadHead(b, r, true, false) == Success((HeadOf(call), after))
    ensures Returns(b, r, call) == Some(after)
  {
    hide ReadHead, Zeros;
  }

  lemma FollowsFrom(s: WriterState, r: ReaderState, b: seq<byte>)
    requires Follows(s, r) && |s.out| <= |b|
    ensures Within(b, r) && r.next == |s.out| && |r.frames| <= MAX_DEPTH && !r.skipped
    ensures Shape(SettleOpens(s.opens), Settle(r.frames))
  {}

  lemma PastRaw(s: WriterState, item: Slice, r: ReaderState)
    ensures Past(s, PutRaw(item), r).next == |s.out| + |item|
  {}

  // ---------------------------------------------------------------------------
  // Whole runs.

  /** Run backwards from a finished message: every suffix of the calls reads on to the end. */
  lemma {:induction false} RunReadsBack(s: WriterState, capacity: nat, calls: seq<Call>, r: ReaderState, b: seq<byte>)
    requires Follows(s, r)
    requires var last := WriteAll(s, capacity, calls); b == last.out != [] && Close(last).Success?
    ensures |s.out| <= |b| && b[..|s.out|] == s.out
    ensures ReadsOut(b, s, r) && Within(b, r)
    ensures ReadsBack(b, r, Accepted(s, capacity, calls))
    decreases |calls|
  {
    hide Write, Follows, ReadsOut, Returns, Past;
    if calls == [] {
      FinishReads(s, r);
    } else {
      var call, after := calls[0], Write(s, capacity, calls[0]).1;
      if Takes(s, capacity, call) {
        AcceptedFollows(s, capacity, call, r);
        RunReadsBack(after, capacity, calls[1..], Past(s, call, r), b);
        CallReturns(s, capacity, call, r, b);
        EmittedAt(b, s.out, Emission(call));
        assert Accepted(s, capacity, calls)[1..] == Accepted(after, capacity, calls[1..]);
      } else {
        RefusedFollows(s, capacity, call, r);
        RunReadsBack(after, capacity, calls[1..], r, b);
        RefusalCompletes(s, after, r, b);
        assert Accepted(s, capacity, calls) == Accepted(after, capacity, calls[1..]);
      }
    }
  }

  lemma RefusalCompletes(s: WriterState, after: WriterState, r: ReaderState, b: seq<byte>)
    requires after.out == s.out && ReadsOut(b, after, r)
    ensures ReadsOut(b, s, r)
  {}

  /** A writer that finishes has nothing open, and the reader that followed it has nothing left to read. */
  lemma FinishReads(s: WriterState, r: ReaderState)
    requires Follows(s, r) && Close(s).Success? && s.out != []
    ensures ReadsOut(s.out, s, r) && Within(s.out, r) && Finished(s.out, r) == Success(())
  {
    hide Settle, SettleOpens;
    ShapeLength(SettleOpens(s.opens), Settle(r.frames));
    RestSettled(s.out, r.next, r.frames, MAX_DEPTH, true);
    NothingOwed(s.out, r.next, MAX_DEPTH, true);
  }

  /**
   Whatever a writer is asked, and whatever it refuses on the way: once something
   is written and `finish` passes, the bytes are exactly one item a reader walks
   and finishes, and the typed reads give back every value accepted, in order.
   */
  lemma WrittenReadsBack(capacity: nat, calls: seq<Call>)
    requires var last := WriteAll(EMPTY, capacity, calls); Close(last).Success? && last.out != []
    ensures var b := WriteAll(EMPTY, capacity, calls).out;
            && Item(b, 0, MAX_DEPTH, true).Success?
            && var walked := AfterItemAlone(Item(b, 0, MAX_DEPTH, true).value);
               SkipItem(b, START, true) == Success(walked) && Finished(b, walked) == Success(())
    ensures ReadsBack(WriteAll(EMPTY, capacity, calls).out, START, Accepted(EMPTY, capacity, calls))
  {
    hide Write, SkipItem, Finished, Item;
    var b := WriteAll(EMPTY, capacity, calls).out;
    RunReadsBack(EMPTY, capacity, calls, START, b);
    WalkOfItem(b);
  }

  function Emitted(calls: seq<Call>): seq<byte>
    requires forall c :: c in calls && c.PutKey? ==> c.key >= 0
  {
    if calls == [] then [] else Emission(calls[0]) + Emitted(calls[1..])
  }

  /** A refused call adds no byte, and the buffer is never outgrown: the message is what the accepted calls emit. */
  lemma {:induction false} OnlyAcceptedCallsWrite(s: WriterState, capacity: nat, calls: seq<Call>)
    requires |s.out| <= capacity
    ensures forall c :: c in Accepted(s, capacity, calls) && c.PutKey? ==> c.key >= 0
    ensures WriteAll(s, capacity, calls).out == s.out + Emitted(Accepted(s, capacity, calls))
    ensures |WriteAll(s, capacity, calls).out| <= capacity
    decreases |calls|
  {
    hide Write, Emission;
    if calls != [] {
      var call, after, rest := calls[0], Write(s, capacity, calls[0]).1, calls[1..];
      CallAdds(s, capacity, call);
      OnlyAcceptedCallsWrite(after, capacity, rest);
      var accepted := Accepted(s, capacity, calls);
      if Write(s, capacity, call).0.Success? {
        assert accepted[0] == call && accepted[1..] == Accepted(after, capacity, rest);
        assert s.out + Emission(call) + Emitted(accepted[1..]) == s.out + (Emission(call) + Emitted(accepted[1..]));
      } else {
        assert accepted == Accepted(after, capacity, rest);
      }
    }
  }

  lemma CallAdds(s: WriterState, capacity: nat, call: Call)
    requires |s.out| <= capacity
    ensures var (answer, after) := Write(s, capacity, call);
            && |after.out| <= capacity
            && (answer.Failure? ==> after.out == s.out)
            && (answer.Success? ==> (call.PutKey? ==> call.key >= 0) && after.out == s.out + Emission(call))
  {
    hide Emission, Refusal, SettleOpens;
  }

  // ---------------------------------------------------------------------------
  // Shortest form.

  lemma {:induction false} BigEndianBack(bytes: seq<byte>)
    ensures BigEndian(FromBigEndian(bytes), |bytes|) == bytes
  {
    if bytes != [] {
      BigEndianBack(bytes[..|bytes| - 1]);
      assert bytes == bytes[..|bytes| - 1] + [bytes[|bytes| - 1]];
    }
  }

  /** A head whose argument stands in the writer's width announces it as the writer does. */
  lemma SameWidthInfo(b: seq<byte>, at: nat, info: nat, arg: u64)
    requires at <= |b| && info < 32 && Argument(b, at, info) == Success((arg, at + Width(arg)))
    ensures info == Info(arg)
  {
    hide FromBigEndian;
  }

  lemma HeadByte(first: byte)
    ensures first == MajorBits(MajorOf(first)) * 32 + first % 32
  {}

  lemma TailSpells(b: seq<byte>, at: nat, info: nat, arg: u64)
    requires at <= |b| && info < 32 && Argument(b, at, info) == Success((arg, at + Width(arg)))
    ensures at + Width(arg) <= |b| && b[at..at + Width(arg)] == BigEndian(arg, Width(arg))
  {
    hide FromBigEndian;
    if Width(arg) > 0 {
      BigEndianBack(b[at..at + Width(arg)]);
    }
  }

  lemma ShortestArgument(b: seq<byte>, at: nat, m: Major, arg: u64, from: nat)
    requires at < |b| && MajorOf(b[at]) == m
    requires Argument(b, at + 1, b[at] % 32) == Success((arg, from))
    ensures from <= |b| && |HeadBytes(m, arg)| <= from - at
    ensures from - at == |HeadBytes(m, arg)| ==> b[at..from] == HeadBytes(m, arg)
  {
    hide Argument, MajorOf, MajorBits, BigEndian, FromBigEndian;
    var info := b[at] % 32;
    ShortestForm(b, at + 1, info);
    if from - at == |HeadBytes(m, arg)| {
      SameWidthInfo(b, at + 1, info, arg);
      HeadByte(b[at]);
      TailSpells(b, at + 1, info, arg);
      assert b[at..from] == [b[at]] + b[at + 1..from];
    }
  }

  /**
   What the writer emits for a head is the one shortest encoding of it: whatever
   bytes decode to that head are longer, or the same bytes (section 4.2.1 of RFC 8949).
   */
  lemma ShortestHead(b: seq<byte>, at: nat, h: Head)
    requires at <= |b| && DecodeHead(b, at).Success? && DecodeHead(b, at).value.0 == h
    ensures (h.Array? ==> h.count <= USIZE_MAX) && (h.Map? ==> h.pairs <= USIZE_MAX)
    ensures (h.Bytes? || h.Text?) ==> |h.raw| <= USIZE_MAX
    ensures var end := DecodeHead(b, at).value.1;
            |EncodeHead(h)| <= end - at && (|EncodeHead(h)| == end - at ==> b[at..end] == EncodeHead(h))
  {
    hide Argument, Utf8, HeadBytes, Width, WidthOf, Info;
    var end := DecodeHead(b, at).value.1;
    var m := MajorOf(b[at]);
    if m == Simple {
      ShortestBool(b, at, h.value);
    } else {
      var (arg, from) := Argument(b, at + 1, b[at] % 32).value;
      ShortestArgument(b, at, m, arg, from);
      assert b[at..end] == b[at..from] + b[from..end];
    }
  }

  lemma ShortestBool(b: seq<byte>, at: nat, value: bool)
    requires at < |b| && MajorOf(b[at]) == Simple && b[at] % 32 == if value then 21 else 20
    ensures HeadBytes(Simple, if value then 21 else 20) == [b[at]] == b[at..at + 1]
  {
    assert BigEndian(if value then 21 else 20, 0) == [];
  }

  // ---------------------------------------------------------------------------
  // Reading back a call at a time.

  /** The reads still to come give back `calls`. */
  predicate Due(b: seq<byte>, s: ReaderState, calls: seq<Call>) { Within(b, s) && ReadsBack(b, s, calls) }

  lemma DueNext(b: seq<byte>, s: ReaderState, call: Call, rest: seq<Call>) returns (after: ReaderState)
    requires Due(b, s, [call] + rest)
    ensures Returns(b, s, call) == Some(after) && Due(b, after, rest)
  {
    hide Returns;
    after := Returns(b, s, call).value;
    assert ([call] + rest)[0] == call && ([call] + rest)[1..] == rest;
  }

  lemma NumberDue(b: seq<byte>, s: ReaderState, n: u64, max: nat, rest: seq<Call>) returns (after: ReaderState)
    requires Due(b, s, [PutU64(n)] + rest) && n <= max
    ensures Within(b, s) && ReadNumber(b, s, max) == Success((n as nat, after)) && Due(b, after, rest)
  {
    hide ReadsBack, ReadHead;
    after := DueNext(b, s, PutU64(n), rest);
  }

  lemma KeyDue(b: seq<byte>, s: ReaderState, key: nat, rest: seq<Call>) returns (after: ReaderState)
    requires key <= I64_MAX && Due(b, s, [PutKey(key)] + rest)
    ensures Within(b, s) && ReadAs(b, s, AsKey) == Success((key as int, after)) && Due(b, after, rest)
  {
    hide ReadsBack, ReadAs;
    after := DueNext(b, s, PutKey(key), rest);
  }

  lemma MapDue(b: seq<byte>, s: ReaderState, pairs: usize, rest: seq<Call>) returns (after: ReaderState)
    requires Due(b, s, [PutMap(pairs)] + rest)
    ensures Within(b, s) && ReadAs(b, s, AsMap) == Success((pairs as nat, after)) && Due(b, after, rest)
  {
    hide ReadsBack, ReadAs;
    after := DueNext(b, s, PutMap(pairs), rest);
  }

  lemma ArrayDue(b: seq<byte>, s: ReaderState, len: usize, rest: seq<Call>) returns (after: ReaderState)
    requires Due(b, s, [PutArray(len)] + rest)
    ensures Within(b, s) && ReadAs(b, s, AsArray) == Success((len as nat, after)) && Due(b, after, rest)
  {
    hide ReadsBack, ReadAs;
    after := DueNext(b, s, PutArray(len), rest);
  }

  lemma RawDue(b: seq<byte>, s: ReaderState, item: Slice, rest: seq<Call>) returns (after: ReaderState)
    requires Due(b, s, [PutRaw(item)] + rest)
    ensures Within(b, s) && SkipItem(b, s, true) == Success(after) && Due(b, after, rest)
    ensures s.next <= after.next <= |b| && b[s.next..after.next] == item
  {
    hide ReadsBack, SkipItem;
    after := DueNext(b, s, PutRaw(item), rest);
  }

  lemma BoolDue(b: seq<byte>, s: ReaderState, flag: bool, rest: seq<Call>) returns (after: ReaderState)
    requires Due(b, s, [PutBool(flag)] + rest)
    ensures Within(b, s) && ReadAs(b, s, AsBool) == Success((flag, after)) && Due(b, after, rest)
  {
    hide ReadsBack, ReadAs;
    after := DueNext(b, s, PutBool(flag), rest);
  }

  lemma BytesDue(b: seq<byte>, s: ReaderState, raw: Slice, rest: seq<Call>) returns (after: ReaderState)
    requires Due(b, s, [PutBytes(raw)] + rest)
    ensures Within(b, s) && ReadAs(b, s, AsBytes) == Success((raw, after)) && Due(b, after, rest)
  {
    hide ReadsBack, ReadAs;
    after := DueNext(b, s, PutBytes(raw), rest);
  }
}
