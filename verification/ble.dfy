/**
 BLE value fragmentation: a sender that owns one message until its last fragment
 is admitted, and a receiver that delivers whole messages or nothing.
 */
module Ble {
  import opened Bytes
  import opened Wrappers
  import opened Limits

  datatype BleError = Mtu | ValueLimit | Length | Sequence | Busy | Buffer | Idle

  /** A negotiated MTU, and a selected value length within the attribute bound. */
  type BleMtu = m: nat | BLE_MIN_MTU <= m <= BLE_MAX_MTU witness 23

  type BleValueLimit = l: nat | BLE_MIN_MTU - 3 <= l <= BLE_MAX_VALUE witness 20

  function NewMtu(mtu: nat): Result<BleMtu, BleError> {
    if BLE_MIN_MTU <= mtu <= BLE_MAX_MTU then Success(mtu) else Failure(Mtu)
  }

  function ValueLen(mtu: BleMtu): (len: BleValueLimit) {
    if mtu - 3 < BLE_MAX_VALUE then mtu - 3 else BLE_MAX_VALUE
  }

  function NewLimit(valueLen: nat): Result<BleValueLimit, BleError> {
    if BLE_MIN_MTU - 3 <= valueLen <= BLE_MAX_VALUE then Success(valueLen) else Failure(ValueLimit)
  }

  function Select(mtu: BleMtu, valueLen: nat): Result<BleValueLimit, BleError> {
    if valueLen > ValueLen(mtu) then Failure(ValueLimit) else NewLimit(valueLen)
  }

  /** The fragment bytes a limit leaves for data, and the fewest any limit does. */
  function Chunk(limit: BleValueLimit): nat { limit - 2 }

  const MIN_CHUNK: nat := 18

  // ---------------------------------------------------------------------------
  // What one message looks like on the air.

  function ChunkEnd(message: seq<byte>, limit: BleValueLimit, offset: nat): (end: nat)
    requires offset < |message|
    ensures offset < end <= |message|
  {
    if offset + Chunk(limit) < |message| then offset + Chunk(limit) else |message|
  }

  /** A message part-way out: fragment `index` starts at `offset`, so neither can run away. */
  predicate Underway(message: seq<byte>, offset: nat, index: nat) {
    offset < |message| <= MAX_PAYLOAD && MIN_CHUNK * index <= offset && (index == 0 <==> offset == 0)
  }

  function Fragment(id: byte, message: seq<byte>, limit: BleValueLimit, offset: nat, index: nat): (value: seq<byte>)
    requires Underway(message, offset, index)
    ensures 3 <= |value| <= limit
  {
    var end := ChunkEnd(message, limit, offset);
    [id, index + (if end == |message| then BLE_LAST_FLAG else 0)] + message[offset..end]
  }

  function Fragments(id: byte, message: seq<byte>, limit: BleValueLimit, offset: nat, index: nat)
    : (values: seq<seq<byte>>)
    requires Underway(message, offset, index)
    ensures values != [] && values[0] == Fragment(id, message, limit, offset, index)
    decreases |message| - offset
  {
    var end := ChunkEnd(message, limit, offset);
    [Fragment(id, message, limit, offset, index)] +
    (if end == |message| then [] else Fragments(id, message, limit, end, index + 1))
  }

  // ---------------------------------------------------------------------------
  // Receiver.

  datatype Assembly = Assembly(id: byte, expected: nat, lastMs: u64)

  /** The bytes assembled so far, and the message they belong to while one is open. */
  datatype Rx = Rx(bytes: seq<byte>, active: Option<Assembly>)

  const IDLE: Rx := Rx([], None)

  function Expire(rx: Rx, nowMs: u64): Rx {
    if rx.active.Some? && (nowMs < rx.active.value.lastMs || nowMs - rx.active.value.lastMs >= BLE_TIMEOUT_MS)
    then IDLE else rx
  }

  function Append(rx: Rx, value: seq<byte>, mtu: BleMtu, nowMs: u64): Result<Rx, BleError> {
    if |value| < 3 || |value| > ValueLen(mtu) then Failure(Length)
    else
      var id, index, last, data := value[0], value[1] % 128, value[1] >= 128, value[2..];
      var rx := if rx.active.Some? && rx.active.value.id != id then IDLE else rx;
      if rx.active.Some? && rx.active.value.expected != index then Failure(Sequence)
      else if rx.active.None? && index != 0 then Failure(Sequence)
      else
        var held := if rx.active.Some? then rx.bytes else [];
        var end := |held| + |data|;
        if !last && (index == BLE_INDEX_MASK || end >= MAX_PAYLOAD) then Failure(Length)
        else if end > MAX_PAYLOAD then Failure(Length)
        else Success(Rx(held + data, if last then None else Some(Assembly(id, index + 1, nowMs))))
  }

  /** One value arrives: a whole message, nothing yet, or a refusal that clears the assembly. */
  function Receive(rx: Rx, value: seq<byte>, mtu: BleMtu, nowMs: u64): (Result<Option<seq<byte>>, BleError>, Rx) {
    match Append(Expire(rx, nowMs), value, mtu, nowMs)
    case Failure(why) => (Failure(why), IDLE)
    case Success(next) => (Success(if next.active.None? then Some(next.bytes) else None), next)
  }

  class BleReceiver {
    const bytes: array<byte>
    var len: nat
    var active: Option<Assembly>

    ghost predicate Valid()
      reads this
    {
      len <= MAX_PAYLOAD == bytes.Length && (active.Some? ==> active.value.expected <= BLE_INDEX_MASK)
    }

    ghost function State(): Rx
      requires Valid()
      reads this, bytes
    {
      Rx(bytes[..len], active)
    }

    constructor ()
      ensures Valid() && State() == IDLE && fresh(bytes)
    {
      bytes := new byte[MAX_PAYLOAD](_ => 0);
      len := 0;
      active := None;
    }

    method Reset()
      requires Valid()
      modifies this
      ensures Valid() && State() == IDLE
    {
      active := None;
      len := 0;
    }

    method ExpireAt(nowMs: u64)
      requires Valid()
      modifies this
      ensures Valid() && State() == Expire(old(State()), nowMs)
    {
      if active.Some? && (nowMs < active.value.lastMs || nowMs - active.value.lastMs >= BLE_TIMEOUT_MS) {
        Reset();
      }
    }

    method ReceiveValue(value: seq<byte>, mtu: BleMtu, nowMs: u64)
      returns (r: Result<Option<seq<byte>>, BleError>)
      requires Valid()
      modifies this, bytes
      ensures Valid() && (r, State()) == Receive(old(State()), value, mtu, nowMs)
    {
      ExpireAt(nowMs);
      var appended := AppendValue(value, mtu, nowMs);
      match appended {
        case Success(last) => return Success(if last then Some(bytes[..len]) else None);
        case Failure(why) =>
          Reset();
          return Failure(why);
      }
    }

    method AppendValue(value: seq<byte>, mtu: BleMtu, nowMs: u64) returns (r: Result<bool, BleError>)
      requires Valid()
      modifies this, bytes
      ensures Valid()
      ensures match Append(old(State()), value, mtu, nowMs) {
                case Failure(why) => r == Failure(why)
                case Success(next) => State() == next && r == Success(next.active.None?)
              }
    {
      if |value| < 3 || |value| > ValueLen(mtu) {
        return Failure(Length);
      }
      var id, index, last, data := value[0], value[1] % 128, value[1] >= 128, value[2..];
      if active.Some? && active.value.id != id {
        Reset();
      }
      if active.Some? && active.value.expected != index {
        return Failure(Sequence);
      }
      if active.None? {
        if index != 0 {
          return Failure(Sequence);
        }
        len := 0;
      }
      var end := len + |data|;
      if !last && (index == BLE_INDEX_MASK || end >= MAX_PAYLOAD) {
        return Failure(Length);
      }
      if end > bytes.Length {
        return Failure(Length);
      }
      forall i | len <= i < end {
        bytes[i] := data[i - len];
      }
      assert bytes[..end] == old(bytes[..])[..len] + data;
      len := end;
      active := if last then None else Some(Assembly(id, index + 1, nowMs));
      return Success(last);
    }
  }

  // ---------------------------------------------------------------------------
  // Sender.

  datatype Pending = Pending(message: seq<byte>, offset: nat, index: nat, limit: BleValueLimit, offered: Option<nat>)

  datatype Tx = Tx(pending: Option<Pending>, nextId: byte)

  const FRESH: Tx := Tx(None, 0)

  predicate ValidTx(tx: Tx) {
    tx.pending.Some? ==>
      var p := tx.pending.value;
      Underway(p.message, p.offset, p.index) &&
      (p.offered.Some? ==> p.offered.value == ChunkEnd(p.message, p.limit, p.offset))
  }

  function Enqueue(tx: Tx, message: seq<byte>, limit: BleValueLimit): (Result<(), BleError>, Tx) {
    if tx.pending.Some? then (Failure(Busy), tx)
    else if message == [] || |message| > MAX_PAYLOAD then (Failure(Length), tx)
    else (Success(()), tx.(pending := Some(Pending(message, 0, 0, limit, None))))
  }

  /** The next value, into `room` bytes: the same bytes again until it is admitted. */
  function Offer(tx: Tx, room: nat): (Result<seq<byte>, BleError>, Tx)
    requires ValidTx(tx)
  {
    match tx.pending
    case None => (Failure(Idle), tx)
    case Some(p) =>
      var value := Fragment(tx.nextId, p.message, p.limit, p.offset, p.index);
      if room < |value| then (Failure(Buffer), tx)
      else (Success(value), tx.(pending := Some(p.(offered := Some(ChunkEnd(p.message, p.limit, p.offset))))))
  }

  function Admit(tx: Tx): (Result<(), BleError>, Tx)
    requires ValidTx(tx)
  {
    match tx.pending
    case None => (Failure(Idle), tx)
    case Some(p) =>
      if p.offered.None? then (Failure(Idle), tx)
      else if p.offered.value == |p.message| then (Success(()), Tx(None, (tx.nextId + 1) % 256))
      else (Success(()), tx.(pending := Some(p.(offset := p.offered.value, index := p.index + 1, offered := None))))
  }

  /** Every call keeps the fragment index below the mask and the offset inside the message. */
  lemma CallsKeepTxValid(tx: Tx, message: seq<byte>, limit: BleValueLimit, room: nat)
    requires ValidTx(tx)
    ensures ValidTx(Enqueue(tx, message, limit).1) && ValidTx(Offer(tx, room).1) && ValidTx(Admit(tx).1)
    ensures tx.pending.Some? ==> tx.pending.value.index < BLE_INDEX_MASK
  {}

  datatype Slot = Slot(len: nat, offset: nat, index: nat, limit: BleValueLimit, offered: Option<nat>)

  lemma SliceOfPrefix(s: seq<byte>, len: nat, from: nat, to: nat)
    requires from <= to <= len <= |s|
    ensures s[..len][from..to] == s[from..to]
  {}

  class BleSender {
    const bytes: array<byte>
    var pending: Option<Slot>
    var nextId: byte

    ghost predicate Valid()
      reads this, bytes
    {
      bytes.Length == MAX_PAYLOAD && (pending.Some? ==> pending.value.len <= MAX_PAYLOAD) && ValidTx(State())
    }

    ghost function State(): Tx
      requires pending.Some? ==> pending.value.len <= bytes.Length
      reads this, bytes
    {
      Tx(if pending.None? then None
         else
           var p := pending.value;
           Some(Pending(bytes[..p.len], p.offset, p.index, p.limit, p.offered)),
         nextId)
    }

    constructor ()
      ensures Valid() && State() == FRESH && fresh(bytes)
    {
      bytes := new byte[MAX_PAYLOAD](_ => 0);
      pending := None;
      nextId := 0;
    }

    method EnqueueMessage(message: seq<byte>, limit: BleValueLimit) returns (r: Result<(), BleError>)
      requires Valid()
      modifies this, bytes
      ensures Valid() && (r, State()) == Enqueue(old(State()), message, limit)
    {
      if pending.Some? {
        return Failure(Busy);
      }
      if message == [] || |message| > MAX_PAYLOAD {
        return Failure(Length);
      }
      forall i | 0 <= i < |message| {
        bytes[i] := message[i];
      }
      assert bytes[..|message|] == message;
      pending := Some(Slot(|message|, 0, 0, limit, None));
      return Success(());
    }

    method OfferFragment(out: array<byte>) returns (r: Result<nat, BleError>)
      requires Valid() && out != bytes
      modifies this, out
      ensures Valid() && State() == Offer(old(State()), out.Length).1
      ensures match Offer(old(State()), out.Length).0 {
                case Failure(why) => r == Failure(why) && out[..] == old(out[..])
                case Success(value) => r == Success(|value|) && |value| <= out.Length && out[..|value|] == value
              }
    {
      if pending.None? {
        return Failure(Idle);
      }
      var p := pending.value;
      var end := if p.offset + Chunk(p.limit) < p.len then p.offset + Chunk(p.limit) else p.len;
      var data := bytes[p.offset..end];
      ghost var message := bytes[..p.len];
      assert end == ChunkEnd(message, p.limit, p.offset);
      SliceOfPrefix(bytes[..], p.len, p.offset, end);
      var size := |data| + 2;
      if out.Length < size {
        return Failure(Buffer);
      }
      out[0] := nextId;
      out[1] := p.index + (if end == p.len then BLE_LAST_FLAG else 0);
      forall i | 2 <= i < size {
        out[i] := data[i - 2];
      }
      pending := Some(p.(offered := Some(end)));
      assert out[..size] == [out[0], out[1]] + data;
      assert bytes[..p.len] == message;
      return Success(size);
    }

    method Accepted() returns (r: Result<(), BleError>)
      requires Valid()
      modifies this
      ensures Valid() && (r, State()) == Admit(old(State()))
    {
      if pending.None? || pending.value.offered.None? {
        return Failure(Idle);
      }
      var p := pending.value;
      var end := p.offered.value;
      if end == p.len {
        pending := None;
        nextId := if nextId == 255 then 0 else nextId + 1;
      } else {
        pending := Some(p.(offset := end, index := p.index + 1, offered := None));
      }
      return Success(());
    }

    method Reset()
      requires Valid()
      modifies this
      ensures Valid() && State() == FRESH
    {
      pending := None;
      nextId := 0;
    }
  }

  // ---------------------------------------------------------------------------
  // The two parties, over a link that keeps order and may lose values.

  datatype Queued = Queued(bytes: seq<byte>, limit: BleValueLimit)

  type Message = m: Queued | 0 < |m.bytes| <= MAX_PAYLOAD witness Queued([0], 20)

  /** Every fragment of every message, in order, numbered from `id`. */
  function Stream(messages: seq<Message>, id: byte): seq<seq<byte>> {
    if messages == [] then []
    else Fragments(id, messages[0].bytes, messages[0].limit, 0, 0) + Stream(messages[1..], (id + 1) % 256)
  }

  lemma IdsCount(id: byte, n: nat)
    requires n > 0
    ensures ((id + 1) % 256 + (n - 1)) % 256 == (id + n) % 256
  {}

  lemma {:induction false} StreamSnoc(messages: seq<Message>, m: Message, id: byte)
    ensures Stream(messages + [m], id)
         == Stream(messages, id) + Fragments((id + |messages|) % 256, m.bytes, m.limit, 0, 0)
  {
    hide Fragments;
    if messages == [] {
      assert messages + [m] == [m] && [m][1..] == [];
    } else {
      assert (messages + [m])[1..] == messages[1..] + [m];
      StreamSnoc(messages[1..], m, (id + 1) % 256);
      IdsCount(id, |messages|);
    }
  }

  datatype Call = EnqueueCall(message: seq<byte>, limit: BleValueLimit) | OfferCall(room: nat) | AdmitCall

  /** A sender, the value last offered to the stack, what was queued and what was admitted. */
  datatype Link = Link(tx: Tx, offered: seq<byte>, queued: seq<Message>, aired: seq<seq<byte>>)

  const CONNECTED: Link := Link(FRESH, [], [], [])

  function StepLink(link: Link, call: Call): Link
    requires ValidTx(link.tx)
  {
    match call
    case EnqueueCall(message, limit) =>
      var (r, tx) := Enqueue(link.tx, message, limit);
      link.(tx := tx, queued := if r.Success? then link.queued + [Queued(message, limit)] else link.queued)
    case OfferCall(room) =>
      var (r, tx) := Offer(link.tx, room);
      link.(tx := tx, offered := if r.Success? then r.value else link.offered)
    case AdmitCall =>
      var (r, tx) := Admit(link.tx);
      link.(tx := tx, aired := if r.Success? then link.aired + [link.offered] else link.aired)
  }

  function Remaining(tx: Tx): seq<seq<byte>>
    requires ValidTx(tx)
  {
    if tx.pending.None? then []
    else
      var p := tx.pending.value;
      Fragments(tx.nextId, p.message, p.limit, p.offset, p.index)
  }

  ghost predicate LinkInv(link: Link) {
    && ValidTx(link.tx)
    && link.tx.nextId == (|link.queued| - (if link.tx.pending.Some? then 1 else 0)) % 256
    && (link.tx.pending.Some? ==>
          var p := link.tx.pending.value;
          p.offered.Some? ==> link.offered == Fragment(link.tx.nextId, p.message, p.limit, p.offset, p.index))
    && link.aired + Remaining(link.tx) == Stream(link.queued, 0)
  }

  lemma EnqueueKeepsLinkInv(link: Link, message: seq<byte>, limit: BleValueLimit)
    requires LinkInv(link)
    ensures LinkInv(StepLink(link, EnqueueCall(message, limit)))
  {
    hide Fragments, Stream;
    if Enqueue(link.tx, message, limit).0.Success? {
      StreamSnoc(link.queued, Queued(message, limit), 0);
      assert link.aired + [] == link.aired;
    }
  }

  lemma AdmitKeepsLinkInv(link: Link)
    requires LinkInv(link)
    ensures LinkInv(StepLink(link, AdmitCall))
  {
    hide Stream;
    if Admit(link.tx).0.Success? {
      var next := StepLink(link, AdmitCall);
      assert Remaining(link.tx) == [link.offered] + Remaining(next.tx);
      assert link.aired + ([link.offered] + Remaining(next.tx)) == next.aired + Remaining(next.tx);
    }
  }

  lemma StepKeepsLinkInv(link: Link, call: Call)
    requires LinkInv(link)
    ensures LinkInv(StepLink(link, call))
  {
    hide Stream;
    match call
    case EnqueueCall(message, limit) => EnqueueKeepsLinkInv(link, message, limit);
    case OfferCall(room) =>
    case AdmitCall => AdmitKeepsLinkInv(link);
  }

  function RunLink(link: Link, calls: seq<Call>): Link
    requires ValidTx(link.tx)
    decreases |calls|
  {
    if calls == [] then link else RunLink(StepLink(link, calls[0]), calls[1..])
  }

  /**
   Whatever the calls, refused ones and repeated offers among them, what the
   stack admitted and what is still pending are the queued messages' fragments,
   each once and in order.
   */
  lemma {:induction false} AiredIsTheStream(link: Link, calls: seq<Call>)
    requires LinkInv(link)
    ensures LinkInv(RunLink(link, calls))
    decreases |calls|
  {
    if calls != [] {
      StepKeepsLinkInv(link, calls[0]);
      AiredIsTheStream(StepLink(link, calls[0]), calls[1..]);
    }
  }

  datatype Arrival = Lost | Arrives(mtu: BleMtu, nowMs: u64)

  /** What one value on the air leaves behind: the message it completed, if any, and the receiver. */
  function Hear(rx: Rx, value: seq<byte>, arrival: Arrival): (seq<seq<byte>>, Rx) {
    if arrival.Lost? then ([], rx)
    else
      var (r, next) := Receive(rx, value, arrival.mtu, arrival.nowMs);
      (if r.Success? && r.value.Some? then [r.value.value] else [], next)
  }

  /** The messages a receiver delivers when each value on the air is lost or arrives at some time. */
  function Delivered(rx: Rx, values: seq<seq<byte>>, arrivals: seq<Arrival>): seq<seq<byte>>
    requires |arrivals| <= |values|
    decreases |arrivals|
  {
    if arrivals == [] then []
    else
      var (said, next) := Hear(rx, values[0], arrivals[0]);
      said + Delivered(next, values[1..], arrivals[1..])
  }

  function Contents(messages: seq<Message>): seq<seq<byte>> {
    if messages == [] then [] else [messages[0].bytes] + Contents(messages[1..])
  }

  predicate Subsequence(a: seq<seq<byte>>, b: seq<seq<byte>>) {
    if a == [] then true
    else if b == [] then false
    else (a[0] == b[0] && Subsequence(a[1..], b[1..])) || Subsequence(a, b[1..])
  }

  /**
   What a receiver may hold when fragment `index` of message `id` is next on the
   air: nothing, the front of this very message, or the remains of an earlier one.
   */
  predicate Holds(rx: Rx, id: byte, message: seq<byte>, offset: nat, index: nat)
    requires offset <= |message|
  {
    rx.active.Some? ==>
      var a := rx.active.value;
      a.id < id || (a.id == id && 0 < a.expected <= index && (a.expected == index ==> rx.bytes == message[..offset]))
  }

  lemma HearFragment(rx: Rx, id: byte, m: Message, offset: nat, index: nat, arrival: Arrival)
    requires Underway(m.bytes, offset, index) && Holds(rx, id, m.bytes, offset, index)
    ensures var end := ChunkEnd(m.bytes, m.limit, offset);
            var (said, next) := Hear(rx, Fragment(id, m.bytes, m.limit, offset, index), arrival);
            && (said == [] || (end == |m.bytes| && said == [m.bytes]))
            && (if end == |m.bytes| then next.active.Some? ==> next.active.value.id <= id
                else Holds(next, id, m.bytes, end, index + 1))
  {
    var value := Fragment(id, m.bytes, m.limit, offset, index);
    var end := ChunkEnd(m.bytes, m.limit, offset);
    assert value[2..] == m.bytes[offset..end];
    assert value[1] % 128 == index && (value[1] >= 128 <==> end == |m.bytes|);
    assert m.bytes[..offset] + m.bytes[offset..end] == m.bytes[..end];
    assert m.bytes[..|m.bytes|] == m.bytes;
  }

  lemma SubsequenceNothing(b: seq<seq<byte>>)
    ensures Subsequence([], b)
  {}

  lemma SubsequenceSkip(a: seq<seq<byte>>, x: seq<byte>, b: seq<seq<byte>>)
    requires Subsequence(a, b)
    ensures Subsequence(a, [x] + b) && Subsequence([x] + a, [x] + b)
  {
    assert ([x] + b)[1..] == b && ([x] + a)[1..] == a;
  }

  /** Losing values and delaying them never stitches a message: the induction behind the theorem. */
  lemma {:induction false} NothingStitched(rx: Rx, id: byte, m: Message, offset: nat, index: nat,
                                           rest: seq<Message>, arrivals: seq<Arrival>)
    requires Underway(m.bytes, offset, index) && Holds(rx, id, m.bytes, offset, index) && id + |rest| <= 255
    requires |arrivals| <= |Fragments(id, m.bytes, m.limit, offset, index) + Stream(rest, (id + 1) % 256)|
    ensures var values := Fragments(id, m.bytes, m.limit, offset, index) + Stream(rest, (id + 1) % 256);
            Subsequence(Delivered(rx, values, arrivals), [m.bytes] + Contents(rest))
    decreases |arrivals|, 0
  {
    hide Hear, Stream, Subsequence, Contents;
    var tail := Stream(rest, (id + 1) % 256);
    var values := Fragments(id, m.bytes, m.limit, offset, index) + tail;
    if arrivals == [] {
      SubsequenceNothing([m.bytes] + Contents(rest));
    } else {
      var end := ChunkEnd(m.bytes, m.limit, offset);
      HearFragment(rx, id, m, offset, index, arrivals[0]);
      var (said, next) := Hear(rx, values[0], arrivals[0]);
      if end < |m.bytes| {
        assert values[1..] == Fragments(id, m.bytes, m.limit, end, index + 1) + tail;
        NothingStitched(next, id, m, end, index + 1, rest, arrivals[1..]);
        assert [] + Delivered(next, values[1..], arrivals[1..]) == Delivered(next, values[1..], arrivals[1..]);
      } else {
        assert values[1..] == tail;
        NextMessage(next, id, rest, arrivals[1..]);
        SubsequenceSkip(Delivered(next, tail, arrivals[1..]), m.bytes, Contents(rest));
        assert [] + Delivered(next, tail, arrivals[1..]) == Delivered(next, tail, arrivals[1..]);
      }
    }
  }

  lemma NextMessage(rx: Rx, id: byte, rest: seq<Message>, arrivals: seq<Arrival>)
    requires (rx.active.Some? ==> rx.active.value.id <= id) && id + |rest| <= 255
    requires |arrivals| <= |Stream(rest, (id + 1) % 256)|
    ensures Subsequence(Delivered(rx, Stream(rest, (id + 1) % 256), arrivals), Contents(rest))
    decreases |arrivals|, 1
  {
    hide Hear;
    if rest != [] {
      NothingStitched(rx, id + 1, rest[0], 0, 0, rest[1..], arrivals);
    }
  }

  lemma {:induction false} DeliveredPrefix(rx: Rx, values: seq<seq<byte>>, more: seq<seq<byte>>, arrivals: seq<Arrival>)
    requires |arrivals| <= |values|
    ensures Delivered(rx, values + more, arrivals) == Delivered(rx, values, arrivals)
    decreases |arrivals|
  {
    hide Hear;
    if arrivals != [] {
      assert (values + more)[1..] == values[1..] + more;
      DeliveredPrefix(Hear(rx, values[0], arrivals[0]).1, values[1..], more, arrivals[1..]);
    }
  }

  /**
   Safety under loss and delay. While no message id has come round again, what a
   receiver delivers of anything a sender admitted is a subsequence of the
   messages queued: each whole, at most once, in order.
   */
  lemma DeliveredWholeOrNotAtAll(calls: seq<Call>, arrivals: seq<Arrival>)
    requires |arrivals| <= |RunLink(CONNECTED, calls).aired|
    requires |RunLink(CONNECTED, calls).queued| <= 256
    ensures var link := RunLink(CONNECTED, calls);
            Subsequence(Delivered(IDLE, link.aired, arrivals), Contents(link.queued))
  {
    hide Hear, StepLink, Delivered, Subsequence, Stream, Fragments;
    assert LinkInv(CONNECTED) by { ConnectedInv(); }
    AiredIsTheStream(CONNECTED, calls);
    var link := RunLink(CONNECTED, calls);
    DeliveredPrefix(IDLE, link.aired, Remaining(link.tx), arrivals);
    StreamDelivered(link.queued, arrivals);
  }

  lemma ConnectedInv()
    ensures LinkInv(CONNECTED)
  {}

  lemma StreamDelivered(messages: seq<Message>, arrivals: seq<Arrival>)
    requires |messages| <= 256 && |arrivals| <= |Stream(messages, 0)|
    ensures Subsequence(Delivered(IDLE, Stream(messages, 0), arrivals), Contents(messages))
  {
    hide Hear;
    if messages != [] {
      NothingStitched(IDLE, 0, messages[0], 0, 0, messages[1..], arrivals);
    }
  }

  /** What a receiver answers to values that all arrive. */
  function Responses(rx: Rx, values: seq<seq<byte>>, mtu: BleMtu, times: seq<u64>)
    : seq<Result<Option<seq<byte>>, BleError>>
    requires |times| == |values|
    decreases |values|
  {
    if values == [] then []
    else
      var (r, next) := Receive(rx, values[0], mtu, times[0]);
      [r] + Responses(next, values[1..], mtu, times[1..])
  }

  /** Each value comes within the timeout of the one before it. */
  predicate InTime(since: u64, times: seq<u64>)
    decreases |times|
  {
    times != [] ==> since <= times[0] < since + BLE_TIMEOUT_MS && InTime(times[0], times[1..])
  }

  function Quiet(n: nat): (quiet: seq<Result<Option<seq<byte>>, BleError>>)
    ensures |quiet| == n
  {
    seq(n, _ => Success(None))
  }

  /** Nothing is open, or what is open belongs to another message or has been silent too long. */
  predicate GivesWay(rx: Rx, id: byte, nowMs: u64) {
    rx.active.Some? ==>
      var a := rx.active.value;
      a.id != id || nowMs < a.lastMs || nowMs - a.lastMs >= BLE_TIMEOUT_MS
  }

  /** A first value is taken exactly when what is open gives way; otherwise it is refused and all is dropped. */
  lemma FirstValueExactly(rx: Rx, id: byte, m: Message, mtu: BleMtu, nowMs: u64)
    requires |Fragment(id, m.bytes, m.limit, 0, 0)| <= ValueLen(mtu)
    requires rx.active.Some? ==> rx.active.value.expected > 0
    ensures var (r, next) := Receive(rx, Fragment(id, m.bytes, m.limit, 0, 0), mtu, nowMs);
            if GivesWay(rx, id, nowMs) then r.Success? else r == Failure(Sequence) && next == IDLE
  {
    if GivesWay(rx, id, nowMs) { ArrivingFragment(rx, id, m, 0, 0, mtu, nowMs); }
  }

  lemma {:induction false} RestDelivered(rx: Rx, id: byte, m: Message, offset: nat, index: nat, mtu: BleMtu,
                                         times: seq<u64>)
    requires Underway(m.bytes, offset, index) && m.limit <= ValueLen(mtu)
    requires |times| == |Fragments(id, m.bytes, m.limit, offset, index)|
    requires if index == 0 then GivesWay(rx, id, times[0]) && InTime(times[0], times[1..])
             else rx.active.Some? && rx.active.value.id == id && rx.active.value.expected == index &&
                  rx.bytes == m.bytes[..offset] && InTime(rx.active.value.lastMs, times)
    ensures var values := Fragments(id, m.bytes, m.limit, offset, index);
            Responses(rx, values, mtu, times) == Quiet(|values| - 1) + [Success(Some(m.bytes))]
    decreases |m.bytes| - offset
  {
    hide Receive, Fragment;
    var values := Fragments(id, m.bytes, m.limit, offset, index);
    var end := ChunkEnd(m.bytes, m.limit, offset);
    var (r, next) := Receive(rx, values[0], mtu, times[0]);
    ArrivingFragment(rx, id, m, offset, index, mtu, times[0]);
    if end < |m.bytes| {
      assert values[1..] == Fragments(id, m.bytes, m.limit, end, index + 1);
      RestDelivered(next, id, m, end, index + 1, mtu, times[1..]);
      assert [Success(None)] + Quiet(|values| - 2) == Quiet(|values| - 1);
    } else {
      assert values[1..] == [];
    }
  }

  lemma ArrivingFragment(rx: Rx, id: byte, m: Message, offset: nat, index: nat, mtu: BleMtu, nowMs: u64)
    requires Underway(m.bytes, offset, index) && |Fragment(id, m.bytes, m.limit, offset, index)| <= ValueLen(mtu)
    requires if index == 0 then GivesWay(rx, id, nowMs)
             else rx.active.Some? && rx.active.value.id == id && rx.active.value.expected == index &&
                  rx.bytes == m.bytes[..offset]
                  && rx.active.value.lastMs <= nowMs < rx.active.value.lastMs + BLE_TIMEOUT_MS
    ensures var end := ChunkEnd(m.bytes, m.limit, offset);
            var (r, next) := Receive(rx, Fragment(id, m.bytes, m.limit, offset, index), mtu, nowMs);
            if end == |m.bytes| then r == Success(Some(m.bytes)) && next.active.None?
            else r == Success(None) && next == Rx(m.bytes[..end], Some(Assembly(id, index + 1, nowMs)))
  {
    var value := Fragment(id, m.bytes, m.limit, offset, index);
    var end := ChunkEnd(m.bytes, m.limit, offset);
    assert value[2..] == m.bytes[offset..end];
    assert value[1] % 128 == index && (value[1] >= 128 <==> end == |m.bytes|);
    assert m.bytes[..offset] + m.bytes[offset..end] == m.bytes[..end];
    assert m.bytes[..|m.bytes|] == m.bytes;
  }

  /**
   Delivery: every message, at every limit that can be selected on a negotiated
   MTU, reaches a receiver that gets its values in order and in time, and that holds
   no assembly, one of another message or one that has expired: nothing until the
   last value, then exactly the message.
   */
  lemma MessageDelivered(rx: Rx, id: byte, message: seq<byte>, mtu: nat, valueLen: nat, times: seq<u64>)
    requires 0 < |message| <= MAX_PAYLOAD
    requires NewMtu(mtu).Success? && Select(NewMtu(mtu).value, valueLen).Success?
    requires var values := Fragments(id, message, Select(NewMtu(mtu).value, valueLen).value, 0, 0);
             |times| == |values| && GivesWay(rx, id, times[0]) && InTime(times[0], times[1..])
    ensures var values := Fragments(id, message, Select(NewMtu(mtu).value, valueLen).value, 0, 0);
            Responses(rx, values, NewMtu(mtu).value, times) == Quiet(|values| - 1) + [Success(Some(message))]
  {
    RestDelivered(rx, id, Queued(message, Select(NewMtu(mtu).value, valueLen).value), 0, 0, NewMtu(mtu).value, times);
  }
}
