/**
 Delivery under loss, exactly: which messages come through a link that drops and
 delays values, whatever the assemblies that earlier losses left behind.
 */
module BleLosses {
  import opened Bytes
  import opened Wrappers
  import opened Limits
  import opened Ble
  import opened BleDelivery

  /** From one fragment on, every value of a message arrives, fits, and comes in time after the one before. */
  predicate Intact(m: Message, offset: nat, index: nat, last: Option<Arrival>, arrivals: seq<Arrival>)
    requires Underway(m.bytes, offset, index)
    decreases |m.bytes| - offset
  {
    var end := ChunkEnd(m.bytes, m.limit, offset);
    && arrivals != [] && arrivals[0].Arrives? && 2 + (end - offset) <= ValueLen(arrivals[0].mtu)
    && (index > 0 ==> last.Some? && Punctual(last.value, arrivals[0]))
    && (end < |m.bytes| ==> Intact(m, end, index + 1, Some(arrivals[0]), arrivals[1..]))
  }

  /** The receiver has lost the message whose fragment `index` comes next. */
  predicate Missed(rx: Rx, id: byte, index: nat) {
    index > 0 && (rx.active.Some?
                  ==> rx.active.value.id < id || (rx.active.value.id == id && rx.active.value.expected < index))
  }

  /** What it holds belongs to earlier messages. */
  predicate Stale(rx: Rx, id: nat) { rx.active.Some? ==> rx.active.value.id < id }

  /** It holds the whole front of the message, the last value of it taken at `last`. */
  predicate OnTrack(rx: Rx, id: byte, m: Message, offset: nat, index: nat, last: Option<Arrival>) {
    if index == 0 then Stale(rx, id) else Follows(rx, id, m, offset, index, last)
  }

  lemma MissedStays(rx: Rx, id: byte, m: Message, offset: nat, index: nat, arrival: Arrival)
    requires Underway(m.bytes, offset, index) && Missed(rx, id, index)
    ensures var (said, next) := Hear(rx, Fragment(id, m.bytes, m.limit, offset, index), arrival);
            said == [] && Missed(next, id, index + 1) && Stale(next, id + 1)
  {
    var value := Fragment(id, m.bytes, m.limit, offset, index);
    assert value[1] % 128 == index;
  }

  /** One value of a message on track: taken and still on track, or the message is missed. */
  lemma OneValue(rx: Rx, id: byte, m: Message, offset: nat, index: nat, last: Option<Arrival>, arrival: Arrival)
    requires Underway(m.bytes, offset, index) && OnTrack(rx, id, m, offset, index, last)
    ensures var (said, next) := Hear(rx, Fragment(id, m.bytes, m.limit, offset, index), arrival);
            var end := ChunkEnd(m.bytes, m.limit, offset);
            if arrival.Arrives? && 2 + (end - offset) <= ValueLen(arrival.mtu)
               && (index > 0 ==> last.Some? && Punctual(last.value, arrival))
            then
              if end == |m.bytes| then said == [m.bytes] && next.active.None?
              else said == [] && OnTrack(next, id, m, end, index + 1, Some(arrival)) && Stale(next, id + 1)
            else said == [] && Missed(next, id, index + 1) && Stale(next, id + 1)
  {
    var value := Fragment(id, m.bytes, m.limit, offset, index);
    var end := ChunkEnd(m.bytes, m.limit, offset);
    assert |value| == 2 + (end - offset) && value[1] % 128 == index && value[0] == id;
    if arrival.Arrives? && |value| <= ValueLen(arrival.mtu) && (index > 0 ==> Punctual(last.value, arrival)) {
      ArrivingFragment(rx, id, m, offset, index, arrival.mtu, arrival.nowMs);
    }
  }

  /** A missed message says nothing more. */
  lemma {:induction false} MissedToTheEnd(rx: Rx, id: byte, m: Message, offset: nat, index: nat, more: seq<seq<byte>>,
                                          arrivals: seq<Arrival>)
    returns (next: Rx)
    requires Underway(m.bytes, offset, index) && Missed(rx, id, index) && Stale(rx, id + 1)
    requires |arrivals| <= |Fragments(id, m.bytes, m.limit, offset, index) + more|
    ensures Stale(next, id + 1)
    ensures var values := Fragments(id, m.bytes, m.limit, offset, index);
            Delivered(rx, values + more, arrivals)
            == if |arrivals| < |values| then [] else Delivered(next, more, arrivals[|values|..])
    decreases |arrivals|
  {
    hide Hear, Fragment, Missed, Stale;
    var values, end := Fragments(id, m.bytes, m.limit, offset, index), ChunkEnd(m.bytes, m.limit, offset);
    next := rx;
    if arrivals != [] {
      MissedStays(rx, id, m, offset, index, arrivals[0]);
      next := Hear(rx, values[0], arrivals[0]).1;
      assert (values + more)[1..] == values[1..] + more;
      if end < |m.bytes| {
        assert values[1..] == Fragments(id, m.bytes, m.limit, end, index + 1);
        var after := next;
        next := MissedToTheEnd(after, id, m, end, index + 1, more, arrivals[1..]);
        if |arrivals| >= |values| { assert arrivals[1..][|values| - 1..] == arrivals[|values|..]; }
      } else {
        assert values[1..] + more == more;
      }
    }
  }

  /** A message on track is said exactly when the rest of it is intact. */
  lemma {:induction false} SaidIfIntact(rx: Rx, id: byte, m: Message, offset: nat, index: nat, last: Option<Arrival>,
                                        more: seq<seq<byte>>, arrivals: seq<Arrival>)
    returns (next: Rx)
    requires Underway(m.bytes, offset, index) && OnTrack(rx, id, m, offset, index, last) && Stale(rx, id + 1)
    requires |arrivals| <= |Fragments(id, m.bytes, m.limit, offset, index) + more|
    ensures Stale(next, id + 1)
    ensures var values := Fragments(id, m.bytes, m.limit, offset, index);
            Delivered(rx, values + more, arrivals)
            == (if Intact(m, offset, index, last, arrivals) then [m.bytes] else [])
               + if |arrivals| < |values| then [] else Delivered(next, more, arrivals[|values|..])
    decreases |arrivals|
  {
    hide Hear, Fragment, Missed, OnTrack;
    var values, end := Fragments(id, m.bytes, m.limit, offset, index), ChunkEnd(m.bytes, m.limit, offset);
    next := rx;
    if arrivals != [] {
      OneValue(rx, id, m, offset, index, last, arrivals[0]);
      var (said, after) := Hear(rx, values[0], arrivals[0]);
      next := after;
      assert (values + more)[1..] == values[1..] + more;
      if end < |m.bytes| {
        assert values[1..] == Fragments(id, m.bytes, m.limit, end, index + 1);
        if arrivals[0].Arrives? && 2 + (end - offset) <= ValueLen(arrivals[0].mtu)
           && (index > 0 ==> last.Some? && Punctual(last.value, arrivals[0])) {
          next := SaidIfIntact(after, id, m, end, index + 1, Some(arrivals[0]), more, arrivals[1..]);
        } else {
          next := MissedToTheEnd(after, id, m, end, index + 1, more, arrivals[1..]);
        }
        if |arrivals| >= |values| { assert arrivals[1..][|values| - 1..] == arrivals[|values|..]; }
      } else {
        assert values[1..] + more == more;
      }
    }
  }

  /** The messages whose every value arrives, fits and is in time. */
  function IntactOnes(messages: seq<Message>, arrivals: seq<Arrival>): seq<Message> {
    if messages == [] then []
    else
      var m := messages[0];
      var n := |Fragments(0, m.bytes, m.limit, 0, 0)|;
      (if Intact(m, 0, 0, None, arrivals) then [m] else [])
      + if |arrivals| < n then [] else IntactOnes(messages[1..], arrivals[n..])
  }

  lemma {:induction false} SameCount(id: byte, m: Message, offset: nat, index: nat)
    requires Underway(m.bytes, offset, index)
    ensures |Fragments(id, m.bytes, m.limit, offset, index)| == |Fragments(0, m.bytes, m.limit, offset, index)|
    decreases |m.bytes| - offset
  {
    hide Fragment;
    var end := ChunkEnd(m.bytes, m.limit, offset);
    if end < |m.bytes| { SameCount(id, m, end, index + 1); }
  }

  lemma {:induction false} IntactOnesSaid(rx: Rx, id: nat, messages: seq<Message>, arrivals: seq<Arrival>)
    requires Stale(rx, id) && id + |messages| <= 256
    requires |arrivals| <= |Stream(messages, id % 256)|
    ensures Delivered(rx, Stream(messages, id % 256), arrivals) == Contents(IntactOnes(messages, arrivals))
    decreases |messages|
  {
    hide Hear, Fragments, Intact;
    if messages != [] {
      var m, rest := messages[0], Stream(messages[1..], (id + 1) % 256);
      SameCount(id, m, 0, 0);
      var n := |Fragments(id, m.bytes, m.limit, 0, 0)|;
      var next := SaidIfIntact(rx, id, m, 0, 0, None, rest, arrivals);
      var said := if Intact(m, 0, 0, None, arrivals) then [m] else [];
      if |arrivals| >= n {
        IntactOnesSaid(next, id + 1, messages[1..], arrivals[n..]);
        var later := IntactOnes(messages[1..], arrivals[n..]);
        assert ([m] + later)[1..] == later && [] + later == later;
      } else {
        assert [m] + [] == [m] && [m][1..] == [];
      }
    }
  }

  /**
   Delivery under loss. While no message id has come round again, what a receiver
   delivers is exactly the messages all of whose values arrive, fit and are in time,
   each whole, once and in order, whatever was lost before them.
   */
  lemma DeliveredAreTheIntact(calls: seq<Call>, arrivals: seq<Arrival>)
    requires |arrivals| <= |RunLink(CONNECTED, calls).aired|
    requires |RunLink(CONNECTED, calls).queued| <= 256
    ensures var link := RunLink(CONNECTED, calls);
            Delivered(IDLE, link.aired, arrivals) == Contents(IntactOnes(link.queued, arrivals))
  {
    hide Hear, StepLink, Delivered, Stream, Fragments, IntactOnes;
    assert LinkInv(CONNECTED) by { ConnectedInv(); }
    AiredIsTheStream(CONNECTED, calls);
    var link := RunLink(CONNECTED, calls);
    DeliveredPrefix(IDLE, link.aired, Remaining(link.tx), arrivals);
    IntactOnesSaid(IDLE, 0, link.queued, arrivals);
  }
}
