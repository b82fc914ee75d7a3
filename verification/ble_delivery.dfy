/**
 Delivery over whole connections: what is admitted, in whatever order the sender
 was called, is exactly what a receiver that loses nothing delivers. Message ids
 may come round again any number of times.
 */
module BleDelivery {
  import opened Bytes
  import opened Wrappers
  import opened Limits
  import opened Ble

  /** The messages whose last value the stack has admitted. */
  function Completed(link: Link): seq<Message> {
    if link.tx.pending.None? || link.queued == [] then link.queued else link.queued[..|link.queued| - 1]
  }

  /** A value that goes on with the message before it. */
  predicate Continues(value: seq<byte>) { |value| >= 2 && value[1] % 128 != 0 }

  predicate Punctual(since: Arrival, arrival: Arrival) {
    since.Arrives? && arrival.Arrives? && since.nowMs <= arrival.nowMs < since.nowMs + BLE_TIMEOUT_MS
  }

  /** Every value arrives where it fits, and one that goes on with a message within the timeout of the one before. */
  ghost predicate Undisturbed(values: seq<seq<byte>>, arrivals: seq<Arrival>) {
    && |arrivals| == |values|
    && (forall i :: 0 <= i < |values| ==> arrivals[i].Arrives? && |values[i]| <= ValueLen(arrivals[i].mtu))
    && (forall i, j :: 0 <= i && j == i + 1 && j < |values| && Continues(values[j]) ==>
          Punctual(arrivals[i], arrivals[j]))
  }

  // ---------------------------------------------------------------------------
  // The sender: the message it is part-way through is the last it queued.

  ghost predicate Progress(link: Link) {
    && LinkInv(link)
    && (link.tx.pending.Some? ==>
          && link.queued != []
          && |link.aired| == |Stream(link.queued[..|link.queued| - 1], 0)| + link.tx.pending.value.index)
  }

  lemma StepKeepsProgress(link: Link, call: Call)
    requires Progress(link)
    ensures Progress(StepLink(link, call))
  {
    hide Stream, Fragments;
    StepKeepsLinkInv(link, call);
    if call.EnqueueCall? && link.tx.pending.None? {
      assert link.aired + [] == link.aired;
      assert (link.queued + [Queued(call.message, call.limit)])[..|link.queued|] == link.queued;
    }
  }

  lemma {:induction false} RunKeepsProgress(link: Link, calls: seq<Call>)
    requires Progress(link)
    ensures Progress(RunLink(link, calls))
    decreases |calls|
  {
    hide Stream, Fragments;
    if calls != [] {
      StepKeepsProgress(link, calls[0]);
      RunKeepsProgress(StepLink(link, calls[0]), calls[1..]);
    }
  }

  /** What has been admitted: every completed message's values, and a proper front of the next one's. */
  lemma AiredInParts(link: Link) returns (front: seq<seq<byte>>)
    requires Progress(link)
    ensures var done := Completed(link);
            && link.aired == Stream(done, 0) + front
            && (link.tx.pending.None? ==> front == [])
            && (link.tx.pending.Some? ==>
                  var m := link.queued[|done|];
                  && |done| < |link.queued|
                  && |front| < |Fragments(|done| % 256, m.bytes, m.limit, 0, 0)|
                  && front == Fragments(|done| % 256, m.bytes, m.limit, 0, 0)[..|front|])
  {
    hide Stream, Fragments;
    var done := Completed(link);
    if link.tx.pending.None? {
      assert link.aired + [] == link.aired;
      return [];
    }
    var m := link.queued[|done|];
    assert link.queued == done + [m];
    StreamSnoc(done, m, 0);
    var whole, rest := Fragments(|done| % 256, m.bytes, m.limit, 0, 0), Remaining(link.tx);
    var index := link.tx.pending.value.index;
    assert Stream(done, 0) + whole == link.aired + rest;
    assert |rest| > 0;
    assert link.aired == (link.aired + rest)[..|link.aired|];
    front := whole[..index];
    assert (Stream(done, 0) + whole)[..|link.aired|] == Stream(done, 0) + front;
  }

  // ---------------------------------------------------------------------------
  // The receiver: values of one message in turn.

  /** What a receiver holds when a message's fragment `index` comes next and nothing was lost. */
  predicate Follows(rx: Rx, id: byte, m: Message, offset: nat, index: nat, last: Option<Arrival>) {
    if index == 0 then rx.active.None?
    else
      && offset <= |m.bytes| && last.Some? && last.value.Arrives?
      && rx == Rx(m.bytes[..offset], Some(Assembly(id, index, last.value.nowMs)))
  }

  /** The arrivals ahead go on from the last one. */
  ghost predicate GoesOn(values: seq<seq<byte>>, last: Option<Arrival>, arrivals: seq<Arrival>) {
    && Undisturbed(values, arrivals)
    && (last.Some? && values != [] && Continues(values[0]) ==> Punctual(last.value, arrivals[0]))
  }

  lemma FragmentHeard(rx: Rx, id: byte, m: Message, offset: nat, index: nat, last: Option<Arrival>, arrival: Arrival)
    requires Underway(m.bytes, offset, index) && Follows(rx, id, m, offset, index, last)
    requires var value := Fragment(id, m.bytes, m.limit, offset, index);
             && arrival.Arrives? && |value| <= ValueLen(arrival.mtu)
             && (last.Some? && Continues(value) ==> Punctual(last.value, arrival))
    ensures var (said, next) := Hear(rx, Fragment(id, m.bytes, m.limit, offset, index), arrival);
            var end := ChunkEnd(m.bytes, m.limit, offset);
            if end == |m.bytes| then said == [m.bytes] && next.active.None?
            else said == [] && Follows(next, id, m, end, index + 1, Some(arrival))
  {
    hide Receive;
    ArrivingFragment(rx, id, m, offset, index, arrival.mtu, arrival.nowMs);
  }

  lemma {:induction false} MessageHeard(rx: Rx, id: byte, m: Message, offset: nat, index: nat, last: Option<Arrival>,
                                        more: seq<seq<byte>>, arrivals: seq<Arrival>)
    returns (next: Rx)
    requires Underway(m.bytes, offset, index) && Follows(rx, id, m, offset, index, last)
    requires GoesOn(Fragments(id, m.bytes, m.limit, offset, index) + more, last, arrivals)
    ensures var n := |Fragments(id, m.bytes, m.limit, offset, index)|;
            && next.active.None? && n <= |arrivals| && Undisturbed(more, arrivals[n..])
            && Delivered(rx, Fragments(id, m.bytes, m.limit, offset, index) + more, arrivals)
            == [m.bytes] + Delivered(next, more, arrivals[n..])
    decreases |m.bytes| - offset
  {
    hide Hear, Fragment, Follows;
    var own := Fragments(id, m.bytes, m.limit, offset, index);
    var values, end := own + more, ChunkEnd(m.bytes, m.limit, offset);
    FragmentHeard(rx, id, m, offset, index, last, arrivals[0]);
    var heard := Hear(rx, values[0], arrivals[0]);
    assert values[1..] == own[1..] + more;
    if end == |m.bytes| {
      next := heard.1;
      assert values[1..] == more;
    } else {
      assert own[1..] == Fragments(id, m.bytes, m.limit, end, index + 1);
      next := MessageHeard(heard.1, id, m, end, index + 1, Some(arrivals[0]), more, arrivals[1..]);
      assert arrivals[1..][|own| - 1..] == arrivals[|own|..];
      assert [] + Delivered(heard.1, values[1..], arrivals[1..]) == Delivered(heard.1, values[1..], arrivals[1..]);
    }
  }

  /** A proper front of a message delivers nothing. */
  lemma {:induction false} FrontHeard(rx: Rx, id: byte, m: Message, offset: nat, index: nat, last: Option<Arrival>,
                                      front: seq<seq<byte>>, arrivals: seq<Arrival>)
    requires Underway(m.bytes, offset, index) && Follows(rx, id, m, offset, index, last)
    requires var own := Fragments(id, m.bytes, m.limit, offset, index); |front| < |own| && front == own[..|front|]
    requires GoesOn(front, last, arrivals)
    ensures Delivered(rx, front, arrivals) == []
    decreases |front|
  {
    hide Hear, Fragment, Follows;
    if front != [] {
      var own, end := Fragments(id, m.bytes, m.limit, offset, index), ChunkEnd(m.bytes, m.limit, offset);
      FragmentHeard(rx, id, m, offset, index, last, arrivals[0]);
      assert own[1..] == Fragments(id, m.bytes, m.limit, end, index + 1);
      assert front[1..] == own[1..][..|front| - 1];
      FrontHeard(Hear(rx, front[0], arrivals[0]).1, id, m, end, index + 1, Some(arrivals[0]), front[1..],
                 arrivals[1..]);
    }
  }

  /** What follows the whole messages: nothing, or a proper front of one more. */
  ghost predicate ProperFront(front: seq<seq<byte>>, id: byte, next: Option<Message>) {
    if next.None? then front == []
    else
      var own := Fragments(id, next.value.bytes, next.value.limit, 0, 0);
      |front| < |own| && front == own[..|front|]
  }

  lemma ProperFrontHeard(rx: Rx, id: byte, front: seq<seq<byte>>, next: Option<Message>, arrivals: seq<Arrival>)
    requires rx.active.None? && ProperFront(front, id, next) && Undisturbed(front, arrivals)
    ensures Delivered(rx, front, arrivals) == []
  {
    hide Hear, Fragments;
    if next.Some? {
      FrontHeard(rx, id, next.value, 0, 0, None, front, arrivals);
    }
  }

  /** Whole messages one after another, then the front of one more. */
  lemma {:induction false} MessagesHeard(rx: Rx, messages: seq<Message>, id: byte, front: seq<seq<byte>>,
                                         next: Option<Message>, arrivals: seq<Arrival>)
    requires rx.active.None? && Undisturbed(Stream(messages, id) + front, arrivals)
    requires ProperFront(front, (id + |messages|) % 256, next)
    ensures Delivered(rx, Stream(messages, id) + front, arrivals) == Contents(messages)
    decreases |messages|
  {
    hide Hear, Fragments, ProperFront, Undisturbed, Delivered;
    if messages == [] {
      assert Stream(messages, id) + front == front;
      ProperFrontHeard(rx, id, front, next, arrivals);
    } else {
      var m := messages[0];
      var own, rest := Fragments(id, m.bytes, m.limit, 0, 0), Stream(messages[1..], (id + 1) % 256);
      assert Stream(messages, id) + front == own + (rest + front);
      var after := MessageHeard(rx, id, m, 0, 0, None, rest + front, arrivals);
      IdsCount(id, |messages|);
      MessagesHeard(after, messages[1..], (id + 1) % 256, front, next, arrivals[|own|..]);
    }
  }

  /**
   Delivery: whatever the calls, refused ones and repeated offers among them, an
   idle receiver that gets what was admitted in order, where it fits and in time
   delivers exactly the completed messages, each once and in order.
   */
  lemma DeliveredInFull(calls: seq<Call>, rx: Rx, arrivals: seq<Arrival>)
    requires rx.active.None? && Undisturbed(RunLink(CONNECTED, calls).aired, arrivals)
    ensures var link := RunLink(CONNECTED, calls);
            Delivered(rx, link.aired, arrivals) == Contents(Completed(link))
  {
    hide Stream, Fragments, Undisturbed, Hear, StepLink;
    assert Progress(CONNECTED) by { ConnectedInv(); }
    RunKeepsProgress(CONNECTED, calls);
    var link := RunLink(CONNECTED, calls);
    var front := AiredInParts(link);
    var done := Completed(link);
    MessagesHeard(rx, done, 0, front, if link.tx.pending.None? then None else Some(link.queued[|done|]), arrivals);
  }
}
