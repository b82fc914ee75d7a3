/**
 How far an eight-bit message id carries: losses never stitch two messages as long
 as no id comes round again, and can as soon as one does.
 */
module BleIds {
  import opened Bytes
  import opened Wrappers
  import opened Limits
  import opened Ble

  /** Nothing a receiver can be given of `n` messages, or fewer, makes it deliver anything but them. */
  ghost predicate SafeFor(n: nat) {
    forall calls: seq<Call>, arrivals: seq<Arrival> ::
      |RunLink(CONNECTED, calls).queued| <= n && |arrivals| <= |RunLink(CONNECTED, calls).aired| ==>
        Subsequence(Delivered(IDLE, RunLink(CONNECTED, calls).aired, arrivals),
                    Contents(RunLink(CONNECTED, calls).queued))
  }

  // ---------------------------------------------------------------------------
  // A sender whose every offer is admitted.

  /** Offer and admit, once for each fragment still to go. */
  function Airing(m: Message, offset: nat, index: nat): seq<Call>
    requires Underway(m.bytes, offset, index)
    decreases |m.bytes| - offset
  {
    var end := ChunkEnd(m.bytes, m.limit, offset);
    [OfferCall(m.limit), AdmitCall] + if end == |m.bytes| then [] else Airing(m, end, index + 1)
  }

  function Sending(messages: seq<Message>): seq<Call> {
    if messages == [] then []
    else [EnqueueCall(messages[0].bytes, messages[0].limit)] + Airing(messages[0], 0, 0) + Sending(messages[1..])
  }

  lemma {:induction false} RunBoth(link: Link, first: seq<Call>, second: seq<Call>)
    requires LinkInv(link)
    ensures LinkInv(RunLink(link, first))
    ensures RunLink(link, first + second) == RunLink(RunLink(link, first), second)
    decreases |first|
  {
    hide StepLink, LinkInv;
    InvValid(link);
    if first == [] {
      assert first + second == second;
    } else {
      StepKeepsLinkInv(link, first[0]);
      assert (first + second)[1..] == first[1..] + second;
      RunBoth(StepLink(link, first[0]), first[1..], second);
    }
  }

  lemma InvValid(link: Link)
    requires LinkInv(link)
    ensures ValidTx(link.tx)
  {}

  /** The link while one message goes out, its `offset` first bytes already on the air. */
  predicate Sends(link: Link, m: Message, offset: nat, index: nat) {
    link.tx.pending == Some(Pending(m.bytes, offset, index, m.limit, None))
  }

  lemma OneAired(link: Link, m: Message, offset: nat, index: nat)
    requires LinkInv(link) && Underway(m.bytes, offset, index) && Sends(link, m, offset, index)
    ensures var after := RunLink(link, [OfferCall(m.limit), AdmitCall]);
            var end := ChunkEnd(m.bytes, m.limit, offset);
            && after.queued == link.queued
            && after.aired == link.aired + [Fragment(link.tx.nextId, m.bytes, m.limit, offset, index)]
            && (if end == |m.bytes| then after.tx == Tx(None, (link.tx.nextId + 1) % 256)
                else Sends(after, m, end, index + 1) && after.tx.nextId == link.tx.nextId)
  {
    hide Fragment, Stream, Fragments;
    var offered := StepLink(link, OfferCall(m.limit));
    StepKeepsLinkInv(link, OfferCall(m.limit));
    var after := StepLink(offered, AdmitCall);
    assert [OfferCall(m.limit), AdmitCall][1..] == [AdmitCall] && [AdmitCall][1..] == [];
    assert RunLink(after, []) == after;
    assert RunLink(offered, [AdmitCall]) == after;
  }

  lemma {:induction false} AllAired(link: Link, m: Message, offset: nat, index: nat)
    requires LinkInv(link) && Underway(m.bytes, offset, index) && Sends(link, m, offset, index)
    ensures var after := RunLink(link, Airing(m, offset, index));
            && LinkInv(after) && after.queued == link.queued && after.tx == Tx(None, (link.tx.nextId + 1) % 256)
            && after.aired == link.aired + Fragments(link.tx.nextId, m.bytes, m.limit, offset, index)
    decreases |m.bytes| - offset
  {
    hide LinkInv, RunLink, Fragment;
    var end := ChunkEnd(m.bytes, m.limit, offset);
    var once := [OfferCall(m.limit), AdmitCall];
    OneAired(link, m, offset, index);
    var next := RunLink(link, once);
    if end < |m.bytes| {
      RunBoth(link, once, Airing(m, end, index + 1));
      AllAired(next, m, end, index + 1);
      assert next.aired + Fragments(link.tx.nextId, m.bytes, m.limit, end, index + 1)
          == link.aired + Fragments(link.tx.nextId, m.bytes, m.limit, offset, index);
    } else {
      RunBoth(link, once, []);
      assert once + [] == once;
    }
  }

  lemma Queues(link: Link, m: Message)
    requires LinkInv(link) && link.tx.pending.None?
    ensures var call := EnqueueCall(m.bytes, m.limit);
            var after := RunLink(link, [call]);
            && LinkInv(after) && Sends(after, m, 0, 0) && after.queued == link.queued + [m]
            && after.aired == link.aired && after.tx.nextId == link.tx.nextId
  {
    var call := EnqueueCall(m.bytes, m.limit);
    StepKeepsLinkInv(link, call);
    assert [call][1..] == [] && RunLink(StepLink(link, call), []) == StepLink(link, call);
    hide Stream, Fragments;
  }

  lemma {:induction false} EverySent(link: Link, messages: seq<Message>)
    requires LinkInv(link) && link.tx.pending.None?
    ensures var after := RunLink(link, Sending(messages));
            && LinkInv(after) && after.tx.pending.None? && after.queued == link.queued + messages
    decreases |messages|
  {
    hide LinkInv, RunLink, Fragments, Airing;
    if messages == [] {
      assert link.queued + messages == link.queued;
      RunNothing(link);
    } else {
      var m, call := messages[0], EnqueueCall(messages[0].bytes, messages[0].limit);
      Queues(link, m);
      var queued := RunLink(link, [call]);
      AllAired(queued, m, 0, 0);
      var aired := RunLink(queued, Airing(m, 0, 0));
      EverySent(aired, messages[1..]);
      RunBoth(link, [call], Airing(m, 0, 0));
      RunBoth(link, [call] + Airing(m, 0, 0), Sending(messages[1..]));
      assert link.queued + [m] + messages[1..] == link.queued + messages;
    }
  }

  lemma RunNothing(link: Link)
    requires LinkInv(link)
    ensures ValidTx(link.tx) && RunLink(link, []) == link
  {}

  /** Any messages can be queued and put on the air whole. */
  lemma SentWhole(messages: seq<Message>)
    ensures var link := RunLink(CONNECTED, Sending(messages));
            link.queued == messages && link.aired == Stream(messages, 0)
  {
    hide RunLink, Sending, Stream;
    ConnectedInv();
    EverySent(CONNECTED, messages);
    var link := RunLink(CONNECTED, Sending(messages));
    assert [] + messages == messages;
    NothingRemains(link);
  }

  lemma NothingRemains(link: Link)
    requires LinkInv(link) && link.tx.pending.None?
    ensures link.aired == Stream(link.queued, 0)
  {
    assert link.aired + [] == link.aired;
  }

  // ---------------------------------------------------------------------------
  // One message too many.

  function Fill(b: byte, n: nat): (bytes: seq<byte>)
    ensures |bytes| == n && forall i :: 0 <= i < n ==> bytes[i] == b
  {
    if n == 0 then [] else [b] + Fill(b, n - 1)
  }

  const SHORT: Message := Queued([7], 20)

  function Shorts(n: nat): (messages: seq<Message>)
    ensures |messages| == n && forall m :: m in messages ==> m == SHORT
  {
    if n == 0 then [] else [SHORT] + Shorts(n - 1)
  }

  function Nothing(n: nat): (arrivals: seq<Arrival>)
    ensures |arrivals| == n
  {
    if n == 0 then [] else [Lost] + Nothing(n - 1)
  }

  /** Two bytes past one fragment's eighteen, so two fragments of each. */
  function Long(fill: byte): Message { Queued(Fill(fill, 20), 20) }

  /** The first message, 255 short ones, and a last one that is given the first one's id. */
  function Crowd(): (messages: seq<Message>)
    ensures |messages| == 257
  {
    [Long(1)] + Shorts(255) + [Long(2)]
  }

  lemma LongFragments(fill: byte, id: byte)
    ensures var m := Long(fill);
            Fragments(id, m.bytes, m.limit, 0, 0) ==
            [[id, 0] + Fill(fill, 18), [id, 1 + BLE_LAST_FLAG] + Fill(fill, 2)]
  {
    var m := Long(fill);
    var front, end: seq<byte> := Fill(fill, 18), Fill(fill, 2);
    assert ChunkEnd(m.bytes, m.limit, 0) == 18 && ChunkEnd(m.bytes, m.limit, 18) == 20;
    assert m.bytes[0..18] == front && m.bytes[18..20] == end;
    assert Fragment(id, m.bytes, m.limit, 0, 0) == [id, 0] + front;
    assert Fragment(id, m.bytes, m.limit, 18, 1) == [id, 1 + BLE_LAST_FLAG] + end;
    hide Fragment;
    assert Fragments(id, m.bytes, m.limit, 18, 1) == [Fragment(id, m.bytes, m.limit, 18, 1)];
    assert Fragments(id, m.bytes, m.limit, 0, 0)
           == [Fragment(id, m.bytes, m.limit, 0, 0)] + Fragments(id, m.bytes, m.limit, 18, 1);
  }

  lemma ShortFragments(id: byte)
    ensures Fragments(id, SHORT.bytes, SHORT.limit, 0, 0) == [[id, BLE_LAST_FLAG, 7]]
  {
    assert SHORT.bytes[0..1] == [7];
    assert [id, BLE_LAST_FLAG] + [7] == [id, BLE_LAST_FLAG, 7];
  }

  lemma {:induction false} ShortStream(n: nat, id: byte)
    ensures |Stream(Shorts(n), id)| == n
    decreases n
  {
    hide Fragments;
    if n > 0 {
      ShortFragments(id);
      ShortStream(n - 1, (id + 1) % 256);
      assert Shorts(n)[1..] == Shorts(n - 1);
    }
  }

  lemma CrowdStream()
    ensures |Stream(Crowd(), 0)| == 259
    ensures Stream(Crowd(), 0)[0] == [0, 0] + Fill(1, 18)
    ensures Stream(Crowd(), 0)[258] == [0, 1 + BLE_LAST_FLAG] + Fill(2, 2)
  {
    hide Stream, Fragments;
    var first, shorts := [Long(1)], Shorts(255);
    StreamSnoc(first + shorts, Long(2), 0);
    LongFragments(1, 0);
    LongFragments(2, 0);
    ShortStream(255, 1);
    StreamCons(Long(1), shorts, 0);
  }

  lemma StreamCons(m: Message, rest: seq<Message>, id: byte)
    ensures Stream([m] + rest, id) == Fragments(id, m.bytes, m.limit, 0, 0) + Stream(rest, (id + 1) % 256)
  {
    hide Fragments;
    assert ([m] + rest)[1..] == rest;
  }

  /** Everything lost between the front of the first message and the end of the last. */
  function Between(n: nat): (arrivals: seq<Arrival>)
    ensures |arrivals| == n + 2
  {
    [Arrives(23, 0)] + Nothing(n) + [Arrives(23, 0)]
  }

  lemma {:induction false} AllLost(rx: Rx, values: seq<seq<byte>>, n: nat, more: seq<Arrival>)
    requires n + |more| <= |values|
    ensures Delivered(rx, values, Nothing(n) + more) == Delivered(rx, values[n..], more)
    decreases n
  {
    hide Receive;
    var arrivals := Nothing(n) + more;
    if n == 0 {
      assert arrivals == more && values[0..] == values;
    } else {
      assert arrivals[0] == Lost && arrivals[1..] == Nothing(n - 1) + more;
      AllLost(rx, values[1..], n - 1, more);
      assert values[1..][n - 1..] == values[n..];
      var rest := Delivered(rx, values[1..], arrivals[1..]);
      assert [] + rest == rest;
    }
  }

  lemma FrontHeard()
    ensures Receive(IDLE, [0, 0] + Fill(1, 18), 23, 0) == (Success(None), Rx(Fill(1, 18), Some(Assembly(0, 1, 0))))
  {
    var value: seq<byte> := [0, 0] + Fill(1, 18);
    assert value[2..] == Fill(1, 18) && [] + Fill(1, 18) == Fill(1, 18);
  }

  lemma EndHeard()
    ensures Receive(Rx(Fill(1, 18), Some(Assembly(0, 1, 0))), [0, 1 + BLE_LAST_FLAG] + Fill(2, 2), 23, 0)
         == (Success(Some(Fill(1, 18) + Fill(2, 2))), Rx(Fill(1, 18) + Fill(2, 2), None))
  {
    var value: seq<byte> := [0, 1 + BLE_LAST_FLAG] + Fill(2, 2);
    var held := Rx(Fill(1, 18), Some(Assembly(0, 1, 0)));
    assert value[2..] == Fill(2, 2) && value[0] == 0 && value[1] == 129;
    assert Expire(held, 0) == held;
    assert Append(held, value, 23, 0) == Success(Rx(Fill(1, 18) + Fill(2, 2), None));
  }

  lemma LastHeard(rx: Rx, value: seq<byte>, said: seq<byte>)
    requires Receive(rx, value, 23, 0).0 == Success(Some(said))
    ensures Delivered(rx, [value], [Arrives(23, 0)]) == [said]
  {
    hide Receive;
    var next := Receive(rx, value, 23, 0).1;
    var arrivals, values := [Arrives(23, 0)], [value];
    assert arrivals[1..] == [] && values[1..] == [];
    assert Delivered(next, values[1..], arrivals[1..]) == [];
  }

  /** What is delivered: the front of the first message with the end of the last behind it. */
  lemma CrowdStitched()
    ensures |Stream(Crowd(), 0)| == 259
    ensures Delivered(IDLE, Stream(Crowd(), 0), Between(257)) == [Fill(1, 18) + Fill(2, 2)]
  {
    hide Receive, Stream, Crowd;
    CrowdStream();
    FrontHeard();
    EndHeard();
    var values, arrivals := Stream(Crowd(), 0), Between(257);
    var held := Rx(Fill(1, 18), Some(Assembly(0, 1, 0)));
    var last := [Arrives(23, 0)];
    assert arrivals[0] == Arrives(23, 0) && arrivals[1..] == Nothing(257) + last;
    AllLost(held, values[1..], 257, last);
    assert values[1..][257..] == [values[258]];
    var stitched := Fill(1, 18) + Fill(2, 2);
    LastHeard(held, values[258], stitched);
    var silence: seq<seq<byte>> := [];
    assert silence + [stitched] == [stitched];
  }

  lemma {:induction false} SubsequenceMember(x: seq<byte>, b: seq<seq<byte>>)
    requires Subsequence([x], b)
    ensures x in b
    decreases |b|
  {
    if b[0] != x { SubsequenceMember(x, b[1..]); }
  }

  lemma {:induction false} ContentsAre(messages: seq<Message>, x: seq<byte>)
    requires x in Contents(messages)
    ensures exists m :: m in messages && m.bytes == x
    decreases |messages|
  {
    if messages[0].bytes != x { ContentsAre(messages[1..], x); }
  }

  lemma NotSent(messages: seq<Message>)
    requires messages == Crowd()
    ensures !Subsequence([Fill(1, 18) + Fill(2, 2)], Contents(messages))
  {
    hide Contents, Fill, Shorts, Subsequence;
    var stitched: seq<byte> := Fill(1, 18) + Fill(2, 2);
    forall m | m in messages ensures m.bytes != stitched {
      assert m == Long(1) || m == SHORT || m == Long(2);
      assert stitched[0] == 1 && stitched[19] == 2;
      assert Long(1).bytes[19] == 1 && Long(2).bytes[0] == 2 && |SHORT.bytes| == 1;
    }
    if Subsequence([stitched], Contents(messages)) {
      SubsequenceMember(stitched, Contents(messages));
      ContentsAre(messages, stitched);
    }
  }

  /** Losses are safe for up to 256 messages on one connection, and for no more than that. */
  lemma SafeExactly(n: nat)
    ensures SafeFor(n) <==> n <= 256
  {
    hide RunLink, Delivered, Contents, Subsequence, Crowd, Stream, Sending, Between;
    if n <= 256 {
      forall calls: seq<Call>, arrivals: seq<Arrival>
        | |RunLink(CONNECTED, calls).queued| <= n && |arrivals| <= |RunLink(CONNECTED, calls).aired|
        ensures Subsequence(Delivered(IDLE, RunLink(CONNECTED, calls).aired, arrivals),
                            Contents(RunLink(CONNECTED, calls).queued))
      {
        DeliveredWholeOrNotAtAll(calls, arrivals);
      }
    } else {
      var calls, arrivals := Sending(Crowd()), Between(257);
      SentWhole(Crowd());
      CrowdStitched();
      NotSent(Crowd());
      assert |RunLink(CONNECTED, calls).queued| <= n;
    }
  }
}
