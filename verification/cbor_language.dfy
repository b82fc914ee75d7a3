/**
 Which runs of calls make a message: exactly those whose accepted calls are the calls
 of one sound tree. A finished message is therefore in deterministic form: its counts
 are kept, and in every map the keys ascend.
 */
module CborLanguage {
  import opened Bytes
  import opened Wrappers
  import opened Limits
  import opened CborHeads
  import opened CborGrammar
  import opened CborWalk
  import opened CborPairs
  import opened CborReaders
  import opened CborWriters
  import opened CborRoundTrip
  import opened CborTrees

  // ---------------------------------------------------------------------------
  // Parsing a run that is never refused.

  /** Run through to a finished message. */
  predicate Finishes(s: WriterState, capacity: nat, calls: seq<Call>) {
    var end := WriteThrough(s, capacity, calls);
    end.Success? && SettleOpens(end.value.opens) == [] && end.value.out != []
  }

  lemma FirstAccepted(s: WriterState, capacity: nat, calls: seq<Call>)
    requires Finishes(s, capacity, calls) && calls != []
    ensures Write(s, capacity, calls[0]).0.Success?
    ensures Finishes(Write(s, capacity, calls[0]).1, capacity, calls[1..])
    ensures WriteThrough(s, capacity, calls[..1]) == Success(Write(s, capacity, calls[0]).1)
  {
    hide Write, SettleOpens;
    assert calls[..1] == [calls[0]] && calls[..1][1..] == [];
  }

  /** A run split after its first calls. */
  lemma FinishesOn(s: WriterState, capacity: nat, calls: seq<Call>, n: nat)
    requires Finishes(s, capacity, calls) && n <= |calls|
    ensures WriteThrough(s, capacity, calls[..n]).Success?
    ensures Finishes(WriteThrough(s, capacity, calls[..n]).value, capacity, calls[n..])
  {
    hide Write, SettleOpens;
    assert calls == calls[..n] + calls[n..];
    ThroughBoth(s, capacity, calls[..n], calls[n..]);
  }

  /** The first call of a run where a value is due: a leaf, or a container with room for it. */
  lemma ValueCall(s: WriterState, capacity: nat, call: Call, room: nat)
    requires AtValue(s, room) && |SettleOpens(s.opens)| + room == MAX_DEPTH && Write(s, capacity, call).0.Success?
    ensures !call.PutKey? && (call.PutArray? || call.PutMap? || (LeafCall(call) && Height(Leaf(call)) <= room))
    ensures call.PutArray? || call.PutMap? ==> room > 0
    ensures call.PutMap? ==> 2 * call.pairs <= USIZE_MAX
    ensures var after := Write(s, capacity, call).1;
            && after.out != []
            && after.opens == CountedOpens(SettleOpens(s.opens)) +
                              (if call.PutArray? then [Open(InArray, call.len, None, 0)]
                               else if call.PutMap? then [Open(InMap, 2 * call.pairs, None, 0)] else [])
  {
    hide Item, SettleOpens, CountedOpens;
    LeafEmission(call);
    var counted := CountedOpens(SettleOpens(s.opens));
    assert counted + [] == counted;
  }

  lemma LeafEmission(call: Call)
    requires call.PutKey? ==> call.key >= 0
    ensures !call.PutRaw? ==> Emission(call) != []
    ensures call.PutRaw? && WholeItem(call.item) ==> Emission(call) != []
  {
    hide Item;
  }

  lemma {:induction false} ValueParsed(s: WriterState, capacity: nat, calls: seq<Call>, room: nat)
    returns (t: Tree, n: nat)
    requires Finishes(s, capacity, calls) && AtValue(s, room) && |SettleOpens(s.opens)| + room == MAX_DEPTH
    requires calls != []
    ensures 0 < n <= |calls| && Shaped(t) && Ordered(t) && Height(t) <= room && TreeCalls(t) == calls[..n]
    ensures WriteThrough(s, capacity, calls[..n]).Success?
    ensures WriteThrough(s, capacity, calls[..n]).value.out != []
    ensures SettleOpens(WriteThrough(s, capacity, calls[..n]).value.opens) == Onward(s.opens)
    decreases |calls|, 0
  {
    hide Write, WriteThrough, SettleOpens, CountedOpens, Finishes, LeafCall;
    FirstAccepted(s, capacity, calls);
    var call, after, rest := calls[0], Write(s, capacity, calls[0]).1, calls[1..];
    var base := CountedOpens(SettleOpens(s.opens));
    ValueCall(s, capacity, call, room);
    if call.PutArray? {
      var items, k := ItemsParsed(after, capacity, rest, call.len, room - 1, base);
      t, n := List(items), 1 + k;
      assert calls[..n] == [call] + rest[..k] && calls[..1] == [call];
      ThroughBoth(s, capacity, [call], rest[..k]);
    } else if call.PutMap? {
      var others, k := PairsParsed(after, capacity, rest, 2 * call.pairs, -1, room - 1, base);
      t, n := Dict(others), 1 + k;
      assert calls[..n] == [call] + rest[..k] && calls[..1] == [call];
      ThroughBoth(s, capacity, [call], rest[..k]);
    } else {
      t, n := Leaf(call), 1;
      assert base + [] == base && calls[..1] == [call];
    }
  }

  lemma {:induction false} ItemsParsed(s: WriterState, capacity: nat, calls: seq<Call>, owed: nat, room: nat,
                                       base: seq<Open>)
    returns (items: Items, n: nat)
    requires Finishes(s, capacity, calls) && s.out != [] && owed <= USIZE_MAX
    requires SettleOpens(s.opens) == SettleOpens(base + [Open(InArray, owed, None, 0)])
    requires |base| + 1 + room == MAX_DEPTH
    ensures n <= |calls| && ShapedItems(items) && OrderedItems(items) && ItemsHeight(items) <= room
    ensures ItemCount(items) == owed && ItemCalls(items) == calls[..n]
    ensures WriteThrough(s, capacity, calls[..n]).Success?
    ensures WriteThrough(s, capacity, calls[..n]).value.out != []
    ensures SettleOpens(WriteThrough(s, capacity, calls[..n]).value.opens) == SettleOpens(base)
    decreases |calls|, 1
  {
    hide Write, WriteThrough, SettleOpens, CountedOpens, Finishes;
    TopOwes(base, Open(InArray, owed, None, 0));
    if owed == 0 {
      items, n := NoItem, 0;
      NothingWritten(s, capacity);
      assert calls[..0] == [];
    } else {
      Unfinished(s, capacity, calls);
      var head, k := ValueParsed(s, capacity, calls, room);
      FinishesOn(s, capacity, calls, k);
      var after := WriteThrough(s, capacity, calls[..k]).value;
      var more, m := ItemsParsed(after, capacity, calls[k..], owed - 1, room, base);
      items, n := AnItem(head, more), k + m;
      assert calls[..n] == calls[..k] + calls[k..][..m];
      ThroughBoth(s, capacity, calls[..k], calls[k..][..m]);
    }
  }

  /** With a container still owing something there are calls to come. */
  lemma Unfinished(s: WriterState, capacity: nat, calls: seq<Call>)
    requires Finishes(s, capacity, calls) && SettleOpens(s.opens) != []
    ensures calls != []
  {}

  lemma {:induction false} PairsParsed(s: WriterState, capacity: nat, calls: seq<Call>, owed: nat, last: int, room: nat,
                                       base: seq<Open>)
    returns (pairs: KeyedItems, n: nat)
    requires Finishes(s, capacity, calls) && s.out != [] && owed <= USIZE_MAX && owed % 2 == 0 && last <= I64_MAX
    requires SettleOpens(s.opens) == SettleOpens(base + [Open(InMap, owed, LastKey(last), 0)])
    requires |base| + 1 + room == MAX_DEPTH && -1 <= last
    ensures n <= |calls| && ShapedPairs(pairs) && OrderedPairs(pairs, last) && PairsHeight(pairs) <= room
    ensures 2 * PairCount(pairs) == owed && PairCalls(pairs) == calls[..n]
    ensures WriteThrough(s, capacity, calls[..n]).Success?
    ensures WriteThrough(s, capacity, calls[..n]).value.out != []
    ensures SettleOpens(WriteThrough(s, capacity, calls[..n]).value.opens) == SettleOpens(base)
    decreases |calls|, 1
  {
    hide Write, WriteThrough, SettleOpens, CountedOpens, Finishes, LastKey;
    TopOwes(base, Open(InMap, owed, LastKey(last), 0));
    if owed == 0 {
      pairs, n := NoPair, 0;
      NothingWritten(s, capacity);
      assert calls[..0] == [];
    } else {
      Unfinished(s, capacity, calls);
      FirstAccepted(s, capacity, calls);
      KeyCall(s, capacity, calls[0], owed, last, base);
      var keyed, key := Write(s, capacity, calls[0]).1, calls[0].key;
      TopOwes(base, Open(InMap, owed - 1, LastKey(key), 0));
      Unfinished(keyed, capacity, calls[1..]);
      var value, k := ValueParsed(keyed, capacity, calls[1..], room);
      FinishesOn(keyed, capacity, calls[1..], k);
      var after := WriteThrough(keyed, capacity, calls[1..][..k]).value;
      var others, m := PairsParsed(after, capacity, calls[1..][k..], owed - 2, key, room, base);
      pairs, n := APair(key, value, others), 1 + k + m;
      CallsJoin(calls, k, m);
      ThroughBoth(s, capacity, [calls[0]], calls[1..][..k]);
      ThroughBoth(s, capacity, [calls[0]] + calls[1..][..k], calls[1..][k..][..m]);
    }
  }

  lemma CallsJoin(calls: seq<Call>, k: nat, m: nat)
    requires calls != [] && k <= |calls| - 1 && m <= |calls| - 1 - k
    ensures calls[..1 + k + m] == [calls[0]] + calls[1..][..k] + calls[1..][k..][..m] && calls[..1] == [calls[0]]
  {}

  /** The call accepted where a key is due is a key above the last one. */
  lemma KeyCall(s: WriterState, capacity: nat, call: Call, owed: nat, last: int, base: seq<Open>)
    requires Write(s, capacity, call).0.Success? && -1 <= last <= I64_MAX && owed > 0 && owed % 2 == 0
    requires SettleOpens(s.opens) == base + [Open(InMap, owed, LastKey(last), 0)]
    ensures call.PutKey? && last < call.key
    ensures Write(s, capacity, call).1.opens == base + [Open(InMap, owed - 1, LastKey(call.key), 0)]
    ensures Write(s, capacity, call).1.out != []
  {
    hide SettleOpens, Item;
    LeafEmission(call);
    var top := Open(InMap, owed, LastKey(last), 0);
    assert Last(base + [top]) == top && Front(base + [top]) == base;
    if call.PutKey? {
      var taken := top.(lastKey := Some(KeyRank(false, call.key)));
      assert Last(base + [taken]) == taken && Front(base + [taken]) == base;
    }
  }

  // ---------------------------------------------------------------------------
  // Refused calls among the accepted.

  /** The same writer but for finished containers left on the stack and keys recorded by calls refused for room. */
  predicate Looser(s: WriterState, t: WriterState) {
    && s.out == t.out && |SettleOpens(s.opens)| == |SettleOpens(t.opens)|
    && forall i :: 0 <= i < |SettleOpens(s.opens)| ==> LooserOpen(SettleOpens(s.opens)[i], SettleOpens(t.opens)[i])
  }

  predicate LooserOpen(a: Open, b: Open) {
    && a.kind == b.kind && a.remaining == b.remaining && a.start == b.start
    && (b.lastKey.Some? ==> a.lastKey.Some? && AtMost(b.lastKey.value, a.lastKey.value))
  }

  lemma LooserShape(s: WriterState, t: WriterState)
    requires Looser(s, t)
    ensures AtKeyOpens(SettleOpens(s.opens)) == AtKeyOpens(SettleOpens(t.opens))
    ensures SettleOpens(s.opens) == [] <==> SettleOpens(t.opens) == []
    ensures SettleOpens(s.opens) != [] ==> LooserOpen(Last(SettleOpens(s.opens)), Last(SettleOpens(t.opens)))
  {
    hide SettleOpens;
  }

  lemma SettledOnce(opens: seq<Open>)
    ensures SettleOpens(SettleOpens(opens)) == SettleOpens(opens)
  {}

  /** Two stacks alike but for their last keys stay so through the same change at the top. */
  predicate Alike(a: seq<Open>, b: seq<Open>) {
    |a| == |b| && forall i :: 0 <= i < |a| ==> LooserOpen(a[i], b[i])
  }

  lemma {:induction false} SettledAlike(a: seq<Open>, b: seq<Open>)
    requires Alike(a, b)
    ensures Alike(SettleOpens(a), SettleOpens(b))
    decreases |a|
  {
    if a != [] && Last(a).remaining == 0 { SettledAlike(Front(a), Front(b)); }
  }

  lemma EnteredAlike(a: seq<Open>, b: seq<Open>, call: Call)
    requires Alike(a, b) && (call.PutKey? ==> a != [] && call.key >= 0)
    ensures Alike(Entered(TakenKey(a, call), call), Entered(TakenKey(b, call), call))
  {}

  /** What one writer accepts the other accepts, and they go on alike. */
  lemma AcceptedByBoth(s: WriterState, t: WriterState, capacity: nat, call: Call)
    requires Looser(s, t) && Write(s, capacity, call).0.Success?
    ensures Write(t, capacity, call).0.Success? && Looser(Write(s, capacity, call).1, Write(t, capacity, call).1)
  {
    hide SettleOpens, Emission, LooserOpen, TakenKey, Entered, RawRefusal, AtMost;
    LooserShape(s, t);
    var a, b := SettleOpens(s.opens), SettleOpens(t.opens);
    KeyByBoth(a, b, call);
    EnteredAlike(a, b, call);
    SettledAlike(Entered(TakenKey(a, call), call), Entered(TakenKey(b, call), call));
  }

  /** A refusal follows from what both stacks have in common, or from a key the looser one has not recorded. */
  lemma KeyByBoth(a: seq<Open>, b: seq<Open>, call: Call)
    requires Alike(a, b)
    ensures forall out :: Refusal(WriterState(out, a), call).None? ==> Refusal(WriterState(out, b), call).None?
  {
    hide Item;
    if a != [] { assert LooserOpen(a[|a| - 1], b[|b| - 1]); }
  }

  lemma RefusedKeepsLooser(s: WriterState, t: WriterState, capacity: nat, call: Call)
    requires Looser(s, t) && Write(s, capacity, call).0.Failure?
    ensures Looser(Write(s, capacity, call).1, t)
  {
    hide Emission, RawRefusal, Item;
    SettledOnce(s.opens);
    var settled := SettleOpens(s.opens);
    if settled != [] {
      LooserShape(s, t);
      var taken := TakenKey(settled, if call.PutKey? && call.key >= 0 then call else PutBool(true));
      assert SettleOpens(taken) == taken;
    }
  }

  /** The accepted calls alone make the same message. */
  lemma {:induction false} AcceptedAlone(s: WriterState, t: WriterState, capacity: nat, calls: seq<Call>)
    requires Looser(s, t)
    ensures WriteThrough(t, capacity, Accepted(s, capacity, calls)).Success?
    ensures Looser(WriteAll(s, capacity, calls), WriteThrough(t, capacity, Accepted(s, capacity, calls)).value)
    decreases |calls|
  {
    hide Write, Looser;
    if calls != [] {
      var call, rest := calls[0], calls[1..];
      var (answer, after) := Write(s, capacity, call);
      if answer.Success? {
        AcceptedByBoth(s, t, capacity, call);
        AcceptedAlone(after, Write(t, capacity, call).1, capacity, rest);
        var later := Accepted(after, capacity, rest);
        assert ([call] + later)[1..] == later;
      } else {
        RefusedKeepsLooser(s, t, capacity, call);
        AcceptedAlone(after, t, capacity, rest);
        assert [] + Accepted(after, capacity, rest) == Accepted(after, capacity, rest);
      }
    }
  }

  lemma NothingAfter(s: WriterState, capacity: nat, calls: seq<Call>)
    requires Finishes(s, capacity, calls) && SettleOpens(s.opens) == [] && s.out != []
    ensures calls == []
  {
    hide SettleOpens;
    if calls != [] { FirstAccepted(s, capacity, calls); }
  }

  /**
   Whatever is called, refused calls among them, a message that finishes with
   something in it is exactly one sound tree: its accepted calls are that tree's
   calls, in order, so its counts are kept and every map's keys ascend.
   */
  lemma FinishedIsTree(capacity: nat, calls: seq<Call>) returns (t: Tree)
    requires Close(WriteAll(EMPTY, capacity, calls)).Success? && WriteAll(EMPTY, capacity, calls).out != []
    ensures Sound(t) && TreeCalls(t) == Accepted(EMPTY, capacity, calls)
    ensures TreeSize(t) == |WriteAll(EMPTY, capacity, calls).out| <= capacity
  {
    hide Write, WriteThrough, WriteAll, TreeCalls, TreeSize;
    var accepted := Accepted(EMPTY, capacity, calls);
    AcceptedAlone(EMPTY, EMPTY, capacity, calls);
    var end := WriteThrough(EMPTY, capacity, accepted).value;
    LooserShape(WriteAll(EMPTY, capacity, calls), end);
    if accepted == [] { NothingWritten(EMPTY, capacity); }
    var n: nat;
    t, n := ValueParsed(EMPTY, capacity, accepted, MAX_DEPTH);
    FinishesOn(EMPTY, capacity, accepted, n);
    NothingAfter(WriteThrough(EMPTY, capacity, accepted[..n]).value, capacity, accepted[n..]);
    assert accepted[..n] == accepted;
    TreeRoundTrip(t, capacity);
  }
}
