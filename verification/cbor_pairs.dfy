/**
 Where the pairs of an open map lie in the input. The reader keeps only a map's
 greatest key and where its pairs start; these invariants say that is enough to
 answer any question about a repeated key.
 */
module CborPairs {
  import opened Bytes
  import opened Wrappers
  import opened Limits
  import opened CborHeads
  import opened CborGrammar
  import opened CborWalk

  /** The keys of the whole pairs from `at` to the end of `s`. */
  function Pairs(s: seq<byte>, at: nat): Result<set<KeyRank>, CborError>
    requires at <= |s|
    decreases |s| - at
  {
    if at == |s| then Success({})
    else
      var (head, end) :- DecodeHead(s, at);
      var key :- KeyOf(head);
      var value :- Item(s, end, MAX_DEPTH, false);
      var rest :- Pairs(s, value.end);
      Success({key} + rest)
  }

  /** One more pair behind some pairs. */
  lemma {:induction false} PairsExtend(b: seq<byte>, start: nat, keyAt: nat, valueAt: nat, next: nat, at: nat,
                                       key: KeyRank)
    requires start <= keyAt < valueAt <= next <= |b| && at <= keyAt - start
    requires Pairs(b[start..keyAt], at).Success?
    requires DecodeHead(b, keyAt).Success? && DecodeHead(b, keyAt).value.1 == valueAt
    requires KeyOf(DecodeHead(b, keyAt).value.0) == Success(key)
    requires Item(b, valueAt, MAX_DEPTH, false).Success? && Item(b, valueAt, MAX_DEPTH, false).value.end == next
    ensures Pairs(b[start..next], at) == Success(Pairs(b[start..keyAt], at).value + {key})
    decreases keyAt - at
  {
    hide DecodeHead, Item;
    var s, t := b[start..keyAt], b[start..next];
    if at == |s| {
      HeadLocal(b, keyAt, t, at);
      ItemLocal(b, valueAt, MAX_DEPTH, false, t, valueAt - start);
      assert Pairs(t, |t|) == Success({}) && Pairs(s, at) == Success({});
      assert {key} + {} == {} + {key};
    } else {
      var (head, end) := DecodeHead(s, at).value;
      var value := Item(s, end, MAX_DEPTH, false).value;
      HeadLocal(s, at, t, at);
      ItemLocal(s, end, MAX_DEPTH, false, t, end);
      PairsExtend(b, start, keyAt, valueAt, next, value.end, key);
      var first, rest := {KeyOf(head).value}, Pairs(s, value.end).value;
      assert first + (rest + {key}) == first + rest + {key};
    }
  }

  /** One open container as the reader keeps it. */
  datatype Open = Open(kind: Nesting, remaining: nat, lastKey: Option<KeyRank>, start: nat)

  /** Where a container's head stands, and where the last key read in it does. */
  datatype Mark = Mark(head: nat, keyAt: nat)

  predicate KeysBetween(b: seq<byte>, from: nat, to: nat, keys: set<KeyRank>) {
    from <= to <= |b| && Pairs(b[from..to], 0) == Success(keys)
  }

  /** Whole pairs, then a key whose value starts at `valueAt`. */
  predicate PairOpen(b: seq<byte>, start: nat, keyAt: nat, valueAt: nat, seen: set<KeyRank>) {
    && start <= keyAt < valueAt <= |b|
    && Pairs(b[start..keyAt], 0).Success?
    && DecodeHead(b, keyAt).Success? && DecodeHead(b, keyAt).value.1 == valueAt
    && KeyOf(DecodeHead(b, keyAt).value.0).Success?
    && seen == Pairs(b[start..keyAt], 0).value + {KeyOf(DecodeHead(b, keyAt).value.0).value}
  }

  lemma PairCloses(b: seq<byte>, start: nat, keyAt: nat, valueAt: nat, seen: set<KeyRank>, next: nat)
    requires PairOpen(b, start, keyAt, valueAt, seen)
    requires Item(b, valueAt, MAX_DEPTH, false).Success? && Item(b, valueAt, MAX_DEPTH, false).value.end == next
    ensures KeysBetween(b, start, next, seen)
  {
    hide DecodeHead, Item, Pairs;
    PairsExtend(b, start, keyAt, valueAt, next, 0, KeyOf(DecodeHead(b, keyAt).value.0).value);
  }

  /** If what `frames` owe can be read from `next`, the item at `head` ends where they do. */
  predicate Completes(b: seq<byte>, head: nat, next: nat, frames: seq<Frame>) {
    head <= |b| && next <= |b| && |frames| <= MAX_DEPTH &&
    (Rest(b, next, frames, MAX_DEPTH, false).Success? ==>
       && Item(b, head, MAX_DEPTH, false).Success?
       && Item(b, head, MAX_DEPTH, false).value.end == Rest(b, next, frames, MAX_DEPTH, false).value.end)
  }

  predicate SameShape(open: Open, frame: Frame) {
    open.kind == frame.kind && open.remaining == frame.remaining
  }

  /** Container `i` of the stack lies where the reader thinks it does. */
  predicate Region(b: seq<byte>, next: nat, opens: seq<Open>, frames: seq<Frame>, marks: seq<Mark>, i: nat)
    requires |opens| == |frames| == |marks| <= MAX_DEPTH && i < |frames|
  {
    var innermost := i == |frames| - 1;
    && SameShape(opens[i], frames[i])
    && Completes(b, marks[i].head, next, frames[i..])
    && (frames[i].kind == InMap ==>
          if innermost && frames[i].remaining % 2 == 0 then KeysBetween(b, opens[i].start, next, frames[i].seen)
          else
            && (innermost || frames[i].remaining % 2 == 0)
            && PairOpen(b, opens[i].start, marks[i].keyAt,
                        if innermost then next else marks[i + 1].head, frames[i].seen))
  }

  ghost predicate Regions(b: seq<byte>, next: nat, opens: seq<Open>, frames: seq<Frame>, marks: seq<Mark>) {
    && |opens| == |frames| == |marks| <= MAX_DEPTH && next <= |b|
    && forall i :: 0 <= i < |frames| ==> Region(b, next, opens, frames, marks, i)
  }

  lemma CompletesBelow(b: seq<byte>, head: nat, next: nat, frames: seq<Frame>)
    requires frames != [] && Last(frames).remaining == 0 && Completes(b, head, next, frames)
    ensures Completes(b, head, next, Front(frames))
  {
    hide Item;
    var top := Last(frames);
    assert frames == Front(frames) + [top];
    OwedNothing(b, next, top.kind, top.seen, MAX_DEPTH - |frames|, false);
    RestTop(b, next, Front(frames), top, MAX_DEPTH, false);
  }

  /** Closing a finished container closes the pair it was the value of. */
  lemma PopKeepsRegions(b: seq<byte>, next: nat, opens: seq<Open>, frames: seq<Frame>, marks: seq<Mark>)
    requires Regions(b, next, opens, frames, marks) && frames != [] && Last(frames).remaining == 0
    ensures Regions(b, next, Front(opens), Front(frames), Front(marks))
  {
    hide Item, Rest, PairOpen, KeysBetween;
    var n := |frames|;
    forall i | 0 <= i < n - 1 ensures Region(b, next, Front(opens), Front(frames), Front(marks), i) {
      assert Region(b, next, opens, frames, marks, i);
      assert Front(frames[i..]) == Front(frames)[i..];
      CompletesBelow(b, marks[i].head, next, frames[i..]);
      if i == n - 2 && frames[i].kind == InMap {
        assert Region(b, next, opens, frames, marks, n - 1);
        assert frames[n - 1..] == [Last(frames)];
        ItemFinished(b, marks[n - 1].head, next, Last(frames));
        PairCloses(b, opens[i].start, marks[i].keyAt, marks[n - 1].head, frames[i].seen, next);
      }
    }
  }

  lemma ItemFinished(b: seq<byte>, head: nat, next: nat, top: Frame)
    requires Completes(b, head, next, [top]) && top.remaining == 0
    ensures Item(b, head, MAX_DEPTH, false).Success? && Item(b, head, MAX_DEPTH, false).value.end == next
  {
    hide Item;
    CompletesBelow(b, head, next, [top]);
    assert Front([top]) == [];
  }

  // ---------------------------------------------------------------------------
  // One head read.

  function CountedOpens(opens: seq<Open>): (counted: seq<Open>)
    ensures |counted| == |opens|
  {
    if opens == [] || Last(opens).remaining == 0 then opens
    else Front(opens) + [Last(opens).(remaining := Last(opens).remaining - 1)]
  }

  /** The reader's stack after a head: a key takes its place as `lastKey` says, a container is pushed. */
  function OpensAfter(opens: seq<Open>, head: Head, end: nat, lastKey: Option<KeyRank>): seq<Open> {
    if opens != [] && ExpectsKey(Last(opens).kind, Last(opens).remaining) then
      CountedOpens(Front(opens) + [Last(opens).(lastKey := lastKey)])
    else
      match Owes(head)
      case None => CountedOpens(opens)
      case Some((kind, items)) => CountedOpens(opens) + [Open(kind, items, None, end)]
  }

  function MarksAfter(frames: seq<Frame>, marks: seq<Mark>, head: Head, at: nat): seq<Mark>
    requires |marks| == |frames|
  {
    if AtKey(frames) then Front(marks) + [Last(marks).(keyAt := at)]
    else if Owes(head).None? then marks
    else marks + [Mark(at, at)]
  }

  lemma SnocAbove<T>(s: seq<T>, x: T, i: nat)
    requires i <= |s|
    ensures (s + [x])[i..] == s[i..] + [x]
  {}

  lemma TopAbove<T>(s: seq<T>, i: nat)
    requires i < |s|
    ensures Front(s[i..]) == Front(s)[i..] && Last(s[i..]) == Last(s)
  {}

  lemma CountedAbove(frames: seq<Frame>, i: nat)
    requires i < |frames|
    ensures Counted(frames)[i..] == Counted(frames[i..])
  {
    TopAbove(frames, i);
    SnocAbove(Front(frames), Last(Counted(frames)), i);
  }

  lemma AfterHeadAbove(frames: seq<Frame>, head: Head, i: nat)
    requires i < |frames| <= MAX_DEPTH && Last(frames).remaining > 0 && AfterHead(frames, MAX_DEPTH, head).Success?
    ensures AfterHead(frames[i..], MAX_DEPTH, head) == Success(AfterHead(frames, MAX_DEPTH, head).value[i..])
  {
    hide Counted;
    TopAbove(frames, i);
    if AtKey(frames) {
      var keyed := WithKey(frames, KeyOf(head).value);
      SnocAbove(Front(frames), Last(keyed), i);
      CountedAbove(keyed, i);
    } else {
      CountedAbove(frames, i);
      if Owes(head).Some? {
        SnocAbove(Counted(frames), Frame(Owes(head).value.0, Owes(head).value.1, {}), i);
      }
    }
  }

  lemma CompletesStep(b: seq<byte>, item: nat, at: nat, frames: seq<Frame>)
    requires Completes(b, item, at, frames) && frames != [] && Last(frames).remaining > 0
    requires DecodeHead(b, at).Success? && AfterHead(frames, MAX_DEPTH, DecodeHead(b, at).value.0).Success?
    ensures var (head, end) := DecodeHead(b, at).value;
            Completes(b, item, end, AfterHead(frames, MAX_DEPTH, head).value)
  {
    hide DecodeHead, Item, Rest;
    RestStep(b, at, frames, MAX_DEPTH, false);
  }

  lemma CompletesOpening(b: seq<byte>, at: nat)
    requires at <= |b| && DecodeHead(b, at).Success? && Owes(DecodeHead(b, at).value.0).Some?
    ensures var (head, end) := DecodeHead(b, at).value;
            var (kind, items) := Owes(head).value;
            Completes(b, at, end, [Frame(kind, items, {})])
  {
    hide DecodeHead, Item, Rest;
    ItemStep(b, at, MAX_DEPTH, false);
    var (kind, items) := Owes(DecodeHead(b, at).value.0).value;
    assert Counted([]) + [Frame(kind, items, {})] == [Frame(kind, items, {})];
  }

  /** A key read: the pairs before it stand, and its value is to come. */
  lemma KeyKeepsRegions(b: seq<byte>, at: nat, opens: seq<Open>, frames: seq<Frame>, marks: seq<Mark>,
                        lastKey: Option<KeyRank>)
    requires Regions(b, at, opens, frames, marks) && AtKey(frames) && Last(frames).remaining > 0
    requires DecodeHead(b, at).Success? && KeyOf(DecodeHead(b, at).value.0).Success?
    ensures var (head, end) := DecodeHead(b, at).value;
            Regions(b, end, OpensAfter(opens, head, end, lastKey), AfterHead(frames, MAX_DEPTH, head).value,
                    MarksAfter(frames, marks, head, at))
  {
    hide DecodeHead, Rest, Pairs, Completes, PairOpen, KeysBetween, AfterHead;
    var (head, end) := DecodeHead(b, at).value;
    var n := |frames|;
    KeyedStack(frames, head);
    var opensAfter, framesAfter, marksAfter :=
      OpensAfter(opens, head, end, lastKey), AfterHead(frames, MAX_DEPTH, head).value,
      MarksAfter(frames, marks, head, at);
    assert Region(b, at, opens, frames, marks, n - 1);
    KeyOpensPair(b, opens[n - 1].start, at, frames[n - 1].seen);
    forall i | 0 <= i < n ensures Region(b, end, opensAfter, framesAfter, marksAfter, i) {
      assert Region(b, at, opens, frames, marks, i);
      AfterHeadAbove(frames, head, i);
      assert Last(frames[i..]) == Last(frames);
      CompletesStep(b, marks[i].head, at, frames[i..]);
      if i < n - 2 { assert marksAfter[i + 1] == marks[i + 1]; }
    }
  }

  lemma KeyedStack(frames: seq<Frame>, head: Head)
    requires AtKey(frames) && Last(frames).remaining > 0 && KeyOf(head).Success?
    ensures AfterHead(frames, MAX_DEPTH, head)
         == Success(Front(frames) + [Frame(InMap, Last(frames).remaining - 1, Last(frames).seen + {KeyOf(head).value})])
  {}

  lemma KeyOpensPair(b: seq<byte>, start: nat, at: nat, seen: set<KeyRank>)
    requires KeysBetween(b, start, at, seen) && DecodeHead(b, at).Success? && KeyOf(DecodeHead(b, at).value.0).Success?
    ensures var (head, end) := DecodeHead(b, at).value;
            PairOpen(b, start, at, end, seen + {KeyOf(head).value})
  {
    hide DecodeHead, Pairs;
  }

  lemma ScalarKeepsRegions(b: seq<byte>, at: nat, opens: seq<Open>, frames: seq<Frame>, marks: seq<Mark>,
                           lastKey: Option<KeyRank>)
    requires Regions(b, at, opens, frames, marks) && frames != [] && !AtKey(frames) && Last(frames).remaining > 0
    requires DecodeHead(b, at).Success? && Owes(DecodeHead(b, at).value.0).None?
    ensures var (head, end) := DecodeHead(b, at).value;
            Regions(b, end, OpensAfter(opens, head, end, lastKey), Counted(frames), marks)
  {
    hide DecodeHead, Rest, Pairs, Completes, PairOpen, KeysBetween;
    var (head, end) := DecodeHead(b, at).value;
    var n := |frames|;
    var opensAfter, framesAfter := OpensAfter(opens, head, end, lastKey), Counted(frames);
    assert Region(b, at, opens, frames, marks, n - 1);
    forall i | 0 <= i < n ensures Region(b, end, opensAfter, framesAfter, marks, i) {
      assert Region(b, at, opens, frames, marks, i);
      AfterHeadAbove(frames, head, i);
      assert Last(frames[i..]) == Last(frames);
      CompletesStep(b, marks[i].head, at, frames[i..]);
      if i == n - 1 && frames[i].kind == InMap {
        PairCloses(b, opens[i].start, marks[i].keyAt, at, frames[i].seen, end);
      }
    }
  }

  lemma OpeningKeepsRegions(b: seq<byte>, at: nat, opens: seq<Open>, frames: seq<Frame>, marks: seq<Mark>,
                            lastKey: Option<KeyRank>)
    requires Regions(b, at, opens, frames, marks) && |frames| < MAX_DEPTH
    requires !AtKey(frames) && (frames == [] || Last(frames).remaining > 0)
    requires DecodeHead(b, at).Success? && Owes(DecodeHead(b, at).value.0).Some?
    ensures var (head, end) := DecodeHead(b, at).value;
            Regions(b, end, OpensAfter(opens, head, end, lastKey), AfterHead(frames, MAX_DEPTH, head).value,
                    marks + [Mark(at, at)])
  {
    hide DecodeHead, Item, Rest, Completes, PairOpen;
    var (head, end) := DecodeHead(b, at).value;
    var n := |frames|;
    var opensAfter, framesAfter, marksAfter :=
        OpensAfter(opens, head, end, lastKey), AfterHead(frames, MAX_DEPTH, head).value,
                                   marks + [Mark(at, at)];
    if n > 0 { assert Region(b, at, opens, frames, marks, n - 1); }
    forall i | 0 <= i <= n ensures Region(b, end, opensAfter, framesAfter, marksAfter, i) {
      if i < n {
        assert Region(b, at, opens, frames, marks, i);
        AfterHeadAbove(frames, head, i);
        assert Last(frames[i..]) == Last(frames);
        CompletesStep(b, marks[i].head, at, frames[i..]);
      } else {
        CompletesOpening(b, at);
        assert framesAfter[n..] == [Last(framesAfter)];
        assert b[end..end] == [];
      }
    }
  }

  /** Whatever head is read, the stack goes on saying where its containers lie. */
  lemma StepKeepsRegions(b: seq<byte>, at: nat, opens: seq<Open>, frames: seq<Frame>, marks: seq<Mark>,
                         lastKey: Option<KeyRank>)
    requires Regions(b, at, opens, frames, marks) && (frames == [] || Last(frames).remaining > 0)
    requires DecodeHead(b, at).Success? && AfterHead(frames, MAX_DEPTH, DecodeHead(b, at).value.0).Success?
    ensures var (head, end) := DecodeHead(b, at).value;
            Regions(b, end, OpensAfter(opens, head, end, lastKey), AfterHead(frames, MAX_DEPTH, head).value,
                    MarksAfter(frames, marks, head, at))
  {
    hide DecodeHead, Region;
    if AtKey(frames) {
      KeyKeepsRegions(b, at, opens, frames, marks, lastKey);
    } else if Owes(DecodeHead(b, at).value.0).Some? {
      OpeningKeepsRegions(b, at, opens, frames, marks, lastKey);
    } else if frames != [] {
      ScalarKeepsRegions(b, at, opens, frames, marks, lastKey);
    }
  }
}
