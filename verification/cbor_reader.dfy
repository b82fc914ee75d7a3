/**
 The reader of one message, specified with the set of keys of every open map and
 implemented with one key and one offset for each.
 */
module CborReaders {
  import opened Bytes
  import opened Wrappers
  import opened Limits
  import opened CborHeads
  import opened CborGrammar
  import opened CborWalk
  import opened CborPairs

  // ---------------------------------------------------------------------------
  // Specification: the naive reader, which remembers every key of every open map.

  /**
   Where a reader stands. `unsettled`: the last key read repeats one of its map,
   and its value has not been read. `skipped`: such a key's value was skipped.
   */
  datatype ReaderState = ReaderState(next: nat, frames: seq<Frame>, deepest: nat, unsettled: bool, skipped: bool)

  const START: ReaderState := ReaderState(0, [], 0, false, false)

  predicate Within(b: seq<byte>, s: ReaderState) {
    s.next <= |b| && |s.frames| <= s.deepest <= MAX_DEPTH
  }

  /** One head. A walk refuses a repeated key at once; a decoder is given its own chance to name it. */
  function ReadHead(b: seq<byte>, s: ReaderState, dups: bool, walking: bool)
    : (r: Result<(Head, ReaderState), CborError>)
    requires Within(b, s)
    ensures r.Success? ==> Within(b, r.value.1) && r.value.1.next > s.next
  {
    if !walking && s.skipped then Failure(RepeatedKey)
    else
      var frames := Settle(s.frames);
      var (head, end) :- DecodeHead(b, s.next);
      if AtKey(frames) && KeyOf(head).Failure? then Failure(KeyOf(head).error)
      else
        var repeats := dups && Repeats(frames, head);
        if walking && repeats then Failure(RepeatedKey)
        else
          var after :- AfterHead(frames, MAX_DEPTH, head);
          Success((head, ReaderState(end, after, Max(s.deepest, |after|),
                                     if walking then s.unsettled else repeats, walking && s.skipped)))
  }

  /** One whole item, or a key where one is due, by the recursive grammar. */
  function WalkItem(b: seq<byte>, s: ReaderState, dups: bool): (r: Result<ReaderState, CborError>)
    requires Within(b, s)
    ensures r.Success? ==> Within(b, r.value) && r.value.next > s.next
  {
    var frames := Settle(s.frames);
    if AtKey(frames) then
      var (head, after) :- ReadHead(b, s, dups, true);
      Success(after)
    else
      var w :- Item(b, s.next, MAX_DEPTH - |frames|, dups);
      Success(ReaderState(w.end, Settle(Counted(frames)), Max(s.deepest, Above(|frames|, w.height)), s.unsettled,
                          s.skipped))
  }

  function SkipItem(b: seq<byte>, s: ReaderState, dups: bool): (r: Result<ReaderState, CborError>)
    requires Within(b, s)
    ensures r.Success? ==> Within(b, r.value) && r.value.next > s.next
  {
    if s.skipped then Failure(RepeatedKey)
    else WalkItem(b, s.(skipped := s.unsettled, unsettled := false), dups)
  }

  function Finished(b: seq<byte>, s: ReaderState): Result<(), CborError> {
    if s.skipped then Failure(RepeatedKey)
    else if Settle(s.frames) != [] then Failure(Unfinished)
    else if s.next < |b| then Failure(TrailingBytes)
    else Success(())
  }

  function AsArray(h: Head): Result<nat, CborError> {
    if h.Array? then Success(h.count) else Failure(WrongType)
  }

  function AsMap(h: Head): Result<nat, CborError> {
    if h.Map? then Success(h.pairs) else Failure(WrongType)
  }

  const I64_MAX: nat := 0x7FFF_FFFF_FFFF_FFFF

  function NegativeValue(arg: u64): Result<int, CborError> {
    if arg > I64_MAX then Failure(IntegerOutOfRange) else Success(-1 - arg)
  }

  function AsKey(h: Head): Result<int, CborError> {
    match h
    case Unsigned(arg) => if arg > I64_MAX then Failure(IntegerOutOfRange) else Success(arg)
    case Negative(arg) => NegativeValue(arg)
    case _ => Failure(KeyNotInteger)
  }

  /** An unsigned integer no greater than `max`: the reads of every unsigned width. */
  function AsUnsigned(h: Head, max: nat): Result<nat, CborError> {
    match h
    case Unsigned(arg) => if arg > max then Failure(IntegerOutOfRange) else Success(arg)
    case Negative(_) => Failure(IntegerOutOfRange)
    case _ => Failure(WrongType)
  }

  function AsI32(h: Head): Result<int, CborError> {
    match h
    case Unsigned(arg) => if arg > 0x7FFF_FFFF then Failure(IntegerOutOfRange) else Success(arg)
    case Negative(arg) =>
      var value :- NegativeValue(arg);
      if value < -0x8000_0000 then Failure(IntegerOutOfRange) else Success(value)
    case _ => Failure(WrongType)
  }

  function AsBool(h: Head): Result<bool, CborError> {
    if h.Bool? then Success(h.value) else Failure(WrongType)
  }

  function AsBytes(h: Head): Result<seq<byte>, CborError> {
    if h.Bytes? then Success(h.raw) else Failure(WrongType)
  }

  function AsText(h: Head): Result<seq<byte>, CborError> {
    if h.Text? then Success(h.raw) else Failure(WrongType)
  }

  /** A head read as the field that carries it. */
  function ReadAs<T>(b: seq<byte>, s: ReaderState, field: Head -> Result<T, CborError>):
    (r: Result<(T, ReaderState), CborError>)
    requires Within(b, s)
    ensures r.Success? ==> Within(b, r.value.1) && r.value.1.next > s.next
  {
    var (head, after) :- ReadHead(b, s, true, false);
    var value :- field(head);
    Success((value, after))
  }

  /** An unsigned integer no greater than `max`. */
  function ReadNumber(b: seq<byte>, s: ReaderState, max: nat): (r: Result<(nat, ReaderState), CborError>)
    requires Within(b, s)
    ensures r.Success? ==> Within(b, r.value.1) && r.value.1.next > s.next && r.value.0 <= max
  {
    ReadAs(b, s, (h: Head) => AsUnsigned(h, max))
  }

  // ---------------------------------------------------------------------------
  // The walk against the grammar.

  /** An item's walk so far: what the open containers owe decides how the item turns out. */
  predicate Agrees(item: Result<Walked, CborError>, from: nat, floor: nat, rest: Result<Walked, CborError>,
                   deepest: nat) {
    match rest
    case Failure(why) => item == Failure(why)
    case Success(v) =>
      && item.Success? && item.value.end == v.end
      && Max(from, Above(floor, item.value.height)) == Max(deepest, Above(floor, v.height))
  }

  lemma SettleAbove(base: seq<Frame>, frames: seq<Frame>)
    ensures Settle(base + frames) == if Settle(frames) == [] then Settle(base) else base + Settle(frames)
    decreases |frames|
  {
    if frames == [] {
      assert base + frames == base;
    } else {
      assert Last(base + frames) == Last(frames) && Front(base + frames) == base + Front(frames);
      if Last(frames).remaining == 0 { SettleAbove(base, Front(frames)); }
    }
  }

  lemma CountedOnBase(base: seq<Frame>, frames: seq<Frame>)
    requires frames != []
    ensures Last(base + frames) == Last(frames) && Front(base + frames) == base + Front(frames)
    ensures Counted(base + frames) == base + Counted(frames)
  {
    assert Front(base + frames) == base + Front(frames);
    assert Counted(base + frames) == base + Counted(frames);
  }

  lemma AfterHeadOnBase(base: seq<Frame>, frames: seq<Frame>, head: Head)
    requires frames != [] && |base| <= MAX_DEPTH
    ensures AfterHead(base + frames, MAX_DEPTH, head) ==
            match AfterHead(frames, MAX_DEPTH - |base|, head) {
              case Failure(why) => Failure(why)
              case Success(after) => Success(base + after)
            }
    ensures AtKey(base + frames) == AtKey(frames) && Repeats(base + frames, head) == Repeats(frames, head)
  {
    hide Counted;
    CountedOnBase(base, frames);
    if AtKey(frames) && KeyOf(head).Success? {
      var keyed := WithKey(frames, KeyOf(head).value);
      assert WithKey(base + frames, KeyOf(head).value) == base + keyed;
      CountedOnBase(base, keyed);
    } else if Owes(head).Some? {
      var pushed := [Frame(Owes(head).value.0, Owes(head).value.1, {})];
      assert base + Counted(frames) + pushed == base + (Counted(frames) + pushed);
    }
  }

  lemma AgreesStep(item: Result<Walked, CborError>, from: nat, floor: nat, before: Result<Walked, CborError>,
                   after: Result<Walked, CborError>, pushed: nat, deepest: nat, depth: nat)
    requires Agrees(item, from, floor, before, deepest) && before == Pushed(pushed, after)
    requires if pushed == 0 then depth <= deepest else depth == floor + pushed
    ensures Agrees(item, from, floor, after, Max(deepest, depth))
  {}

  /** A walk under way: the stack it started from, counted, at the bottom, and the item's own containers above. */
  predicate Underway(b: seq<byte>, s: ReaderState, dups: bool, base: seq<Frame>, item: Result<Walked, CborError>,
                     from: nat) {
    && Within(b, s) && |base| <= |s.frames| && s.frames[..|base|] == base
    && Agrees(item, from, |base|, Rest(b, s.next, s.frames[|base|..], MAX_DEPTH - |base|, dups), s.deepest)
  }

  /** The head that opens a walk. */
  lemma WalkOpens(b: seq<byte>, s: ReaderState, dups: bool)
    requires Within(b, s) && !AtKey(Settle(s.frames))
    ensures var frames := Settle(s.frames);
            var item := Item(b, s.next, MAX_DEPTH - |frames|, dups);
            match ReadHead(b, s, dups, true) {
              case Failure(why) => item == Failure(why)
              case Success((head, after)) =>
                && after.unsettled == s.unsettled && after.skipped == s.skipped
                && Underway(b, after, dups, Counted(frames), item, s.deepest)
            }
  {
    hide DecodeHead, Rest, Item;
    var frames, room := Settle(s.frames), MAX_DEPTH - |Settle(s.frames)|;
    ItemStep(b, s.next, room, dups);
    if DecodeHead(b, s.next).Success? {
      var (head, end) := DecodeHead(b, s.next).value;
      var base := Counted(frames);
      OpensOnBase(frames, head);
      if AfterHead([], room, head).Success? {
        var own := AfterHead([], room, head).value;
        assert (base + own)[|base|..] == own && (base + own)[..|base|] == base;
        var item, rest := Item(b, s.next, room, dups), Rest(b, end, own, room, dups);
        assert Agrees(item, s.deepest, |base|, item, s.deepest);
        AgreesStep(item, s.deepest, |base|, item, rest, |own|, s.deepest, |base + own|);
      }
    }
  }

  lemma OpensOnBase(frames: seq<Frame>, head: Head)
    requires |frames| <= MAX_DEPTH && !AtKey(frames)
    ensures AfterHead(frames, MAX_DEPTH, head) ==
            match AfterHead([], MAX_DEPTH - |frames|, head) {
              case Failure(why) => Failure(why)
              case Success(own) => Success(Counted(frames) + own)
            }
  {
    if Owes(head).None? {
      assert Counted(frames) + [] == Counted(frames);
    } else {
      var pushed := [Frame(Owes(head).value.0, Owes(head).value.1, {})];
      assert Counted([]) + pushed == pushed;
    }
  }

  /** Every later head keeps the agreement. */
  lemma WalkSteps(b: seq<byte>, s: ReaderState, dups: bool, base: seq<Frame>, item: Result<Walked, CborError>,
                  from: nat)
    requires Underway(b, s, dups, base, item, from) && |base| < |s.frames| && Last(s.frames).remaining > 0
    ensures match ReadHead(b, s, dups, true) {
              case Failure(why) => item == Failure(why)
              case Success((head, after)) =>
                && after.unsettled == s.unsettled && after.skipped == s.skipped
                && Underway(b, after, dups, base, item, from)
            }
  {
    hide DecodeHead, Rest, AfterHead, AtKey, Repeats;
    var frames, room := s.frames[|base|..], MAX_DEPTH - |base|;
    assert s.frames == base + frames && Last(frames) == Last(s.frames) && Settle(s.frames) == s.frames;
    RestStep(b, s.next, frames, room, dups);
    if DecodeHead(b, s.next).Success? {
      var (head, end) := DecodeHead(b, s.next).value;
      AfterHeadOnBase(base, frames, head);
      if AfterHead(frames, room, head).Success? {
        var own := AfterHead(frames, room, head).value;
        assert (base + own)[|base|..] == own && (base + own)[..|base|] == base;
        if !(AtKey(frames) && KeyOf(head).Failure?) && !(dups && Repeats(frames, head)) {
          var pushed := if |own| > |frames| then |own| else 0;
          AgreesStep(item, from, |base|, Rest(b, s.next, frames, room, dups), Rest(b, end, own, room, dups),
                     pushed, s.deepest, |base + own|);
        }
      }
    }
  }

  /** Closing finished containers changes nothing still owed. */
  lemma WalkSettles(b: seq<byte>, s: ReaderState, dups: bool, base: seq<Frame>, item: Result<Walked, CborError>,
                    from: nat)
    requires Underway(b, s, dups, base, item, from) && |Settle(s.frames)| > |base|
    ensures Underway(b, s.(frames := Settle(s.frames)), dups, base, item, from)
  {
    hide Rest, Settle, Agrees;
    var frames := s.frames[|base|..];
    assert s.frames == base + frames;
    SettleAbove(base, frames);
    RestSettled(b, s.next, frames, MAX_DEPTH - |base|, dups);
    var left := Settle(frames);
    assert (base + left)[|base|..] == left && (base + left)[..|base|] == base;
  }

  /** With no container left above the base, the item is done. */
  lemma WalkEnds(b: seq<byte>, s: ReaderState, dups: bool, base: seq<Frame>, item: Result<Walked, CborError>, from: nat)
    requires Underway(b, s, dups, base, item, from) && |Settle(s.frames)| <= |base|
    ensures Settle(s.frames) == Settle(base) && item.Success?
    ensures item.value.end == s.next && s.deepest == Max(from, Above(|base|, item.value.height))
  {
    hide Rest, Settle;
    var frames := s.frames[|base|..];
    assert s.frames == base + frames;
    SettleAbove(base, frames);
    RestSettled(b, s.next, frames, MAX_DEPTH - |base|, dups);
    NothingOwed(b, s.next, MAX_DEPTH - |base|, dups);
  }

  /** A walk from `start`, whose stack is settled, as it stands at `s` after one head or more. */
  ghost predicate Walking(b: seq<byte>, start: ReaderState, s: ReaderState, dups: bool)
    requires Within(b, start)
  {
    Within(b, s) &&
    if AtKey(start.frames)
      then |s.frames| == |start.frames| && Settle(s.frames) == s.frames && WalkItem(b, start, dups) == Success(s)
    else
      && s.unsettled == start.unsettled && s.skipped == start.skipped
      && Underway(b, s, dups, Counted(start.frames), Item(b, start.next, MAX_DEPTH - |start.frames|, dups),
                  start.deepest)
  }

  lemma WalkSettled(b: seq<byte>, s: ReaderState, dups: bool)
    requires Within(b, s)
    ensures Settle(Settle(s.frames)) == Settle(s.frames)
    ensures WalkItem(b, s, dups) == WalkItem(b, s.(frames := Settle(s.frames)), dups)
  {
    hide Item, ReadHead, AtKey;
    SettledHead(b, s, dups, true);
  }

  /** The first head of a walk fails as the item does, or starts the walk. */
  lemma WalkBegins(b: seq<byte>, start: ReaderState, dups: bool)
    requires Within(b, start) && start.frames == Settle(start.frames)
    ensures match ReadHead(b, start, dups, true) {
              case Failure(why) => WalkItem(b, start, dups) == Failure(why)
              case Success((head, s)) => Walking(b, start, s, dups)
            }
  {
    hide DecodeHead, Item, Rest;
    if AtKey(start.frames) {
      if ReadHead(b, start, dups, true).Success? {
        assert Last(ReadHead(b, start, dups, true).value.1.frames).remaining % 2 == 1;
      }
    } else {
      WalkOpens(b, start, dups);
    }
  }

  /** One turn of the walk's loop: back at the floor it is done, and otherwise one more head keeps it going. */
  lemma WalkTurn(b: seq<byte>, start: ReaderState, s: ReaderState, dups: bool)
    requires Within(b, start) && start.frames == Settle(start.frames) && Walking(b, start, s, dups)
    ensures var settled := s.(frames := Settle(s.frames));
            if |settled.frames| <= |start.frames| then WalkItem(b, start, dups) == Success(settled)
            else
              match ReadHead(b, settled, dups, true) {
                case Failure(why) => WalkItem(b, start, dups) == Failure(why)
                case Success((head, after)) => Walking(b, start, after, dups)
              }
  {
    hide Underway, Item, DecodeHead, ReadHead, Counted, Settle;
    var base, item := Counted(start.frames), Item(b, start.next, MAX_DEPTH - |start.frames|, dups);
    if !AtKey(start.frames) {
      if |Settle(s.frames)| > |base| {
        WalkSettles(b, s, dups, base, item, start.deepest);
        WalkSteps(b, s.(frames := Settle(s.frames)), dups, base, item, start.deepest);
      } else {
        WalkEnds(b, s, dups, base, item, start.deepest);
      }
    }
  }

  lemma NothingOwed(b: seq<byte>, at: nat, room: nat, dups: bool)
    requires at <= |b|
    ensures Rest(b, at, [], room, dups) == Success(Walked(at, 0))
  {}

  // ---------------------------------------------------------------------------
  // The implementation.

  /** A key that may have occurred already, and the range of the input that decides whether it has. */
  datatype Unsettled = Unsettled(key: KeyRank, from: nat, to: nat)

  predicate Recorded(b: seq<byte>, u: Option<Unsettled>) {
    u.Some? ==> u.value.from <= u.value.to <= |b| && Pairs(b[u.value.from..u.value.to], 0).Success?
  }

  predicate RepeatedIn(b: seq<byte>, u: Option<Unsettled>)
    requires Recorded(b, u)
  {
    u.Some? && u.value.key in Pairs(b[u.value.from..u.value.to], 0).value
  }

  /** `lastKey` is the greatest key seen, and absent only before the first. */
  ghost predicate Greatest(lastKey: Option<KeyRank>, seen: set<KeyRank>) {
    match lastKey
    case None => seen == {}
    case Some(greatest) => greatest in seen && forall key :: key in seen ==> AtMost(key, greatest)
  }

  ghost predicate GreatestKeys(opens: seq<Open>, frames: seq<Frame>)
    requires |opens| == |frames|
  {
    forall i :: 0 <= i < |frames| && frames[i].kind == InMap ==> Greatest(opens[i].lastKey, frames[i].seen)
  }

  lemma AboveTheGreatest(lastKey: Option<KeyRank>, seen: set<KeyRank>, key: KeyRank)
    requires Greatest(lastKey, seen)
    ensures lastKey.None? || !AtMost(key, lastKey.value) ==> key !in seen && Greatest(Some(key), seen + {key})
    ensures lastKey.Some? && AtMost(key, lastKey.value) ==> Greatest(lastKey, seen + {key})
  {}

  /** At a key, the innermost map's pairs lie between its start and the key, so a search of them is decisive. */
  lemma KeyRegion(b: seq<byte>, at: nat, opens: seq<Open>, frames: seq<Frame>, marks: seq<Mark>, key: KeyRank)
    requires Regions(b, at, opens, frames, marks) && AtKey(frames) && GreatestKeys(opens, frames)
    ensures var top, seen := Last(opens), Last(frames).seen;
            && top.start <= at <= |b| && Pairs(b[top.start..at], 0) == Success(seen)
            && Greatest(top.lastKey, seen)
            && (top.lastKey.None? || !AtMost(key, top.lastKey.value) ==> key !in seen)
  {
    hide Pairs;
    assert Region(b, at, opens, frames, marks, |frames| - 1);
    AboveTheGreatest(Last(opens).lastKey, Last(frames).seen, key);
  }

  /** A head read is read off the settled stack, once a skipped repeat has been answered for. */
  lemma SettledHead(b: seq<byte>, s: ReaderState, dups: bool, walking: bool)
    requires Within(b, s)
    ensures !walking && s.skipped ==> ReadHead(b, s, dups, walking) == Failure(RepeatedKey)
    ensures walking || !s.skipped ==>
              ReadHead(b, s, dups, walking) == ReadHead(b, s.(frames := Settle(s.frames)), dups, walking)
    ensures Settle(Settle(s.frames)) == Settle(s.frames)
  {
    hide DecodeHead;
  }

  /** The turns a head takes, in the order they are taken. */
  lemma HeadCases(b: seq<byte>, s: ReaderState, dups: bool, walking: bool)
    requires Within(b, s) && s.frames == Settle(s.frames) && (walking || !s.skipped)
    ensures s.next == |b| ==> ReadHead(b, s, dups, walking) == Failure(EndOfInput)
    ensures match DecodeHead(b, s.next) {
              case Failure(why) => ReadHead(b, s, dups, walking) == Failure(why)
              case Success((head, end)) =>
                var repeats := dups && Repeats(s.frames, head);
                if AtKey(s.frames) && KeyOf(head).Failure?
                  then ReadHead(b, s, dups, walking) == Failure(KeyOf(head).error)
                else if walking && repeats then ReadHead(b, s, dups, walking) == Failure(RepeatedKey)
                else
                  match AfterHead(s.frames, MAX_DEPTH, head)
                  case Failure(why) => ReadHead(b, s, dups, walking) == Failure(why)
                  case Success(after) =>
                    var unsettled := if walking then s.unsettled else repeats;
                    var reached := ReaderState(end, after, Max(s.deepest, |after|), unsettled, s.skipped);
                    ReadHead(b, s, dups, walking) == Success((head, reached))
            }
  {
    EndOfBytes(b, s.next);
    hide DecodeHead;
  }

  lemma Deeper(deepest: nat, depth: nat)
    ensures Max(deepest, depth) == if depth <= deepest then deepest else depth
    ensures Max(deepest, depth) == Max(depth, deepest)
  {}

  /** A reader between whole pairs, at no depth, with nothing held against it. */
  predicate AmongPairs(b: seq<byte>, s: ReaderState) {
    Within(b, s) && s.frames == [] && !s.unsettled && !s.skipped && Pairs(b, s.next).Success?
  }

  lemma SearchRegion(b: seq<byte>, u: Unsettled)
    requires Recorded(b, Some(u))
    ensures u.from <= u.to <= |b| && AmongPairs(b[u.from..u.to], START) && START.next == 0
    ensures Pairs(b[u.from..u.to], 0).Success?
    ensures RepeatedIn(b, Some(u)) <==> u.key in Pairs(b[u.from..u.to], 0).value
  {}

  lemma NoPairs(b: seq<byte>)
    ensures Pairs(b, |b|) == Success({})
  {}

  lemma PairsStep(b: seq<byte>, at: nat)
    requires at < |b| && Pairs(b, at).Success?
    ensures DecodeHead(b, at).Success?
    ensures var (head, end) := DecodeHead(b, at).value;
            && KeyOf(head).Success? && Item(b, end, MAX_DEPTH, false).Success?
            && var next := Item(b, end, MAX_DEPTH, false).value.end;
               Pairs(b, next).Success? && Pairs(b, at).value == {KeyOf(head).value} + Pairs(b, next).value
  {
    hide DecodeHead, Item;
  }

  lemma KeyAtTop(b: seq<byte>, s: ReaderState)
    requires Within(b, s) && s.frames == [] && !s.skipped
    requires DecodeHead(b, s.next).Success? && KeyOf(DecodeHead(b, s.next).value.0).Success?
    ensures var (head, end) := DecodeHead(b, s.next).value;
            ReadHead(b, s, false, false) == Success((head, ReaderState(end, [], s.deepest, false, false)))
  {
    hide DecodeHead;
    assert Settle([]) == [] && Counted([]) == [];
  }

  lemma ValueAtTop(b: seq<byte>, s: ReaderState)
    requires Within(b, s) && s.frames == [] && !s.unsettled && !s.skipped && Item(b, s.next, MAX_DEPTH, false).Success?
    ensures var w := Item(b, s.next, MAX_DEPTH, false).value;
            SkipItem(b, s, false) == Success(ReaderState(w.end, [], Max(s.deepest, Above(0, w.height)), false, false))
  {
    hide DecodeHead, Item;
    assert Settle([]) == [] && Counted([]) == [];
  }

  /** A pair read key and value by a reader that checks nothing. */
  lemma PairRead(b: seq<byte>, s: ReaderState)
    requires AmongPairs(b, s) && s.next < |b|
    ensures ReadHead(b, s, false, false).Success?
    ensures var (head, keyed) := ReadHead(b, s, false, false).value;
            && KeyOf(head).Success?
            && SkipItem(b, keyed, false).Success?
            && var after := SkipItem(b, keyed, false).value;
               && AmongPairs(b, after) && Pairs(b, s.next).Success? && Pairs(b, after.next).Success?
               && Pairs(b, s.next).value == {KeyOf(head).value} + Pairs(b, after.next).value
  {
    hide DecodeHead, Item, Pairs, ReadHead, SkipItem;
    PairsStep(b, s.next);
    KeyAtTop(b, s);
    ValueAtTop(b, ReadHead(b, s, false, false).value.1);
  }

  lemma TopOfRegions(b: seq<byte>, at: nat, opens: seq<Open>, frames: seq<Frame>, marks: seq<Mark>)
    requires Regions(b, at, opens, frames, marks)
    ensures |opens| == |frames| == |marks| && at <= |b|
    ensures frames != [] ==> SameShape(Last(opens), Last(frames))
  {
    if frames != [] { assert Region(b, at, opens, frames, marks, |frames| - 1); }
  }

  /** The stack with a key's place in its map noted. */
  function Noted(opens: seq<Open>, frames: seq<Frame>, lastKey: Option<KeyRank>): seq<Open>
    requires |opens| == |frames|
  {
    if AtKey(frames) then Front(opens) + [Last(opens).(lastKey := lastKey)] else opens
  }

  /** Noting a head and entering it is the reader's stack step, and the specification's. */
  lemma EnteredStack(opens: seq<Open>, frames: seq<Frame>, head: Head, end: nat, lastKey: Option<KeyRank>)
    requires |opens| == |frames| <= MAX_DEPTH
    requires frames != [] ==> SameShape(Last(opens), Last(frames)) && Last(frames).remaining > 0
    requires !(AtKey(frames) && KeyOf(head).Failure?)
    ensures var counted := CountedOpens(Noted(opens, frames, lastKey));
            |counted| == |frames| &&
            match AfterHead(frames, MAX_DEPTH, head)
            case Failure(why) => why == DepthExceeded && Owes(head).Some? && |counted| >= MAX_DEPTH
            case Success(after) =>
              && |OpensAfter(opens, head, end, lastKey)| == |after|
              && match Owes(head)
                 case None => OpensAfter(opens, head, end, lastKey) == counted && |after| == |frames|
                 case Some((kind, items)) =>
                   && OpensAfter(opens, head, end, lastKey) == counted + [Open(kind, items, None, end)]
                   && |counted| < MAX_DEPTH && |after| == |frames| + 1
  {}

  lemma StepKeepsGreatest(opens: seq<Open>, frames: seq<Frame>, head: Head, end: nat, lastKey: Option<KeyRank>)
    requires |opens| == |frames| && GreatestKeys(opens, frames)
    requires frames != [] ==> SameShape(Last(opens), Last(frames)) && Last(frames).remaining > 0
    requires AfterHead(frames, MAX_DEPTH, head).Success?
    requires AtKey(frames) ==> Greatest(lastKey, Last(frames).seen + {KeyOf(head).value})
    ensures |OpensAfter(opens, head, end, lastKey)| == |AfterHead(frames, MAX_DEPTH, head).value|
    ensures GreatestKeys(OpensAfter(opens, head, end, lastKey), AfterHead(frames, MAX_DEPTH, head).value)
  {}

  class CborReader {
    const bytes: seq<byte>
    const checks: bool
    var next: nat
    var opens: seq<Open>
    var deepest: nat
    var walking: bool
    var unsettled: Option<Unsettled>
    var skipped: Option<Unsettled>
    ghost var frames: seq<Frame>
    ghost var marks: seq<Mark>

    ghost predicate Valid()
      reads this
    {
      && Regions(bytes, next, opens, frames, marks)
      && |frames| <= deepest <= MAX_DEPTH
      && (checks ==> GreatestKeys(opens, frames))
      && Recorded(bytes, unsettled) && Recorded(bytes, skipped)
      && (!checks ==> unsettled.None? && skipped.None?)
    }

    ghost function State(): (s: ReaderState)
      requires Valid()
      reads this
      ensures Within(bytes, s)
    {
      ReaderState(next, frames, deepest, RepeatedIn(bytes, unsettled), RepeatedIn(bytes, skipped))
    }

    constructor (bytes: seq<byte>, checks: bool)
      ensures Valid() && State() == START && !walking
      ensures this.bytes == bytes && this.checks == checks
    {
      this.bytes := bytes;
      this.checks := checks;
      next := 0;
      opens := [];
      deepest := 0;
      walking := false;
      unsettled := None;
      skipped := None;
      frames := [];
      marks := [];
    }

    // --- one head out of the bytes

    method TakeBytes(len: nat) returns (r: Result<seq<byte>, CborError>)
      requires next <= |bytes|
      modifies this`next
      ensures next <= |bytes|
      ensures match Take(bytes, old(next), len) {
                case Failure(why) => r == Failure(why)
                case Success((raw, end)) => r == Success(raw) && next == end
              }
    {
      var end := next + len;
      if end > |bytes| {
        return Failure(EndOfInput);
      }
      var raw := bytes[next..end];
      next := end;
      return Success(raw);
    }

    method ArgumentOf(info: nat) returns (r: Result<u64, CborError>)
      requires next <= |bytes| && info < 32
      modifies this`next
      ensures next <= |bytes|
      ensures match Argument(bytes, old(next), info) {
                case Failure(why) => r == Failure(why)
                case Success((arg, end)) => r == Success(arg) && next == end
              }
    {
      if info < 24 {
        return Success(info);
      }
      var width := if info == 24 then 1 else if info == 25 then 2 else if info == 26 then 4 else 8;
      if info >= 28 {
        return Failure(if info < 31 then ReservedHead else IndefiniteLength);
      }
      var taken := TakeBytes(width);
      if taken.Failure? {
        return Failure(taken.error);
      }
      var tail := taken.value;
      var value: nat := 0;
      for i := 0 to |tail|
        invariant value == FromBigEndian(tail[..i])
      {
        assert tail[..i + 1][..i] == tail[..i];
        value := 256 * value + (tail[i] as int);
      }
      assert tail[..|tail|] == tail;
      FromBigEndianBound(tail);
      Pow256Values();
      return Success(value);
    }

    method LengthOf(info: nat) returns (r: Result<nat, CborError>)
      requires next <= |bytes| && info < 32
      modifies this`next
      ensures next <= |bytes|
      ensures match Length(bytes, old(next), info) {
                case Failure(why) => r == Failure(why)
                case Success((len, end)) => r == Success(len) && next == end
              }
    {
      var arg := ArgumentOf(info);
      if arg.Failure? {
        return Failure(arg.error);
      }
      return if arg.value > USIZE_MAX then Failure(EndOfInput) else Success(arg.value);
    }

    method CountOf(info: nat, perItem: nat) returns (r: Result<nat, CborError>)
      requires next <= |bytes| && info < 32
      modifies this`next
      ensures next <= |bytes|
      ensures match Count(bytes, old(next), info, perItem) {
                case Failure(why) => r == Failure(why)
                case Success((count, end)) => r == Success(count) && next == end
              }
    {
      var count := LengthOf(info);
      if count.Failure? {
        return Failure(count.error);
      }
      var items := count.value * perItem;
      if items > USIZE_MAX || items > |bytes| - next {
        return Failure(EndOfInput);
      }
      return Success(count.value);
    }

    method Decode(first: byte) returns (r: Result<Head, CborError>)
      requires 0 < next <= |bytes| && first == bytes[next - 1]
      modifies this`next
      ensures next <= |bytes|
      ensures match DecodeHead(bytes, old(next) - 1) {
                case Failure(why) => r == Failure(why)
                case Success((head, end)) => r == Success(head) && next == end
              }
    {
      var info := first % 32;
      match MajorOf(first) {
        case UnsignedInt =>
          var arg := ArgumentOf(info);
          return if arg.Failure? then Failure(arg.error) else Success(Unsigned(arg.value));
        case NegativeInt =>
          var arg := ArgumentOf(info);
          return if arg.Failure? then Failure(arg.error) else Success(Negative(arg.value));
        case ByteString =>
          var len := LengthOf(info);
          if len.Failure? {
            return Failure(len.error);
          }
          var raw := TakeBytes(len.value);
          return if raw.Failure? then Failure(raw.error) else Success(Head.Bytes(raw.value));
        case TextString =>
          var len := LengthOf(info);
          if len.Failure? {
            return Failure(len.error);
          }
          if len.value > MAX_STRING {
            return Failure(StringTooLong);
          }
          var raw := TakeBytes(len.value);
          if raw.Failure? {
            return Failure(raw.error);
          }
          return if Utf8(raw.value) then Success(Text(raw.value)) else Failure(InvalidUtf8);
        case ArrayOf =>
          var count := CountOf(info, 1);
          return if count.Failure? then Failure(count.error) else Success(Array(count.value));
        case MapOf =>
          var pairs := CountOf(info, 2);
          return if pairs.Failure? then Failure(pairs.error) else Success(Map(pairs.value));
        case Tag => return Failure(TagNotAllowed);
        case Simple => return SimpleHead(info);
      }
    }

    // --- the stack

    /** The stack becomes what `Settle` makes of it. */
    method SettleNest()
      requires Valid()
      modifies this`opens, this`frames, this`marks
      ensures Valid() && State() == old(State()).(frames := Settle(old(State()).frames))
    {
      TopShape();
      while opens != [] && Last(opens).remaining == 0
        invariant Valid() && Settle(frames) == Settle(old(frames))
        invariant frames != [] ==> Last(frames).remaining == Last(opens).remaining
        decreases |opens|
      {
        PopKeepsRegions(bytes, next, opens, frames, marks);
        opens, frames, marks := Front(opens), Front(frames), Front(marks);
        TopShape();
      }
    }

    lemma TopShape()
      requires Valid()
      ensures |opens| == |frames| == |marks|
      ensures frames != [] ==> SameShape(Last(opens), Last(frames))
    {
      if frames != [] {
        assert Region(bytes, next, opens, frames, marks, |frames| - 1);
      }
    }

    /** Raise the innermost map's greatest key to `key`, or give the range to search when `key` does not exceed it. */
    method NoteKey(key: KeyRank, at: nat) returns (found: Option<Unsettled>)
      requires opens != []
      modifies this`opens
      ensures var top := Last(old(opens));
              if top.lastKey.Some? && AtMost(key, top.lastKey.value)
              then found == Some(Unsettled(key, top.start, at)) && opens == old(opens)
              else found == None && opens == Front(old(opens)) + [top.(lastKey := Some(key))]
    {
      var top := Last(opens);
      if top.lastKey.Some? && AtMost(key, top.lastKey.value) {
        return Some(Unsettled(key, top.start, at));
      }
      opens := Front(opens) + [top.(lastKey := Some(key))];
      return None;
    }

    /** A head taken off what the top container owes, and pushed if it opens one, depth permitting. */
    method Enter(head: Head) returns (r: Result<(), CborError>)
      modifies this`opens, this`deepest
      ensures var counted := CountedOpens(old(opens));
              match Owes(head)
              case None => r == Success(()) && opens == counted && deepest == old(deepest)
              case Some((kind, items)) =>
                if |counted| >= MAX_DEPTH then r == Failure(DepthExceeded)
                else
                  && r == Success(()) && opens == counted + [Open(kind, items, None, next)]
                  && deepest == Max(old(deepest), |opens|)
    {
      opens := CountedOpens(opens);
      match Owes(head) {
        case None =>
        case Some((kind, items)) =>
          if |opens| >= MAX_DEPTH {
            return Failure(DepthExceeded);
          }
          opens := opens + [Open(kind, items, None, next)];
          if |opens| > deepest {
            deepest := |opens|;
          }
      }
      return Success(());
    }

    // --- repeated keys

    /** Refuse `u.key` if the pairs before it carry it: a walk over their keys with the checks off. */
    method Search(u: Unsettled) returns (r: Result<(), CborError>)
      requires checks && Recorded(bytes, Some(u))
      decreases 1, 0
      ensures r == if RepeatedIn(bytes, Some(u)) then Failure(RepeatedKey) else Success(())
    {
      hide *;
      SearchRegion(bytes, u);
      var earlier := bytes[u.from..u.to];
      var pairs := new CborReader(earlier, false);
      pairs.Unchecked();
      while pairs.next < |earlier|
        invariant fresh(pairs) && pairs.Valid() && pairs.bytes == earlier && !pairs.checks && !pairs.walking
        invariant pairs.next <= |earlier| && AmongPairs(earlier, pairs.State())
        invariant pairs.State().next == pairs.next && Pairs(earlier, pairs.next).Success?
        invariant RepeatedIn(bytes, Some(u)) <==> u.key in Pairs(earlier, pairs.next).value
        decreases |earlier| - pairs.next
      {
        PairRead(earlier, pairs.State());
        var head := pairs.NextHead();
        var found := KeyOf(head.value);
        if found.value == u.key {
          return Failure(RepeatedKey);
        }
        var skippedValue := pairs.Skip();
        pairs.Parts();
      }
      NoPairs(earlier);
      return Success(());
    }

    lemma Unchecked()
      requires Valid()
      ensures !checks ==> !State().unsettled && !State().skipped
      ensures State().next == next <= |bytes|
    {}

    /** Succeeds exactly when no repeated key has had its value skipped, and then leaves none to look for. */
    method SettleSkipped() returns (r: Result<(), CborError>)
      requires Valid()
      modifies this`skipped
      decreases if checks then 1 else 0, 1
      ensures r == if old(State().skipped) then Failure(RepeatedKey) else Success(())
      ensures r.Success? ==> Valid() && State() == old(State()) && skipped.None?
    {
      var due := skipped;
      skipped := None;
      if due.None? {
        return Success(());
      }
      r := Search(due.value);
    }

    // --- heads and items

    /** One head, accounted for in the container that owes it. */
    method NextHead() returns (r: Result<Head, CborError>)
      requires Valid()
      modifies this
      decreases if checks then 1 else 0, 3
      ensures walking == old(walking)
      ensures match ReadHead(bytes, old(State()), checks, walking) {
                case Failure(why) => r == Failure(why)
                case Success((head, state)) => r == Success(head) && Valid() && State() == state
              }
    {
      hide *;
      SettledHead(bytes, State(), checks, walking);
      if !walking {
        var settled := SettleSkipped();
        if settled.Failure? {
          return Failure(settled.error);
        }
      }
      SettleNest();
      ghost var stack, wide, places, settledState := frames, opens, marks, State();
      Parts();
      var at := next;
      HeadCases(bytes, settledState, checks, walking);
      if next == |bytes| {
        return Failure(EndOfInput);
      }
      var first := bytes[next];
      next := next + 1;
      var decoded := Decode(first);
      if decoded.Failure? {
        return Failure(decoded.error);
      }
      var head := decoded.value;
      var accounted := Account(head, at);
      if accounted.Failure? {
        return Failure(accounted.error);
      }
      return Success(head);
    }

    /** Account for a head read at `at`: its key noted, its place in the stack taken. */
    method Account(head: Head, at: nat) returns (r: Result<(), CborError>)
      requires at < next <= |bytes| && DecodeHead(bytes, at) == Success((head, next))
      requires Regions(bytes, at, opens, frames, marks) && |opens| == |marks| == |frames| <= deepest <= MAX_DEPTH
      requires frames != [] ==> SameShape(Last(opens), Last(frames)) && Last(frames).remaining > 0
      requires checks ==> GreatestKeys(opens, frames)
      requires Recorded(bytes, unsettled) && Recorded(bytes, skipped) && (!checks ==> unsettled.None? && skipped.None?)
      modifies this`opens, this`unsettled, this`deepest, this`frames, this`marks
      decreases if checks then 1 else 0, 2
      ensures var repeats := checks && Repeats(old(frames), head);
              if AtKey(old(frames)) && KeyOf(head).Failure? then r == Failure(KeyOf(head).error)
              else if walking && repeats then r == Failure(RepeatedKey)
              else
                match AfterHead(old(frames), MAX_DEPTH, head)
                case Failure(why) => r == Failure(why)
                case Success(after) =>
                  && r == Success(()) && Valid()
                  && State() == ReaderState(next, after, Max(old(deepest), |after|),
                                            if walking then old(RepeatedIn(bytes, unsettled)) else repeats,
                                            RepeatedIn(bytes, skipped))
    {
      hide *;
      ghost var stack, wide, places, deep := frames, opens, marks, deepest;
      var noted, lastKey := NoteHead(head, at);
      if noted.Failure? {
        return noted;
      }
      EnteredStack(wide, stack, head, next, lastKey);
      var entered := Enter(head);
      if entered.Failure? {
        return entered;
      }
      StepKeepsRegions(bytes, at, wide, stack, places, lastKey);
      if checks { StepKeepsGreatest(wide, stack, head, next, lastKey); }
      frames := AfterHead(stack, MAX_DEPTH, head).value;
      marks := MarksAfter(stack, places, head, at);
      Deeper(deep, |frames|);
      Assembled();
      return Success(());
    }

    lemma Parts()
      requires Valid()
      ensures Regions(bytes, next, opens, frames, marks) && next <= |bytes|
      ensures |frames| <= deepest <= MAX_DEPTH == 8 && |opens| == |frames| == |marks|
      ensures checks ==> GreatestKeys(opens, frames)
      ensures Recorded(bytes, unsettled) && Recorded(bytes, skipped) && (!checks ==> unsettled.None? && skipped.None?)
      ensures frames != [] ==> SameShape(Last(opens), Last(frames))
      ensures State() == ReaderState(next, frames, deepest, RepeatedIn(bytes, unsettled), RepeatedIn(bytes, skipped))
      ensures Within(bytes, State())
    {
      TopShape();
    }

    lemma Assembled()
      requires |opens| == |frames| && Regions(bytes, next, opens, frames, marks)
      requires |frames| <= deepest <= MAX_DEPTH
      requires checks ==> GreatestKeys(opens, frames)
      requires Recorded(bytes, unsettled) && Recorded(bytes, skipped) && (!checks ==> unsettled.None? && skipped.None?)
      ensures Valid()
      ensures State() == ReaderState(next, frames, deepest, RepeatedIn(bytes, unsettled), RepeatedIn(bytes, skipped))
    {}

    /**
     What a head means for repeated keys, before it enters the stack: a key is
     noted, and searched for at once on a walk; a value read settles its key.
     */
    method NoteHead(head: Head, at: nat) returns (r: Result<(), CborError>, ghost lastKey: Option<KeyRank>)
      requires Regions(bytes, at, opens, frames, marks) && (checks ==> GreatestKeys(opens, frames))
      requires Recorded(bytes, unsettled) && (!checks ==> unsettled.None?)
      modifies this`opens, this`unsettled
      decreases if checks then 1 else 0, 1
      ensures var repeats := checks && Repeats(frames, head);
              if AtKey(frames) && KeyOf(head).Failure? then r == Failure(KeyOf(head).error)
              else if walking && repeats then r == Failure(RepeatedKey)
              else
                && r == Success(())
                && opens == Noted(old(opens), frames, lastKey)
                && (checks && AtKey(frames) ==> Greatest(lastKey, Last(frames).seen + {KeyOf(head).value}))
                && Recorded(bytes, unsettled) && (!checks ==> unsettled.None?)
                && RepeatedIn(bytes, unsettled) == if walking then old(RepeatedIn(bytes, unsettled)) else repeats
    {
      hide Pairs, Regions;
      TopOfRegions(bytes, at, opens, frames, marks);
      lastKey := None;
      if opens != [] && ExpectsKey(Last(opens).kind, Last(opens).remaining) {
        var key := KeyOf(head);
        if key.Failure? {
          r := Failure(key.error);
          return;
        }
        lastKey := Last(opens).lastKey;
        if checks {
          KeyRegion(bytes, at, opens, frames, marks, key.value);
          AboveTheGreatest(lastKey, Last(frames).seen, key.value);
          var found := NoteKey(key.value, at);
          lastKey := Last(opens).lastKey;
          if walking {
            if found.Some? {
              var searched := Search(found.value);
              if searched.Failure? {
                r := searched;
                return;
              }
            }
          } else {
            unsettled := found;
          }
        } else if !walking {
          unsettled := None;
        }
      } else if !walking {
        unsettled := None;
      }
      r := Success(());
    }

    method Skip() returns (r: Result<(), CborError>)
      requires Valid() && !walking
      modifies this
      decreases if checks then 1 else 0, 5
      ensures !walking
      ensures match SkipItem(bytes, old(State()), checks) {
                case Failure(why) => r == Failure(why)
                case Success(state) => r == Success(()) && Valid() && State() == state
              }
    {
      var settled := SettleSkipped();
      if settled.Failure? {
        return settled;
      }
      skipped := unsettled;
      unsettled := None;
      walking := true;
      r := Walk();
      walking := false;
    }

    /** One item of any type, its containers walked on the stack. */
    method Walk() returns (r: Result<(), CborError>)
      requires Valid() && walking
      modifies this
      decreases if checks then 1 else 0, 4
      ensures walking
      ensures match WalkItem(bytes, old(State()), checks) {
                case Failure(why) => r == Failure(why)
                case Success(state) => r == Success(()) && Valid() && State() == state
              }
    {
      hide *;
      ghost var begun := State();
      SettleNest();
      ghost var start := State();
      Parts();
      var floor := |opens|;
      WalkSettled(bytes, begun, checks);
      WalkBegins(bytes, start, checks);
      var head := NextHead();
      if head.Failure? {
        return Failure(head.error);
      }
      while true
        invariant Valid() && walking
        invariant Walking(bytes, start, State(), checks)
        decreases |bytes| - next
      {
        ghost var reached := State();
        Parts();
        SettleNest();
        Parts();
        WalkTurn(bytes, start, reached, checks);
        if |opens| <= floor {
          return Success(());
        }
        var more := NextHead();
        if more.Failure? {
          return Failure(more.error);
        }
        Parts();
      }
    }

    // --- what a decoder calls

    /** A decoder's reader, between calls. */
    ghost predicate Ready()
      reads this
    {
      Valid() && checks && !walking
    }

    ghost predicate Answers<T>(spec: Result<(T, ReaderState), CborError>, r: Result<T, CborError>)
      reads this
    {
      match spec
      case Failure(why) => r == Failure(why)
      case Success((value, state)) => r == Success(value) && Ready() && State() == state
    }

    method ReadArray() returns (r: Result<nat, CborError>)
      requires Ready()
      modifies this
      ensures Answers(ReadAs(bytes, old(State()), AsArray), r)
    {
      var head := NextHead();
      if head.Failure? {
        return Failure(head.error);
      }
      return AsArray(head.value);
    }

    method ReadMap() returns (r: Result<nat, CborError>)
      requires Ready()
      modifies this
      ensures Answers(ReadAs(bytes, old(State()), AsMap), r)
    {
      var head := NextHead();
      if head.Failure? {
        return Failure(head.error);
      }
      return AsMap(head.value);
    }

    method ReadKey() returns (r: Result<int, CborError>)
      requires Ready()
      modifies this
      ensures Answers(ReadAs(bytes, old(State()), AsKey), r)
    {
      var head := NextHead();
      if head.Failure? {
        return Failure(head.error);
      }
      return AsKey(head.value);
    }

    method ReadI32() returns (r: Result<int, CborError>)
      requires Ready()
      modifies this
      ensures Answers(ReadAs(bytes, old(State()), AsI32), r)
    {
      var head := NextHead();
      if head.Failure? {
        return Failure(head.error);
      }
      return AsI32(head.value);
    }

    method ReadBool() returns (r: Result<bool, CborError>)
      requires Ready()
      modifies this
      ensures Answers(ReadAs(bytes, old(State()), AsBool), r)
    {
      var head := NextHead();
      if head.Failure? {
        return Failure(head.error);
      }
      return AsBool(head.value);
    }

    method ReadBytes() returns (r: Result<seq<byte>, CborError>)
      requires Ready()
      modifies this
      ensures Answers(ReadAs(bytes, old(State()), AsBytes), r)
    {
      var head := NextHead();
      if head.Failure? {
        return Failure(head.error);
      }
      return AsBytes(head.value);
    }

    method ReadText() returns (r: Result<seq<byte>, CborError>)
      requires Ready()
      modifies this
      ensures Answers(ReadAs(bytes, old(State()), AsText), r)
    {
      var head := NextHead();
      if head.Failure? {
        return Failure(head.error);
      }
      return AsText(head.value);
    }

    /** An unsigned integer no greater than `max`: `u8`, `u16`, `u32` and `u64` alike. */
    method ReadUnsigned(max: nat) returns (r: Result<nat, CborError>)
      requires Ready()
      modifies this
      ensures Answers(ReadNumber(bytes, old(State()), max), r)
    {
      var head := NextHead();
      if head.Failure? {
        return Failure(head.error);
      }
      return AsUnsigned(head.value, max);
    }

    /** As `Skip`, giving the input between where the reader was and where it is. */
    method Raw() returns (r: Result<seq<byte>, CborError>)
      requires Ready()
      modifies this
      ensures match SkipItem(bytes, old(State()), true) {
                case Failure(why) => r == Failure(why)
                case Success(state) => r == Success(bytes[old(next)..state.next]) && Ready() && State() == state
              }
    {
      var from := next;
      var skippedItem := Skip();
      if skippedItem.Failure? {
        return Failure(skippedItem.error);
      }
      return Success(bytes[from..next]);
    }

    /** Three refusals in turn: a repeated key skipped, something still owed, input remaining. */
    method Finish() returns (r: Result<(), CborError>)
      requires Ready()
      modifies this
      ensures r == Finished(bytes, old(State()))
    {
      var settled := SettleSkipped();
      if settled.Failure? {
        return settled;
      }
      SettleNest();
      Parts();
      if opens != [] {
        return Failure(Unfinished);
      }
      if next < |bytes| {
        return Failure(TrailingBytes);
      }
      return Success(());
    }
  }

  lemma EndOfBytes(b: seq<byte>, at: nat)
    requires at <= |b|
    ensures at == |b| ==> DecodeHead(b, at) == Failure(EndOfInput)
  {}
}
