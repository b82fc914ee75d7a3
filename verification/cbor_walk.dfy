/**
 A stack of open containers, as the reader and the writer both keep it, and what
 the grammar says is left to read when the stack is in some state.
 */
module CborWalk {
  import opened Bytes
  import opened Wrappers
  import opened CborHeads
  import opened CborGrammar

  /** One open container: what it owes, and every key seen in it. */
  datatype Frame = Frame(kind: Nesting, remaining: nat, seen: set<KeyRank>)

  function Last<T>(s: seq<T>): T
    requires s != []
  {
    s[|s| - 1]
  }

  function Front<T>(s: seq<T>): seq<T>
    requires s != []
  {
    s[..|s| - 1]
  }

  /** Drop containers off the top while they owe nothing. */
  function Settle(frames: seq<Frame>): (settled: seq<Frame>)
    ensures settled == [] || Last(settled).remaining > 0
    ensures |settled| <= |frames| && settled == frames[..|settled|]
  {
    if frames == [] || Last(frames).remaining > 0 then frames else Settle(Front(frames))
  }

  lemma SettledTwice(frames: seq<Frame>)
    ensures Settle(Settle(frames)) == Settle(frames)
  {}

  predicate AtKey(frames: seq<Frame>) {
    frames != [] && ExpectsKey(Last(frames).kind, Last(frames).remaining)
  }

  /** One item accounted for in the container that owes it. */
  function Counted(frames: seq<Frame>): (counted: seq<Frame>)
    ensures |counted| == |frames|
  {
    if frames == [] || Last(frames).remaining == 0 then frames
    else Front(frames) + [Last(frames).(remaining := Last(frames).remaining - 1)]
  }

  function WithKey(frames: seq<Frame>, key: KeyRank): (keyed: seq<Frame>)
    requires frames != []
    ensures |keyed| == |frames|
  {
    Front(frames) + [Last(frames).(seen := Last(frames).seen + {key})]
  }

  /** The stack after a head is read into it, `room` containers allowed. */
  function AfterHead(frames: seq<Frame>, room: nat, head: Head): (r: Result<seq<Frame>, CborError>)
    ensures r.Success? && |frames| <= room ==> |r.value| <= room
  {
    if AtKey(frames) then
      var key :- KeyOf(head);
      Success(Counted(WithKey(frames, key)))
    else
      match Owes(head)
      case None => Success(Counted(frames))
      case Some((kind, items)) =>
        if |frames| >= room then Failure(DepthExceeded)
        else Success(Counted(frames) + [Frame(kind, items, {})])
  }

  /** Whether `head` is a key the innermost map has carried before. */
  predicate Repeats(frames: seq<Frame>, head: Head) {
    AtKey(frames) && KeyOf(head).Success? && KeyOf(head).value in Last(frames).seen
  }

  // ---------------------------------------------------------------------------
  // What the grammar still has to read.

  function Above(depth: nat, height: nat): nat { if height == 0 then 0 else depth + height }

  function OnTop(depth: nat, w: Walked, rest: Result<Walked, CborError>): Result<Walked, CborError> {
    match rest
    case Failure(why) => Failure(why)
    case Success(v) => Success(Walked(v.end, Max(Above(depth, w.height), v.height)))
  }

  /** Everything `frames` owe, innermost first. */
  function Rest(b: seq<byte>, at: nat, frames: seq<Frame>, room: nat, dups: bool): (r: Result<Walked, CborError>)
    requires at <= |b| && |frames| <= room
    ensures r.Success? ==> at <= r.value.end <= |b|
    decreases |frames|
  {
    if frames == [] then Success(Walked(at, 0))
    else
      var top := Last(frames);
      match Owed(b, at, top.kind, top.remaining, top.seen, room - |frames|, dups)
      case Failure(why) => Failure(why)
      case Success(w) => OnTop(|frames|, w, Rest(b, w.end, Front(frames), room, dups))
  }

  lemma {:induction false} RestSettled(b: seq<byte>, at: nat, frames: seq<Frame>, room: nat, dups: bool)
    requires at <= |b| && |frames| <= room
    ensures Rest(b, at, Settle(frames), room, dups) == Rest(b, at, frames, room, dups)
    decreases |frames|
  {
    if frames != [] && Last(frames).remaining == 0 {
      OwedNothing(b, at, Last(frames).kind, Last(frames).seen, room - |frames|, dups);
      RestSettled(b, at, Front(frames), room, dups);
    }
  }

  lemma RestTop(b: seq<byte>, at: nat, below: seq<Frame>, top: Frame, room: nat, dups: bool)
    requires at <= |b| && |below| < room
    ensures Rest(b, at, below + [top], room, dups) ==
            match Owed(b, at, top.kind, top.remaining, top.seen, room - |below| - 1, dups) {
              case Failure(why) => Failure(why)
              case Success(w) => OnTop(|below| + 1, w, Rest(b, w.end, below, room, dups))
            }
  {
    hide Owed;
    assert Front(below + [top]) == below;
  }

  /** What reading one head does to everything still owed. */
  function AfterStep(b: seq<byte>, frames: seq<Frame>, room: nat, dups: bool, head: Head,
                     end: nat): Result<Walked, CborError>
    requires end <= |b| && frames != [] && |frames| <= room
  {
    if AtKey(frames) && KeyOf(head).Failure? then Failure(KeyOf(head).error)
    else if dups && Repeats(frames, head) then Failure(RepeatedKey)
    else
      match AfterHead(frames, room, head)
      case Failure(why) => Failure(why)
      case Success(after) =>
        Pushed(if |after| > |frames| then |after| else 0, Rest(b, end, after, room, dups))
  }

  function Pushed(depth: nat, rest: Result<Walked, CborError>): Result<Walked, CborError> {
    match rest
    case Failure(why) => Failure(why)
    case Success(v) => Success(Walked(v.end, Max(depth, v.height)))
  }

  lemma RestKey(b: seq<byte>, at: nat, frames: seq<Frame>, room: nat, dups: bool)
    requires at <= |b| && |frames| <= room && AtKey(frames) && Last(frames).remaining > 0
    requires DecodeHead(b, at).Success?
    ensures var (head, end) := DecodeHead(b, at).value;
            Rest(b, at, frames, room, dups) == AfterStep(b, frames, room, dups, head, end)
  {
    hide DecodeHead, Owed;
    var top := Last(frames);
    OwedKeyStep(b, at, top.remaining, top.seen, room - |frames|, dups);
    var (head, end) := DecodeHead(b, at).value;
    if KeyOf(head).Success? {
      var after := AfterHead(frames, room, head).value;
      assert Front(after) == Front(frames);
      assert Last(after) == Frame(InMap, top.remaining - 1, top.seen + {KeyOf(head).value});
    }
  }

  lemma RestScalar(b: seq<byte>, at: nat, below: seq<Frame>, top: Frame, room: nat, dups: bool)
    requires at <= |b| && |below| < room && !ExpectsKey(top.kind, top.remaining) && top.remaining > 0
    requires DecodeHead(b, at).Success? && Owes(DecodeHead(b, at).value.0).None?
    ensures Rest(b, at, below + [top], room, dups)
         == Rest(b, DecodeHead(b, at).value.1, below + [top.(remaining := top.remaining - 1)], room, dups)
  {
    hide DecodeHead, Owed, Rest;
    var end := DecodeHead(b, at).value.1;
    OwedItemStep(b, at, top.kind, top.remaining, top.seen, room - |below| - 1, dups);
    RestTop(b, at, below, top, room, dups);
    RestTop(b, end, below, top.(remaining := top.remaining - 1), room, dups);
  }

  lemma RestContainer(b: seq<byte>, at: nat, below: seq<Frame>, top: Frame, room: nat, dups: bool)
    requires at <= |b| && |below| < room && !ExpectsKey(top.kind, top.remaining) && top.remaining > 0
    requires DecodeHead(b, at).Success? && Owes(DecodeHead(b, at).value.0).Some?
    ensures var (head, end) := DecodeHead(b, at).value;
            var (kind, items) := Owes(head).value;
            var counted := below + [top.(remaining := top.remaining - 1)];
            Rest(b, at, below + [top], room, dups) ==
            if |below| + 1 == room then Failure(DepthExceeded)
            else Pushed(|below| + 2, Rest(b, end, counted + [Frame(kind, items, {})], room, dups))
  {
    hide DecodeHead, Owed, Rest;
    var (head, end) := DecodeHead(b, at).value;
    var (kind, items) := Owes(head).value;
    var left := top.(remaining := top.remaining - 1);
    var inside := room - |below| - 1;
    OwedItemStep(b, at, top.kind, top.remaining, top.seen, inside, dups);
    RestTop(b, at, below, top, room, dups);
    if inside > 0 {
      RestTop(b, end, below + [left], Frame(kind, items, {}), room, dups);
      var inner := Owed(b, end, kind, items, {}, inside - 1, dups);
      if inner.Success? {
        RestTop(b, inner.value.end, below, left, room, dups);
      }
    }
  }

  lemma RestValue(b: seq<byte>, at: nat, frames: seq<Frame>, room: nat, dups: bool)
    requires at <= |b| && |frames| <= room && frames != [] && !AtKey(frames) && Last(frames).remaining > 0
    requires DecodeHead(b, at).Success?
    ensures var (head, end) := DecodeHead(b, at).value;
            Rest(b, at, frames, room, dups) == AfterStep(b, frames, room, dups, head, end)
  {
    hide DecodeHead, Owed, Rest;
    var below, top := Front(frames), Last(frames);
    assert frames == below + [top];
    if Owes(DecodeHead(b, at).value.0).Some? {
      RestContainer(b, at, below, top, room, dups);
    } else {
      RestScalar(b, at, below, top, room, dups);
    }
  }

  /** One head off everything owed: the iterative step and the recursive grammar agree. */
  lemma RestStep(b: seq<byte>, at: nat, frames: seq<Frame>, room: nat, dups: bool)
    requires at <= |b| && |frames| <= room && frames != [] && Last(frames).remaining > 0
    ensures match DecodeHead(b, at) {
              case Failure(why) => Rest(b, at, frames, room, dups) == Failure(why)
              case Success((head, end)) =>
                Rest(b, at, frames, room, dups) == AfterStep(b, frames, room, dups, head, end)
            }
  {
    hide DecodeHead, AfterStep;
    var top := Last(frames);
    if DecodeHead(b, at).Success? {
      if AtKey(frames) { RestKey(b, at, frames, room, dups); } else { RestValue(b, at, frames, room, dups); }
    } else if AtKey(frames) {
      OwedKeyStep(b, at, top.remaining, top.seen, room - |frames|, dups);
    } else {
      OwedItemStep(b, at, top.kind, top.remaining, top.seen, room - |frames|, dups);
    }
  }

  /** The first head of an item opens the walk. */
  lemma ItemStep(b: seq<byte>, at: nat, room: nat, dups: bool)
    requires at <= |b|
    ensures match DecodeHead(b, at) {
              case Failure(why) => Item(b, at, room, dups) == Failure(why)
              case Success((head, end)) =>
                match AfterHead([], room, head)
                case Failure(why) => Item(b, at, room, dups) == Failure(why)
                case Success(after) => Item(b, at, room, dups) == Pushed(|after|, Rest(b, end, after, room, dups))
            }
  {
    hide DecodeHead, Owed;
    if DecodeHead(b, at).Success? {
      var (head, end) := DecodeHead(b, at).value;
      if Owes(head).Some? && room > 0 {
        var after := AfterHead([], room, head).value;
        assert Front(after) == [];
      }
    }
  }
}
