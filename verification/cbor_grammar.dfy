/**
 The restricted CBOR as a recursive grammar: what one item is, how deep it nests,
 and that no map in it repeats a key. The reader's iterative walk is measured
 against this.
 */
module CborGrammar {
  import opened Bytes
  import opened Wrappers
  import opened CborHeads

  /** Where an integer key sorts: unsigned before negative, each by its argument. */
  datatype KeyRank = KeyRank(negative: bool, arg: u64)

  predicate AtMost(a: KeyRank, b: KeyRank) {
    (!a.negative && b.negative) || (a.negative == b.negative && a.arg <= b.arg)
  }

  function KeyOf(h: Head): Result<KeyRank, CborError> {
    match h
    case Unsigned(arg) => Success(KeyRank(false, arg))
    case Negative(arg) => Success(KeyRank(true, arg))
    case _ => Failure(KeyNotInteger)
  }

  datatype Nesting = InArray | InMap

  /** How many items a container's head makes it owe; a map owes its keys and its values. */
  function Owes(h: Head): Option<(Nesting, nat)> {
    match h
    case Array(count) => Some((InArray, count))
    case Map(pairs) => Some((InMap, 2 * pairs))
    case _ => None
  }

  /** Where an item ends, and how many containers deep it goes. */
  datatype Walked = Walked(end: nat, height: nat)

  function Max(a: nat, b: nat): nat { if a >= b then a else b }

  function ExpectsKey(kind: Nesting, remaining: nat): bool {
    kind == InMap && remaining % 2 == 0
  }

  /**
   One item at `at`, with `room` containers allowed inside one another. With
   `dups`, a map that carries a key twice is refused.
   */
  function Item(b: seq<byte>, at: nat, room: nat, dups: bool): (r: Result<Walked, CborError>)
    requires at <= |b|
    ensures r.Success? ==> at < r.value.end <= |b| && r.value.height <= room
    decreases |b| - at, 0, 0
  {
    var (head, end) :- DecodeHead(b, at);
    match Owes(head)
    case None => Success(Walked(end, 0))
    case Some((kind, items)) =>
      if room == 0 then Failure(DepthExceeded)
      else
        var w :- Owed(b, end, kind, items, {}, room - 1, dups);
        Success(Walked(w.end, 1 + w.height))
  }

  /** The `remaining` items a container still owes, the keys of `seen` behind it. */
  function Owed(b: seq<byte>, at: nat, kind: Nesting, remaining: nat, seen: set<KeyRank>, room: nat, dups: bool):
    (r: Result<Walked, CborError>)
    requires at <= |b|
    ensures r.Success? ==> at + remaining <= r.value.end <= |b| && r.value.height <= room
    decreases |b| - at, 1, remaining
  {
    if remaining == 0 then Success(Walked(at, 0))
    else if ExpectsKey(kind, remaining) then
      var (head, end) :- DecodeHead(b, at);
      var key :- KeyOf(head);
      if dups && key in seen then Failure(RepeatedKey)
      else Owed(b, end, kind, remaining - 1, seen + {key}, room, dups)
    else
      var item :- Item(b, at, room, dups);
      var w :- Owed(b, item.end, kind, remaining - 1, seen, room, dups);
      Success(Walked(w.end, Max(item.height, w.height)))
  }

  // ---------------------------------------------------------------------------
  // What a walk does not depend on.

  /** More room than an item is high changes nothing; less refuses it. */
  lemma {:induction false} ItemRoom(b: seq<byte>, at: nat, room: nat, other: nat, dups: bool)
    requires at <= |b| && Item(b, at, room, dups).Success?
    ensures Item(b, at, other, dups) ==
            if Item(b, at, room, dups).value.height <= other then Item(b, at, room, dups) else Failure(DepthExceeded)
    decreases |b| - at, 0, 0
  {
    hide DecodeHead;
    var (head, end) := DecodeHead(b, at).value;
    if Owes(head).Some? && other > 0 {
      OwedRoom(b, end, Owes(head).value.0, Owes(head).value.1, {}, room - 1, other - 1, dups);
    }
  }

  lemma {:induction false} OwedRoom(b: seq<byte>, at: nat, kind: Nesting, remaining: nat, seen: set<KeyRank>,
                                    room: nat, other: nat, dups: bool)
    requires at <= |b| && Owed(b, at, kind, remaining, seen, room, dups).Success?
    ensures Owed(b, at, kind, remaining, seen, other, dups) ==
            if Owed(b, at, kind, remaining, seen, room, dups).value.height <= other
            then Owed(b, at, kind, remaining, seen, room, dups) else Failure(DepthExceeded)
    decreases |b| - at, 1, remaining
  {
    hide DecodeHead;
    if remaining == 0 {
    } else if ExpectsKey(kind, remaining) {
      var (head, end) := DecodeHead(b, at).value;
      OwedRoom(b, end, kind, remaining - 1, seen + {KeyOf(head).value}, room, other, dups);
    } else {
      var item := Item(b, at, room, dups).value;
      ItemRoom(b, at, room, other, dups);
      OwedRoom(b, item.end, kind, remaining - 1, seen, room, other, dups);
    }
  }

  /** Whether `c` carries at `to` the bytes `b` carries from `at` to `end`. */
  predicate SameBytes(b: seq<byte>, at: nat, end: nat, c: seq<byte>, to: nat) {
    at <= end <= |b| && to + (end - at) <= |c| && forall i :: at <= i < end ==> b[i] == c[to + (i - at)]
  }

  lemma SameSlice(b: seq<byte>, at: nat, end: nat, c: seq<byte>, to: nat, lo: nat, hi: nat)
    requires SameBytes(b, at, end, c, to) && at <= lo <= hi <= end
    ensures b[lo..hi] == c[to + (lo - at)..to + (hi - at)]
  {}

  lemma SameWithin(b: seq<byte>, at: nat, end: nat, c: seq<byte>, to: nat, lo: nat, hi: nat)
    requires SameBytes(b, at, end, c, to) && at <= lo <= hi <= end
    ensures SameBytes(b, lo, hi, c, to + (lo - at)) && to + (end - at) <= |c|
  {}

  lemma ArgumentLocal(b: seq<byte>, at: nat, info: nat, c: seq<byte>, to: nat)
    requires at <= |b| && info < 32 && Argument(b, at, info).Success?
    requires SameBytes(b, at, Argument(b, at, info).value.1, c, to)
    ensures Argument(c, to, info)
         == Success((Argument(b, at, info).value.0, to + (Argument(b, at, info).value.1 - at)))
  {
    SameSlice(b, at, Argument(b, at, info).value.1, c, to, at, Argument(b, at, info).value.1);
  }

  /** A head says the same wherever its bytes stand, given room behind it for the items it counts. */
  lemma HeadLocal(b: seq<byte>, at: nat, c: seq<byte>, to: nat)
    requires at <= |b| && DecodeHead(b, at).Success?
    requires var (head, end) := DecodeHead(b, at).value;
             && SameBytes(b, at, end, c, to)
             && (Owes(head).Some? ==> to + (end - at) + Owes(head).value.1 <= |c|)
    ensures var (head, end) := DecodeHead(b, at).value;
            DecodeHead(c, to) == Success((head, to + (end - at)))
  {
    hide Argument, Utf8;
    var (head, end) := DecodeHead(b, at).value;
    assert c[to] == b[at];
    var info := b[at] % 32;
    if MajorOf(b[at]) != Simple {
      var tail := Argument(b, at + 1, info).value.1;
      ArgumentLocal(b, at + 1, info, c, to + 1);
      SameSlice(b, at, end, c, to, tail, end);
    }
  }

  lemma OwedNothing(b: seq<byte>, at: nat, kind: Nesting, seen: set<KeyRank>, room: nat, dups: bool)
    requires at <= |b|
    ensures Owed(b, at, kind, 0, seen, room, dups) == Success(Walked(at, 0))
  {}

  /** One key, or one item, off what a container owes. */
  lemma OwedKeyStep(b: seq<byte>, at: nat, remaining: nat, seen: set<KeyRank>, room: nat, dups: bool)
    requires at <= |b| && 0 < remaining && remaining % 2 == 0
    ensures Owed(b, at, InMap, remaining, seen, room, dups) ==
            match DecodeHead(b, at) {
              case Failure(why) => Failure(why)
              case Success((head, end)) =>
                match KeyOf(head) {
                  case Failure(why) => Failure(why)
                  case Success(key) =>
                    if dups && key in seen then Failure(RepeatedKey)
                    else Owed(b, end, InMap, remaining - 1, seen + {key}, room, dups)
                }
            }
  {
    hide DecodeHead;
  }

  lemma OwedItemStep(b: seq<byte>, at: nat, kind: Nesting, remaining: nat, seen: set<KeyRank>, room: nat, dups: bool)
    requires at <= |b| && 0 < remaining && !ExpectsKey(kind, remaining)
    ensures Owed(b, at, kind, remaining, seen, room, dups) ==
            match Item(b, at, room, dups) {
              case Failure(why) => Failure(why)
              case Success(item) => AfterItem(item, Owed(b, item.end, kind, remaining - 1, seen, room, dups))
            }
  {
    hide Item;
  }

  function AfterItem(item: Walked, rest: Result<Walked, CborError>): Result<Walked, CborError> {
    match rest
    case Failure(why) => Failure(why)
    case Success(w) => Success(Walked(w.end, Max(item.height, w.height)))
  }

  /** An item is the same item wherever its bytes stand. */
  lemma {:induction false} ItemLocal(b: seq<byte>, at: nat, room: nat, dups: bool, c: seq<byte>, to: nat)
    requires at <= |b| && Item(b, at, room, dups).Success?
    requires SameBytes(b, at, Item(b, at, room, dups).value.end, c, to)
    ensures var w := Item(b, at, room, dups).value;
            Item(c, to, room, dups) == Success(Walked(to + (w.end - at), w.height))
    decreases |b| - at, 0, 0
  {
    hide DecodeHead, SameBytes;
    var w := Item(b, at, room, dups).value;
    var (head, end) := DecodeHead(b, at).value;
    SameWithin(b, at, w.end, c, to, at, end);
    SameWithin(b, at, w.end, c, to, end, w.end);
    HeadLocal(b, at, c, to);
    if Owes(head).Some? {
      var (kind, items) := Owes(head).value;
      OwedLocal(b, end, kind, items, {}, room - 1, dups, c, to + (end - at));
    }
  }

  lemma {:induction false} OwedLocal(b: seq<byte>, at: nat, kind: Nesting, remaining: nat, seen: set<KeyRank>,
                                     room: nat, dups: bool, c: seq<byte>, to: nat)
    requires at <= |b| && Owed(b, at, kind, remaining, seen, room, dups).Success?
    requires SameBytes(b, at, Owed(b, at, kind, remaining, seen, room, dups).value.end, c, to)
    ensures var w := Owed(b, at, kind, remaining, seen, room, dups).value;
            to <= |c| && Owed(c, to, kind, remaining, seen, room, dups) == Success(Walked(to + (w.end - at), w.height))
    decreases |b| - at, 1, remaining
  {
    hide DecodeHead, SameBytes, Owed, Item;
    var w := Owed(b, at, kind, remaining, seen, room, dups).value;
    SameWithin(b, at, w.end, c, to, at, w.end);
    if remaining == 0 {
      OwedNothing(b, at, kind, seen, room, dups);
      OwedNothing(c, to, kind, seen, room, dups);
    } else if ExpectsKey(kind, remaining) {
      OwedKeyStep(b, at, remaining, seen, room, dups);
      OwedKeyStep(c, to, remaining, seen, room, dups);
      var (head, end) := DecodeHead(b, at).value;
      SameWithin(b, at, w.end, c, to, at, end);
      SameWithin(b, at, w.end, c, to, end, w.end);
      HeadLocal(b, at, c, to);
      var more := seen + {KeyOf(head).value};
      OwedLocal(b, end, kind, remaining - 1, more, room, dups, c, to + (end - at));
    } else {
      OwedItemStep(b, at, kind, remaining, seen, room, dups);
      OwedItemStep(c, to, kind, remaining, seen, room, dups);
      var item := Item(b, at, room, dups).value;
      SameWithin(b, at, w.end, c, to, at, item.end);
      SameWithin(b, at, w.end, c, to, item.end, w.end);
      ItemLocal(b, at, room, dups, c, to);
      OwedLocal(b, item.end, kind, remaining - 1, seen, room, dups, c, to + (item.end - at));
    }
  }
}
