/**
 The decoder against the bytes alone: a body's structure parses exactly when it is one
 well-formed item of the right shape, and what is parsed is what stands under each key.
 Pairs may come in any order, and pairs under other keys may hold anything.
 */
module SectionBytes {
  import opened Bytes
  import opened Wrappers
  import opened Limits
  import opened CborHeads
  import opened CborGrammar
  import opened CborWalk
  import opened CborReaders
  import opened CborRestrictions
  import opened Sections
  import opened SectionWire
  import opened SectionParse

  // ---------------------------------------------------------------------------
  // Reading a map by position.

  /** A key within sixty-four bits, and where its value begins. */
  function KeyOfPair(b: seq<byte>, at: nat): (pair: Option<(int, nat)>)
    requires at <= |b|
    ensures pair.Some? ==> at < pair.value.1 <= |b|
  {
    if DecodeHead(b, at).Failure? || AsKey(DecodeHead(b, at).value.0).Failure? then None
    else Some((AsKey(DecodeHead(b, at).value.0).value, DecodeHead(b, at).value.1))
  }

  /** Where the value under `key` begins, among `left` pairs. */
  function Under(b: seq<byte>, at: nat, left: nat, room: nat, key: int): (value: Option<nat>)
    requires at <= |b|
    ensures value.Some? ==> value.value <= |b|
    decreases left
  {
    if left == 0 || KeyOfPair(b, at).None? then None
    else
      var (first, value) := KeyOfPair(b, at).value;
      if first == key then Some(value)
      else if Item(b, value, room, true).Failure? then None
      else Under(b, Item(b, value, room, true).value.end, left - 1, room, key)
  }

  /** The unsigned integer that stands somewhere, when it is one no greater than `max`. */
  function NumberAt(b: seq<byte>, at: nat, max: nat): (n: Option<int>)
    ensures n.Some? ==> 0 <= n.value <= max
  {
    if at > |b| || DecodeHead(b, at).Failure? then None
    else
      match DecodeHead(b, at).value.0
      case Unsigned(arg) => if arg <= max then Some(arg) else None
      case _ => None
  }

  function BoolAt(b: seq<byte>, at: nat): Option<bool> {
    if at > |b| || DecodeHead(b, at).Failure? then None
    else
      match DecodeHead(b, at).value.0
      case Bool(value) => Some(value)
      case _ => None
  }

  function BytesAt(b: seq<byte>, at: nat): Option<seq<byte>> {
    if at > |b| || DecodeHead(b, at).Failure? then None
    else
      match DecodeHead(b, at).value.0
      case Bytes(raw) => Some(raw)
      case _ => None
  }

  // ---------------------------------------------------------------------------
  // One read at a time.

  predicate AtValue(s: ReaderState) { Settle(s.frames) != [] && !AtKey(Settle(s.frames)) }

  /** A reader about to read `left` pairs of a map, `base` below it. */
  predicate InPairs(b: seq<byte>, s: ReaderState, base: seq<Frame>, left: nat, seen: set<KeyRank>) {
    Within(b, s) && |base| < MAX_DEPTH && Settle(s.frames) == Settle(base + [Frame(InMap, 2 * left, seen)])
  }

  function Room(base: seq<Frame>): nat
    requires |base| < MAX_DEPTH
  {
    MAX_DEPTH - |base| - 1
  }

  /** One value has been read whole. */
  predicate PastValue(s: ReaderState, after: ReaderState, end: nat) {
    after.next == end && Settle(after.frames) == Settle(Counted(Settle(s.frames)))
  }

  lemma OnBase(base: seq<Frame>, top: Frame)
    ensures Settle(base + [top]) == if top.remaining == 0 then Settle(base) else base + [top]
    ensures top.remaining > 0 ==> Counted(base + [top]) == base + [top.(remaining := top.remaining - 1)]
  {
    assert Front(base + [top]) == base;
  }

  lemma KeysAreIntegers(head: Head)
    requires AsKey(head).Success?
    ensures KeyOf(head).Success? && RankedAs(AsKey(head).value, KeyOf(head).value)
  {}

  /** A key taken at the top of the stack. */
  lemma KeyOnTop(base: seq<Frame>, left: nat, seen: set<KeyRank>, head: Head)
    requires left > 0 && KeyOf(head).Success?
    ensures var frames, rank := base + [Frame(InMap, 2 * left, seen)], KeyOf(head).value;
            var keyed := base + [Frame(InMap, 2 * left - 1, seen + {rank})];
            && AtKey(frames) && Settle(frames) == frames && AfterHead(frames, MAX_DEPTH, head) == Success(keyed)
            && Repeats(frames, head) == (rank in seen) && Settle(keyed) == keyed && keyed != [] && !AtKey(keyed)
  {
    var rank := KeyOf(head).value;
    var noted := base + [Frame(InMap, 2 * left, seen + {rank})];
    assert Front(noted) == base && Front(base + [Frame(InMap, 2 * left, seen)]) == base;
  }

  lemma KeyRead(b: seq<byte>, s: ReaderState, base: seq<Frame>, left: nat, seen: set<KeyRank>)
    returns (rank: KeyRank)
    requires InPairs(b, s, base, left, seen) && left > 0 && !s.skipped
    ensures Get(b, s, AsKey).Success? <==> KeyOfPair(b, s.next).Some?
    ensures KeyOfPair(b, s.next).Some? ==>
              var (key, at) := KeyOfPair(b, s.next).value;
              var keyed := Get(b, s, AsKey).value.1;
              && Get(b, s, AsKey).value.0 == key && keyed.next == at && !keyed.skipped
              && RankedAs(key, rank)
              && keyed.frames == base + [Frame(InMap, 2 * left - 1, seen + {rank})] && AtValue(keyed)
              && keyed.unsettled == (rank in seen)
              && (rank in seen ==> Owed(b, s.next, InMap, 2 * left, seen, Room(base), true).Failure?)
              && (rank !in seen ==> Owed(b, s.next, InMap, 2 * left, seen, Room(base), true)
                                    == Owed(b, at, InMap, 2 * left - 1, seen + {rank}, Room(base), true))
  {
    hide DecodeHead, Owed, AfterHead, AtKey, Repeats, Settle, AsKey;
    OnBase(base, Frame(InMap, 2 * left, seen));
    OwedKeyStep(b, s.next, 2 * left, seen, Room(base), true);
    rank := KeyRank(false, 0);
    if KeyOfPair(b, s.next).Some? {
      var head := DecodeHead(b, s.next).value.0;
      KeysAreIntegers(head);
      rank := KeyOf(head).value;
      KeyOnTop(base, left, seen, head);
    }
  }

  lemma ScalarRead(b: seq<byte>, s: ReaderState, room: nat)
    requires Within(b, s) && AtValue(s) && !s.skipped
    ensures ReadHead(b, s, true, false).Success? && Owes(ReadHead(b, s, true, false).value.0).None? ==>
              var after := ReadHead(b, s, true, false).value.1;
              && DecodeHead(b, s.next).Success? && ReadHead(b, s, true, false).value.0 == DecodeHead(b, s.next).value.0
              && PastValue(s, after, DecodeHead(b, s.next).value.1) && !after.skipped
              && Item(b, s.next, room, true) == Success(Walked(after.next, 0))
    ensures DecodeHead(b, s.next).Success? && Owes(DecodeHead(b, s.next).value.0).None? ==>
              ReadHead(b, s, true, false).Success?
              && ReadHead(b, s, true, false).value.0 == DecodeHead(b, s.next).value.0
    ensures DecodeHead(b, s.next).Failure? ==> ReadHead(b, s, true, false).Failure?
    ensures ReadHead(b, s, true, false).Success? ==>
              DecodeHead(b, s.next).Success? && ReadHead(b, s, true, false).value.0 == DecodeHead(b, s.next).value.0
  {
    hide DecodeHead;
  }

  lemma NumberRead(b: seq<byte>, s: ReaderState, max: nat, room: nat)
    requires Within(b, s) && AtValue(s) && !s.skipped
    ensures GetUnsigned(b, s, max).Success? <==> NumberAt(b, s.next, max).Some?
    ensures NumberAt(b, s.next, max).Some? ==>
              var (n, after) := GetUnsigned(b, s, max).value;
              && n == NumberAt(b, s.next, max).value && !after.skipped && Item(b, s.next, room, true).Success?
              && PastValue(s, after, Item(b, s.next, room, true).value.end)
  {
    hide DecodeHead, Item, ReadHead, AtValue;
    ScalarRead(b, s, room);
  }

  lemma BoolRead(b: seq<byte>, s: ReaderState, room: nat)
    requires Within(b, s) && AtValue(s) && !s.skipped
    ensures Get(b, s, AsBool).Success? <==> BoolAt(b, s.next).Some?
    ensures BoolAt(b, s.next).Some? ==>
              var (flag, after) := Get(b, s, AsBool).value;
              && flag == BoolAt(b, s.next).value && !after.skipped && Item(b, s.next, room, true).Success?
              && PastValue(s, after, Item(b, s.next, room, true).value.end)
  {
    hide DecodeHead, Item, ReadHead, AtValue;
    ScalarRead(b, s, room);
  }

  lemma BytesRead(b: seq<byte>, s: ReaderState, room: nat)
    requires Within(b, s) && AtValue(s) && !s.skipped
    ensures Get(b, s, AsBytes).Success? <==> BytesAt(b, s.next).Some?
    ensures BytesAt(b, s.next).Some? ==>
              var (raw, after) := Get(b, s, AsBytes).value;
              && raw == BytesAt(b, s.next).value && !after.skipped && Item(b, s.next, room, true).Success?
              && PastValue(s, after, Item(b, s.next, room, true).value.end)
  {
    hide DecodeHead, Item, ReadHead, AtValue;
    ScalarRead(b, s, room);
  }

  lemma SkipRead(b: seq<byte>, s: ReaderState, room: nat)
    requires Within(b, s) && AtValue(s) && !s.skipped && room + |Settle(s.frames)| == MAX_DEPTH
    ensures Skipped(b, s).Success? <==> Item(b, s.next, room, true).Success?
    ensures Skipped(b, s).Success? ==>
              var after := Skipped(b, s).value;
              PastValue(s, after, Item(b, s.next, room, true).value.end) && after.skipped == s.unsettled
  {
    hide Item;
    SettledTwice(Counted(Settle(s.frames)));
  }

  /** A map or an array opened: its own container on the counted stack. */
  lemma MapOpened(b: seq<byte>, s: ReaderState)
    requires Within(b, s) && AtValue(s) && !s.skipped
    ensures Get(b, s, AsMap).Success? <==>
            DecodeHead(b, s.next).Success? && DecodeHead(b, s.next).value.0.Map? && |Settle(s.frames)| < MAX_DEPTH
    ensures Get(b, s, AsMap).Success? ==>
              var (pairs, entered) := Get(b, s, AsMap).value;
              && DecodeHead(b, s.next).value == (Map(pairs), entered.next) && !entered.skipped
              && entered.frames == Counted(Settle(s.frames)) + [Frame(InMap, 2 * pairs, {})]
  {
    hide DecodeHead;
  }

  lemma ArrayOpened(b: seq<byte>, s: ReaderState)
    requires Within(b, s) && AtValue(s) && !s.skipped
    ensures Get(b, s, AsArray).Success? <==>
            DecodeHead(b, s.next).Success? && DecodeHead(b, s.next).value.0.Array? && |Settle(s.frames)| < MAX_DEPTH
    ensures Get(b, s, AsArray).Success? ==>
              var (count, entered) := Get(b, s, AsArray).value;
              && DecodeHead(b, s.next).value == (Array(count), entered.next) && !entered.skipped
              && entered.frames == Counted(Settle(s.frames)) + [Frame(InArray, count, {})]
  {
    hide DecodeHead;
  }

  /** After a skipped repeat nothing more can be read. */
  lemma SkippedFails(b: seq<byte>, s: ReaderState)
    requires Within(b, s)
    ensures s.skipped ==> Get(b, s, AsKey).Failure? && Get(b, s, AsMap).Failure? && Get(b, s, AsArray).Failure?
  {}

  // ---------------------------------------------------------------------------
  // A bus entry.

  function NumberUnder(b: seq<byte>, at: nat, left: nat, room: nat, key: int, max: nat): (n: Option<int>)
    requires at <= |b|
    ensures n.Some? ==> 0 <= n.value <= max
  {
    match Under(b, at, left, room, key)
    case None => None
    case Some(value) => NumberAt(b, value, max)
  }

  function Either<T>(first: Option<T>, second: Option<T>): Option<T> { if first.Some? then first else second }

  /** A value of the type its key gives it; under any other key, of any type. */
  predicate BusValueAt(b: seq<byte>, key: int, at: nat) {
    match key
    case 1 => NumberAt(b, at, 0xFF).Some?
    case 2 => NumberAt(b, at, 0xFFFF_FFFF).Some?
    case 3 => NumberAt(b, at, 0xFF).Some?
    case 4 => NumberAt(b, at, 0xFF).Some? && 1 <= NumberAt(b, at, 0xFF).value <= 3
    case 5 => NumberAt(b, at, 0xFF).Some?
    case _ => true
  }

  predicate BusTyped(b: seq<byte>, at: nat, left: nat, room: nat)
    requires at <= |b|
    decreases left
  {
    left == 0 || (KeyOfPair(b, at).Some? &&
                  var (key, value) := KeyOfPair(b, at).value;
                  && BusValueAt(b, key, value) && Item(b, value, room, true).Success?
                  && BusTyped(b, Item(b, value, room, true).value.end, left - 1, room))
  }

  predicate BusHeld(slots: BusSlots, key: int) {
    match key
    case 1 => slots.bus.Some?
    case 2 => slots.rate.Some?
    case 3 => slots.dataBits.Some?
    case 4 => slots.parity.Some?
    case 5 => slots.stopBits.Some?
    case _ => false
  }

  /** The slots after one pair. */
  predicate BusFills(b: seq<byte>, key: int, at: nat, room: nat, slots: BusSlots, filled: BusSlots) {
    match key
    case 1 => filled == slots.(bus := NumberAt(b, at, 0xFF))
    case 2 => filled == slots.(rate := NumberAt(b, at, 0xFFFF_FFFF))
    case 3 => filled == slots.(dataBits := NumberAt(b, at, 0xFF))
    case 4 => NumberAt(b, at, 0xFF).Some? && filled == slots.(parity := ParityOf(NumberAt(b, at, 0xFF).value))
    case 5 => filled == slots.(stopBits := NumberAt(b, at, 0xFF))
    case _ => filled == slots
  }

  function ParityUnder(b: seq<byte>, at: nat, left: nat, room: nat): Option<Parity>
    requires at <= |b|
  {
    match NumberUnder(b, at, left, room, 4, 0xFF)
    case None => None
    case Some(n) => ParityOf(n)
  }

  /** Each slot is what it was, or what stands under its key. */
  predicate BusSays(b: seq<byte>, at: nat, left: nat, room: nat, slots: BusSlots, filled: BusSlots)
    requires at <= |b|
  {
    && filled.bus == Either(slots.bus, NumberUnder(b, at, left, room, 1, 0xFF))
    && filled.rate == Either(slots.rate, NumberUnder(b, at, left, room, 2, 0xFFFF_FFFF))
    && filled.dataBits == Either(slots.dataBits, NumberUnder(b, at, left, room, 3, 0xFF))
    && filled.parity == Either(slots.parity, ParityUnder(b, at, left, room))
    && filled.stopBits == Either(slots.stopBits, NumberUnder(b, at, left, room, 5, 0xFF))
  }

  lemma BusFieldExactly(b: seq<byte>, s: ReaderState, key: int, slots: BusSlots, room: nat)
    requires Within(b, s) && AtValue(s) && !s.skipped && room + |Settle(s.frames)| == MAX_DEPTH
    requires s.unsettled && 1 <= key <= 5 ==> BusHeld(slots, key)
    ensures BusField(b, s, key, slots).Success? && !BusField(b, s, key, slots).value.1.skipped <==>
            !s.unsettled && !BusHeld(slots, key) && BusValueAt(b, key, s.next) && Item(b, s.next, room, true).Success?
    ensures BusField(b, s, key, slots).Success? && !BusField(b, s, key, slots).value.1.skipped ==>
              var (filled, after) := BusField(b, s, key, slots).value;
              BusFills(b, key, s.next, room, slots, filled)
              && PastValue(s, after, Item(b, s.next, room, true).value.end)
  {
    hide GetUnsigned, Skipped, PastValue, AtValue, Item, NumberAt;
    if 1 <= key <= 5 {
      NumberRead(b, s, if key == 2 then 0xFFFF_FFFF else 0xFF, room);
    } else {
      SkipRead(b, s, room);
    }
  }

  /** The rank a key sorts by. */
  predicate RankedAs(key: int, rank: KeyRank) { if key >= 0 then !rank.negative && rank.arg == key else rank.negative }

  /** What stands under a key is under the first pair, or under the rest. */
  lemma UnderFirst(b: seq<byte>, at: nat, left: nat, room: nat)
    requires at <= |b| && left > 0 && KeyOfPair(b, at).Some? && Item(b, KeyOfPair(b, at).value.1, room, true).Success?
    ensures var (first, value) := KeyOfPair(b, at).value;
            forall key :: Under(b, at, left, room, key) ==
              if first == key then Some(value) else Under(b, Item(b, value, room, true).value.end, left - 1, room, key)
  {
    hide Item, KeyOfPair;
  }

  /** One slot over one pair: filled by its own key, and otherwise as it was. */
  lemma NumberOn(b: seq<byte>, at: nat, left: nat, room: nat, key: int, max: nat, slot: Option<int>,
                 filled: Option<int>)
    requires at <= |b| && left > 0 && KeyOfPair(b, at).Some? && Item(b, KeyOfPair(b, at).value.1, room, true).Success?
    requires var (first, value) := KeyOfPair(b, at).value;
             if first == key then slot.None? && filled.Some? && filled == NumberAt(b, value, max) else filled == slot
    ensures var (first, value) := KeyOfPair(b, at).value;
            Either(filled, NumberUnder(b, Item(b, value, room, true).value.end, left - 1, room, key, max))
            == Either(slot, NumberUnder(b, at, left, room, key, max))
  {
    hide Item, NumberAt, KeyOfPair, Under;
    UnderFirst(b, at, left, room);
  }

  lemma ParityOn(b: seq<byte>, at: nat, left: nat, room: nat, slot: Option<Parity>, filled: Option<Parity>)
    requires at <= |b| && left > 0 && KeyOfPair(b, at).Some? && Item(b, KeyOfPair(b, at).value.1, room, true).Success?
    requires var (first, value) := KeyOfPair(b, at).value;
             if first == 4
               then slot.None? && BusValueAt(b, 4, value) && filled == ParityOf(NumberAt(b, value, 0xFF).value)
             else filled == slot
    ensures var (first, value) := KeyOfPair(b, at).value;
            Either(filled, ParityUnder(b, Item(b, value, room, true).value.end, left - 1, room))
            == Either(slot, ParityUnder(b, at, left, room))
  {
    hide Item, NumberAt, KeyOfPair, Under;
    UnderFirst(b, at, left, room);
  }

  lemma BusSaysOn(b: seq<byte>, at: nat, left: nat, room: nat, slots: BusSlots, filled: BusSlots, last: BusSlots)
    requires at <= |b| && left > 0 && KeyOfPair(b, at).Some? && Item(b, KeyOfPair(b, at).value.1, room, true).Success?
    requires var (key, value) := KeyOfPair(b, at).value;
             && BusFills(b, key, value, room, slots, filled) && BusValueAt(b, key, value) && !BusHeld(slots, key)
             && BusSays(b, Item(b, value, room, true).value.end, left - 1, room, filled, last)
    ensures BusSays(b, at, left, room, slots, last)
  {
    hide Item, NumberAt, KeyOfPair, Under, NumberUnder, ParityUnder;
    NumberOn(b, at, left, room, 1, 0xFF, slots.bus, filled.bus);
    NumberOn(b, at, left, room, 2, 0xFFFF_FFFF, slots.rate, filled.rate);
    NumberOn(b, at, left, room, 3, 0xFF, slots.dataBits, filled.dataBits);
    ParityOn(b, at, left, room, slots.parity, filled.parity);
    NumberOn(b, at, left, room, 5, 0xFF, slots.stopBits, filled.stopBits);
  }

  /** A slot is filled exactly when its key has been seen. */
  predicate BusAgrees(slots: BusSlots, seen: set<KeyRank>) {
    forall key :: 1 <= key <= 5 ==> (BusHeld(slots, key) <==> KeyRank(false, key) in seen)
  }

  lemma BusAgreesOn(b: seq<byte>, key: int, at: nat, room: nat, slots: BusSlots, filled: BusSlots,
                    seen: set<KeyRank>, rank: KeyRank)
    requires at <= |b| && BusAgrees(slots, seen) && BusFills(b, key, at, room, slots, filled)
    requires BusValueAt(b, key, at) && RankedAs(key, rank)
    ensures BusAgrees(filled, seen + {rank})
  {
    hide NumberAt;
  }

  lemma BusSaysNothing(b: seq<byte>, at: nat, room: nat, slots: BusSlots)
    requires at <= |b|
    ensures BusSays(b, at, 0, room, slots, slots)
  {}

  lemma BusHeldWhenSeen(slots: BusSlots, seen: set<KeyRank>, key: int, rank: KeyRank)
    requires BusAgrees(slots, seen) && RankedAs(key, rank)
    ensures 1 <= key <= 5 ==> (BusHeld(slots, key) <==> rank in seen)
    ensures !(1 <= key <= 5) ==> !BusHeld(slots, key)
  {}

  lemma {:induction false} BusFieldsExactly(b: seq<byte>, s: ReaderState, base: seq<Frame>, seen: set<KeyRank>,
                                            left: nat, slots: BusSlots)
    requires InPairs(b, s, base, left, seen) && !s.skipped && BusAgrees(slots, seen)
    ensures var r, room := BusFields(b, s, left, slots), Room(base);
            (r.Success? && !r.value.1.skipped) <==>
            Owed(b, s.next, InMap, 2 * left, seen, room, true).Success? && BusTyped(b, s.next, left, room)
    ensures var r, room := BusFields(b, s, left, slots), Room(base);
            r.Success? && !r.value.1.skipped ==>
              && r.value.1.next == Owed(b, s.next, InMap, 2 * left, seen, room, true).value.end
              && Settle(r.value.1.frames) == Settle(base) && BusSays(b, s.next, left, room, slots, r.value.0)
    decreases left
  {
    hide Get, BusField, BusFills, BusHeld, RankedAs, DecodeHead, BusValueAt, Item, Owed, AtValue, Settle, Counted,
         BusAgrees, BusSays, KeyOfPair;
    var room := Room(base);
    OnBase(base, Frame(InMap, 2 * left, seen));
    if left == 0 {
      OwedNothing(b, s.next, InMap, seen, room, true);
      BusSaysNothing(b, s.next, room, slots);
    } else {
      var rank := KeyRead(b, s, base, left, seen);
      if KeyOfPair(b, s.next).Some? {
        var (key, keyed) := Get(b, s, AsKey).value;
        OnBase(base, Frame(InMap, 2 * left - 1, seen + {rank}));
        BusHeldWhenSeen(slots, seen, key, rank);
        BusFieldExactly(b, keyed, key, slots, room);
        OwedItemStep(b, keyed.next, InMap, 2 * left - 1, seen + {rank}, room, true);
        if BusField(b, keyed, key, slots).Success? {
          var (filled, after) := BusField(b, keyed, key, slots).value;
          SkippedFails(b, after);
          if !after.skipped {
            BusAgreesOn(b, key, keyed.next, room, slots, filled, seen, rank);
            BusFieldsExactly(b, after, base, seen + {rank}, left - 1, filled);
            if BusFields(b, after, left - 1, filled).Success? {
              var last := BusFields(b, after, left - 1, filled).value;
              if !last.1.skipped { BusSaysOn(b, s.next, left, room, slots, filled, last.0); }
            }
          }
        }
      }
    }
  }

  /** A map's pairs and where they begin, if every item inside is well formed and no map in it repeats a key. */
  function MapAt(b: seq<byte>, at: nat, room: nat): (map_: Option<(nat, nat)>)
    ensures map_.Some? ==> map_.value.1 <= |b| && at <= |b| && room > 0
  {
    if at > |b| || room == 0 || DecodeHead(b, at).Failure? then None
    else
      match DecodeHead(b, at)
      case Success((Map(pairs), from)) =>
        if Owed(b, from, InMap, 2 * pairs, {}, room - 1, true).Success? then Some((pairs, from)) else None
      case _ => None
  }

  lemma MapItem(b: seq<byte>, at: nat, room: nat)
    requires MapAt(b, at, room).Some?
    ensures var (pairs, from) := MapAt(b, at, room).value;
            && Item(b, at, room, true).Success?
            && Item(b, at, room, true).value.end == Owed(b, from, InMap, 2 * pairs, {}, room - 1, true).value.end
  {
    hide DecodeHead, Owed;
  }

  predicate SomeSetting(b: seq<byte>, at: nat, left: nat, room: nat)
    requires at <= |b|
  {
    || Under(b, at, left, room, 2).Some? || Under(b, at, left, room, 3).Some?
    || Under(b, at, left, room, 4).Some? || Under(b, at, left, room, 5).Some?
  }

  /** The bytes of a bus entry: its bus, and something set. */
  predicate BusFormed(b: seq<byte>, at: nat, room: nat) {
    MapAt(b, at, room).Some? &&
    var (pairs, from) := MapAt(b, at, room).value;
    && BusTyped(b, from, pairs, room - 1) && Under(b, from, pairs, room - 1, 1).Some?
    && SomeSetting(b, from, pairs, room - 1)
  }

  /** What they say. */
  predicate BusIs(b: seq<byte>, at: nat, room: nat, raw: BusRecord) {
    MapAt(b, at, room).Some? &&
    var (pairs, from) := MapAt(b, at, room).value;
    && NumberUnder(b, from, pairs, room - 1, 1, 0xFF) == Some(raw.bus)
    && raw.rate == NumberUnder(b, from, pairs, room - 1, 2, 0xFFFF_FFFF)
    && raw.dataBits == NumberUnder(b, from, pairs, room - 1, 3, 0xFF)
    && raw.parity == ParityUnder(b, from, pairs, room - 1)
    && raw.stopBits == NumberUnder(b, from, pairs, room - 1, 5, 0xFF)
  }

  /** In a typed map whatever stands under a key is of its type. */
  lemma {:induction false} BusUnderTyped(b: seq<byte>, at: nat, left: nat, room: nat, key: int)
    requires at <= |b| && BusTyped(b, at, left, room) && Under(b, at, left, room, key).Some?
    ensures BusValueAt(b, key, Under(b, at, left, room, key).value)
    decreases left
  {
    hide Item, BusValueAt;
    var (first, value) := KeyOfPair(b, at).value;
    if first != key { BusUnderTyped(b, Item(b, value, room, true).value.end, left - 1, room, key); }
  }

  lemma BusSet(b: seq<byte>, at: nat, left: nat, room: nat, filled: BusSlots)
    requires at <= |b| && BusTyped(b, at, left, room) && BusSays(b, at, left, room, NO_BUS, filled)
    ensures filled.bus.Some? <==> Under(b, at, left, room, 1).Some?
    ensures filled.rate.Some? || filled.dataBits.Some? || filled.parity.Some? || filled.stopBits.Some? <==>
            SomeSetting(b, at, left, room)
  {
    hide BusTyped, Under, NumberAt;
    forall key | 1 <= key <= 5 && Under(b, at, left, room, key).Some?
      ensures BusValueAt(b, key, Under(b, at, left, room, key).value)
    {
      BusUnderTyped(b, at, left, room, key);
    }
  }

  /** A bus entry parses exactly when its bytes form one, and to what they say. */
  lemma ParseBusExactly(b: seq<byte>, s: ReaderState, room: nat)
    requires Within(b, s) && AtValue(s) && !s.skipped && room + |Settle(s.frames)| == MAX_DEPTH
    ensures ParseBus(b, s).Success? && !ParseBus(b, s).value.1.skipped <==> BusFormed(b, s.next, room)
    ensures ParseBus(b, s).Success? && !ParseBus(b, s).value.1.skipped ==>
              && BusIs(b, s.next, room, ParseBus(b, s).value.0) && Item(b, s.next, room, true).Success?
              && PastValue(s, ParseBus(b, s).value.1, Item(b, s.next, room, true).value.end)
  {
    hide Get, BusFields, DecodeHead, Item, Owed, AtValue, Settle, Counted, BusTyped, Under, NumberUnder, ParityUnder;
    MapOpened(b, s);
    if Get(b, s, AsMap).Success? {
      var (pairs, entered) := Get(b, s, AsMap).value;
      var base := Counted(Settle(s.frames));
      BusFieldsExactly(b, entered, base, {}, pairs, NO_BUS);
      if BusFields(b, entered, pairs, NO_BUS).Success? && !BusFields(b, entered, pairs, NO_BUS).value.1.skipped {
        MapItem(b, s.next, room);
        BusSet(b, entered.next, pairs, room - 1, BusFields(b, entered, pairs, NO_BUS).value.0);
      }
    }
  }

  // ---------------------------------------------------------------------------
  // Options.

  predicate OptionValueAt(b: seq<byte>, key: int, at: nat) {
    match key
    case 1 => NumberAt(b, at, 0xFF).Some? && 1 <= NumberAt(b, at, 0xFF).value <= 3
    case 2 => NumberAt(b, at, 0xFF).Some? && 1 <= NumberAt(b, at, 0xFF).value <= 2
    case 3 => BoolAt(b, at).Some?
    case 4 => NumberAt(b, at, 0xFFFF_FFFF).Some?
    case _ => true
  }

  predicate OptionTyped(b: seq<byte>, at: nat, left: nat, room: nat)
    requires at <= |b|
    decreases left
  {
    left == 0 || (KeyOfPair(b, at).Some? &&
                  var (key, value) := KeyOfPair(b, at).value;
                  && OptionValueAt(b, key, value) && Item(b, value, room, true).Success?
                  && OptionTyped(b, Item(b, value, room, true).value.end, left - 1, room))
  }

  predicate OptionHeld(slots: OptionSlots, key: int) {
    match key
    case 1 => slots.direction.Some?
    case 2 => slots.version.Some?
    case 3 => slots.lowVoltage.Some?
    case 4 => slots.poll.Some?
    case _ => false
  }

  predicate OptionFills(b: seq<byte>, key: int, at: nat, room: nat, slots: OptionSlots, filled: OptionSlots) {
    match key
    case 1 => NumberAt(b, at, 0xFF).Some? && filled == slots.(direction := DirectionOf(NumberAt(b, at, 0xFF).value))
    case 2 => NumberAt(b, at, 0xFF).Some? && filled == slots.(version := VersionOf(NumberAt(b, at, 0xFF).value))
    case 3 => filled == slots.(lowVoltage := BoolAt(b, at))
    case 4 => filled == slots.(poll := NumberAt(b, at, 0xFFFF_FFFF))
    case _ => filled == slots.(unknown := slots.unknown + [key])
  }

  function DirectionUnder(b: seq<byte>, at: nat, left: nat, room: nat): Option<Direction>
    requires at <= |b|
  {
    match NumberUnder(b, at, left, room, 1, 0xFF)
    case None => None
    case Some(n) => DirectionOf(n)
  }

  function VersionUnder(b: seq<byte>, at: nat, left: nat, room: nat): Option<PylontechVersion>
    requires at <= |b|
  {
    match NumberUnder(b, at, left, room, 2, 0xFF)
    case None => None
    case Some(n) => VersionOf(n)
  }

  function BoolUnder(b: seq<byte>, at: nat, left: nat, room: nat, key: int): Option<bool>
    requires at <= |b|
  {
    match Under(b, at, left, room, key)
    case None => None
    case Some(value) => BoolAt(b, value)
  }

  /** The keys that are no option's, in the order they come. */
  function UnknownKeys(b: seq<byte>, at: nat, left: nat, room: nat): seq<int>
    requires at <= |b|
    decreases left
  {
    if left == 0 || KeyOfPair(b, at).None? then []
    else
      var (key, value) := KeyOfPair(b, at).value;
      (if 1 <= key <= 4 then [] else [key])
      + if Item(b, value, room, true).Failure? then []
        else UnknownKeys(b, Item(b, value, room, true).value.end, left - 1, room)
  }

  predicate OptionSays(b: seq<byte>, at: nat, left: nat, room: nat, slots: OptionSlots, filled: OptionSlots)
    requires at <= |b|
  {
    && filled.direction == Either(slots.direction, DirectionUnder(b, at, left, room))
    && filled.version == Either(slots.version, VersionUnder(b, at, left, room))
    && filled.lowVoltage == Either(slots.lowVoltage, BoolUnder(b, at, left, room, 3))
    && filled.poll == Either(slots.poll, NumberUnder(b, at, left, room, 4, 0xFFFF_FFFF))
    && filled.unknown == slots.unknown + UnknownKeys(b, at, left, room)
  }

  lemma OptionFieldExactly(b: seq<byte>, s: ReaderState, key: int, slots: OptionSlots, room: nat)
    requires Within(b, s) && AtValue(s) && !s.skipped && room + |Settle(s.frames)| == MAX_DEPTH
    requires s.unsettled && 1 <= key <= 4 ==> OptionHeld(slots, key)
    ensures OptionField(b, s, key, slots).Success? && !OptionField(b, s, key, slots).value.1.skipped <==>
            !s.unsettled && !OptionHeld(slots, key) && OptionValueAt(b, key, s.next)
            && Item(b, s.next, room, true).Success?
    ensures OptionField(b, s, key, slots).Success? && !OptionField(b, s, key, slots).value.1.skipped ==>
              var (filled, after) := OptionField(b, s, key, slots).value;
              && OptionFills(b, key, s.next, room, slots, filled)
              && PastValue(s, after, Item(b, s.next, room, true).value.end)
  {
    hide GetUnsigned, Get, Skipped, PastValue, AtValue, Item, NumberAt, BoolAt;
    if key == 3 {
      BoolRead(b, s, room);
    } else if 1 <= key <= 4 {
      NumberRead(b, s, if key == 4 then 0xFFFF_FFFF else 0xFF, room);
    } else {
      SkipRead(b, s, room);
    }
  }

  lemma BoolOn(b: seq<byte>, at: nat, left: nat, room: nat, key: int, slot: Option<bool>, filled: Option<bool>)
    requires at <= |b| && left > 0 && KeyOfPair(b, at).Some? && Item(b, KeyOfPair(b, at).value.1, room, true).Success?
    requires var (first, value) := KeyOfPair(b, at).value;
             if first == key then slot.None? && filled.Some? && filled == BoolAt(b, value) else filled == slot
    ensures var (first, value) := KeyOfPair(b, at).value;
            Either(filled, BoolUnder(b, Item(b, value, room, true).value.end, left - 1, room, key))
            == Either(slot, BoolUnder(b, at, left, room, key))
  {
    hide Item, BoolAt, KeyOfPair, Under;
    UnderFirst(b, at, left, room);
  }

  lemma DirectionOn(b: seq<byte>, at: nat, left: nat, room: nat, slot: Option<Direction>, filled: Option<Direction>)
    requires at <= |b| && left > 0 && KeyOfPair(b, at).Some? && Item(b, KeyOfPair(b, at).value.1, room, true).Success?
    requires var (first, value) := KeyOfPair(b, at).value;
             if first == 1 then slot.None? && OptionValueAt(b, 1, value)
                                && filled == DirectionOf(NumberAt(b, value, 0xFF).value)
             else filled == slot
    ensures var (first, value) := KeyOfPair(b, at).value;
            Either(filled, DirectionUnder(b, Item(b, value, room, true).value.end, left - 1, room))
            == Either(slot, DirectionUnder(b, at, left, room))
  {
    hide Item, NumberAt, KeyOfPair, Under;
    UnderFirst(b, at, left, room);
  }

  lemma VersionOn(b: seq<byte>, at: nat, left: nat, room: nat, slot: Option<PylontechVersion>,
                  filled: Option<PylontechVersion>)
    requires at <= |b| && left > 0 && KeyOfPair(b, at).Some? && Item(b, KeyOfPair(b, at).value.1, room, true).Success?
    requires var (first, value) := KeyOfPair(b, at).value;
             if first == 2 then slot.None? && OptionValueAt(b, 2, value)
                                && filled == VersionOf(NumberAt(b, value, 0xFF).value)
             else filled == slot
    ensures var (first, value) := KeyOfPair(b, at).value;
            Either(filled, VersionUnder(b, Item(b, value, room, true).value.end, left - 1, room))
            == Either(slot, VersionUnder(b, at, left, room))
  {
    hide Item, NumberAt, KeyOfPair, Under;
    UnderFirst(b, at, left, room);
  }

  lemma UnknownOn(b: seq<byte>, at: nat, left: nat, room: nat, before: seq<int>)
    requires at <= |b| && left > 0 && KeyOfPair(b, at).Some? && Item(b, KeyOfPair(b, at).value.1, room, true).Success?
    ensures var (key, value) := KeyOfPair(b, at).value;
            (if 1 <= key <= 4 then before else before + [key])
            + UnknownKeys(b, Item(b, value, room, true).value.end, left - 1, room)
            == before + UnknownKeys(b, at, left, room)
  {
    hide Item, KeyOfPair;
  }

  lemma OptionSaysOn(b: seq<byte>, at: nat, left: nat, room: nat, slots: OptionSlots, filled: OptionSlots,
                     last: OptionSlots)
    requires at <= |b| && left > 0 && KeyOfPair(b, at).Some? && Item(b, KeyOfPair(b, at).value.1, room, true).Success?
    requires var (key, value) := KeyOfPair(b, at).value;
             && OptionFills(b, key, value, room, slots, filled) && OptionValueAt(b, key, value)
                && !OptionHeld(slots, key)
             && OptionSays(b, Item(b, value, room, true).value.end, left - 1, room, filled, last)
    ensures OptionSays(b, at, left, room, slots, last)
  {
    hide Item, NumberAt, BoolAt, KeyOfPair, Under, NumberUnder, BoolUnder, DirectionUnder, VersionUnder, UnknownKeys;
    DirectionOn(b, at, left, room, slots.direction, filled.direction);
    VersionOn(b, at, left, room, slots.version, filled.version);
    BoolOn(b, at, left, room, 3, slots.lowVoltage, filled.lowVoltage);
    NumberOn(b, at, left, room, 4, 0xFFFF_FFFF, slots.poll, filled.poll);
    UnknownOn(b, at, left, room, slots.unknown);
  }

  /** A slot is filled exactly when its key has been seen. */
  predicate OptionAgrees(slots: OptionSlots, seen: set<KeyRank>) {
    forall key :: 1 <= key <= 4 ==> (OptionHeld(slots, key) <==> KeyRank(false, key) in seen)
  }

  lemma OptionAgreesOn(b: seq<byte>, key: int, at: nat, room: nat, slots: OptionSlots, filled: OptionSlots,
                    seen: set<KeyRank>, rank: KeyRank)
    requires at <= |b| && OptionAgrees(slots, seen) && OptionFills(b, key, at, room, slots, filled)
    requires OptionValueAt(b, key, at) && RankedAs(key, rank)
    ensures OptionAgrees(filled, seen + {rank})
  {
    hide NumberAt, BoolAt;
  }

  lemma OptionSaysNothing(b: seq<byte>, at: nat, room: nat, slots: OptionSlots)
    requires at <= |b|
    ensures OptionSays(b, at, 0, room, slots, slots)
  {}

  lemma OptionHeldWhenSeen(slots: OptionSlots, seen: set<KeyRank>, key: int, rank: KeyRank)
    requires OptionAgrees(slots, seen) && RankedAs(key, rank)
    ensures 1 <= key <= 4 ==> (OptionHeld(slots, key) <==> rank in seen)
    ensures !(1 <= key <= 4) ==> !OptionHeld(slots, key)
  {}

  lemma {:induction false} OptionFieldsExactly(b: seq<byte>, s: ReaderState, base: seq<Frame>, seen: set<KeyRank>,
                                               left: nat, slots: OptionSlots)
    requires InPairs(b, s, base, left, seen) && !s.skipped && OptionAgrees(slots, seen)
    ensures var r, room := OptionFields(b, s, left, slots), Room(base);
            (r.Success? && !r.value.1.skipped) <==>
            Owed(b, s.next, InMap, 2 * left, seen, room, true).Success? && OptionTyped(b, s.next, left, room)
    ensures var r, room := OptionFields(b, s, left, slots), Room(base);
            r.Success? && !r.value.1.skipped ==>
              && r.value.1.next == Owed(b, s.next, InMap, 2 * left, seen, room, true).value.end
              && Settle(r.value.1.frames) == Settle(base) && OptionSays(b, s.next, left, room, slots, r.value.0)
    decreases left
  {
    hide Get, OptionField, OptionFills, OptionHeld, RankedAs, DecodeHead, OptionValueAt, Item, Owed, AtValue, Settle,
         Counted, OptionAgrees, OptionSays, KeyOfPair;
    var room := Room(base);
    OnBase(base, Frame(InMap, 2 * left, seen));
    if left == 0 {
      OwedNothing(b, s.next, InMap, seen, room, true);
      OptionSaysNothing(b, s.next, room, slots);
    } else {
      var rank := KeyRead(b, s, base, left, seen);
      if KeyOfPair(b, s.next).Some? {
        var (key, keyed) := Get(b, s, AsKey).value;
        OnBase(base, Frame(InMap, 2 * left - 1, seen + {rank}));
        OptionHeldWhenSeen(slots, seen, key, rank);
        OptionFieldExactly(b, keyed, key, slots, room);
        OwedItemStep(b, keyed.next, InMap, 2 * left - 1, seen + {rank}, room, true);
        if OptionField(b, keyed, key, slots).Success? {
          var (filled, after) := OptionField(b, keyed, key, slots).value;
          SkippedFails(b, after);
          if !after.skipped {
            OptionAgreesOn(b, key, keyed.next, room, slots, filled, seen, rank);
            OptionFieldsExactly(b, after, base, seen + {rank}, left - 1, filled);
            if OptionFields(b, after, left - 1, filled).Success? {
              var last := OptionFields(b, after, left - 1, filled).value;
              if !last.1.skipped { OptionSaysOn(b, s.next, left, room, slots, filled, last.0); }
            }
          }
        }
      }
    }
  }

  predicate OptionsFormed(b: seq<byte>, at: nat, room: nat) {
    MapAt(b, at, room).Some? &&
    var (pairs, from) := MapAt(b, at, room).value;
    pairs > 0 && OptionTyped(b, from, pairs, room - 1)
  }

  predicate OptionsAre(b: seq<byte>, at: nat, room: nat, raw: OptionSlots) {
    MapAt(b, at, room).Some? &&
    var (pairs, from) := MapAt(b, at, room).value;
    && raw.direction == DirectionUnder(b, from, pairs, room - 1)
    && raw.version == VersionUnder(b, from, pairs, room - 1)
    && raw.lowVoltage == BoolUnder(b, from, pairs, room - 1, 3)
    && raw.poll == NumberUnder(b, from, pairs, room - 1, 4, 0xFFFF_FFFF)
    && raw.unknown == UnknownKeys(b, from, pairs, room - 1)
  }

  /** So do options, those nobody allocated set aside in order. */
  lemma ParseOptionsExactly(b: seq<byte>, s: ReaderState, room: nat)
    requires Within(b, s) && AtValue(s) && !s.skipped && room + |Settle(s.frames)| == MAX_DEPTH
    ensures ParseOptions(b, s).Success? && !ParseOptions(b, s).value.1.skipped <==> OptionsFormed(b, s.next, room)
    ensures ParseOptions(b, s).Success? && !ParseOptions(b, s).value.1.skipped ==>
              && OptionsAre(b, s.next, room, ParseOptions(b, s).value.0) && Item(b, s.next, room, true).Success?
              && PastValue(s, ParseOptions(b, s).value.1, Item(b, s.next, room, true).value.end)
  {
    hide Get, OptionFields, DecodeHead, Item, Owed, AtValue, Settle, Counted, OptionTyped, Under, NumberUnder,
         BoolUnder,
         DirectionUnder, VersionUnder, UnknownKeys;
    MapOpened(b, s);
    if Get(b, s, AsMap).Success? {
      var (pairs, entered) := Get(b, s, AsMap).value;
      var base := Counted(Settle(s.frames));
      OptionFieldsExactly(b, entered, base, {}, pairs, NO_OPTION_SLOTS);
      if OptionFields(b, entered, pairs, NO_OPTION_SLOTS).Success?
         && !OptionFields(b, entered, pairs, NO_OPTION_SLOTS).value.1.skipped {
        MapItem(b, s.next, room);
        var raw := OptionFields(b, entered, pairs, NO_OPTION_SLOTS).value.0;
        assert [] + UnknownKeys(b, entered.next, pairs, room - 1) == UnknownKeys(b, entered.next, pairs, room - 1);
      }
    }
  }

  // ---------------------------------------------------------------------------
  // A device entry.

  predicate DeviceValueAt(b: seq<byte>, key: int, at: nat, room: nat) {
    match key
    case 1 => NumberAt(b, at, 0xFFFF).Some?
    case 2 => NumberAt(b, at, 0xFF).Some?
    case 3 => BytesAt(b, at).Some?
    case 4 => NumberAt(b, at, 0xFFFF).Some?
    case 5 => NumberAt(b, at, 0xFFFF).Some?
    case 6 => NumberAt(b, at, 0xFFFF).Some?
    case 7 => NumberAt(b, at, 0xFFFF).Some?
    case 8 => OptionsFormed(b, at, room)
    case _ => true
  }

  predicate DeviceTyped(b: seq<byte>, at: nat, left: nat, room: nat)
    requires at <= |b|
    decreases left
  {
    left == 0 || (KeyOfPair(b, at).Some? &&
                  var (key, value) := KeyOfPair(b, at).value;
                  && DeviceValueAt(b, key, value, room) && Item(b, value, room, true).Success?
                  && DeviceTyped(b, Item(b, value, room, true).value.end, left - 1, room))
  }

  predicate DeviceHeld(slots: DeviceSlots, key: int) {
    match key
    case 1 => slots.dev.Some?
    case 2 => slots.bus.Some?
    case 3 => slots.addr.Some?
    case 4 => slots.product.Some?
    case 5 => slots.dialect.Some?
    case 6 => slots.role.Some?
    case 7 => slots.parent.Some?
    case 8 => slots.options.Some?
    case _ => false
  }

  predicate DeviceFills(b: seq<byte>, key: int, at: nat, room: nat, slots: DeviceSlots, filled: DeviceSlots) {
    match key
    case 1 => filled == slots.(dev := NumberAt(b, at, 0xFFFF))
    case 2 => filled == slots.(bus := NumberAt(b, at, 0xFF))
    case 3 => filled == slots.(addr := BytesAt(b, at))
    case 4 => filled == slots.(product := NumberAt(b, at, 0xFFFF))
    case 5 => filled == slots.(dialect := NumberAt(b, at, 0xFFFF))
    case 6 => filled == slots.(role := NumberAt(b, at, 0xFFFF))
    case 7 => filled == slots.(parent := NumberAt(b, at, 0xFFFF))
    case 8 => filled.options.Some? && OptionsAre(b, at, room, filled.options.value)
              && filled == slots.(options := filled.options)
    case _ => filled == slots
  }

  function BytesUnder(b: seq<byte>, at: nat, left: nat, room: nat, key: int): Option<seq<byte>>
    requires at <= |b|
  {
    match Under(b, at, left, room, key)
    case None => None
    case Some(value) => BytesAt(b, value)
  }

  /** The options are those that stand under key 8, or there are none of either. */
  predicate OptionsUnder(b: seq<byte>, at: nat, left: nat, room: nat, options: Option<OptionSlots>)
    requires at <= |b|
  {
    match Under(b, at, left, room, 8)
    case None => options.None?
    case Some(value) => options.Some? && OptionsAre(b, value, room, options.value)
  }

  predicate DeviceSays(b: seq<byte>, at: nat, left: nat, room: nat, slots: DeviceSlots, filled: DeviceSlots)
    requires at <= |b|
  {
    && filled.dev == Either(slots.dev, NumberUnder(b, at, left, room, 1, 0xFFFF))
    && filled.bus == Either(slots.bus, NumberUnder(b, at, left, room, 2, 0xFF))
    && filled.addr == Either(slots.addr, BytesUnder(b, at, left, room, 3))
    && filled.product == Either(slots.product, NumberUnder(b, at, left, room, 4, 0xFFFF))
    && filled.dialect == Either(slots.dialect, NumberUnder(b, at, left, room, 5, 0xFFFF))
    && filled.role == Either(slots.role, NumberUnder(b, at, left, room, 6, 0xFFFF))
    && filled.parent == Either(slots.parent, NumberUnder(b, at, left, room, 7, 0xFFFF))
    && (if slots.options.Some? then filled.options
        == slots.options else OptionsUnder(b, at, left, room, filled.options))
  }

  lemma DeviceFieldExactly(b: seq<byte>, s: ReaderState, key: int, slots: DeviceSlots, room: nat)
    requires Within(b, s) && AtValue(s) && !s.skipped && room + |Settle(s.frames)| == MAX_DEPTH
    requires s.unsettled && 1 <= key <= 8 ==> DeviceHeld(slots, key)
    ensures DeviceField(b, s, key, slots).Success? && !DeviceField(b, s, key, slots).value.1.skipped <==>
            && !s.unsettled && !DeviceHeld(slots, key) && DeviceValueAt(b, key, s.next, room)
            && Item(b, s.next, room, true).Success?
    ensures DeviceField(b, s, key, slots).Success? && !DeviceField(b, s, key, slots).value.1.skipped ==>
              var (filled, after) := DeviceField(b, s, key, slots).value;
              && DeviceFills(b, key, s.next, room, slots, filled)
              && PastValue(s, after, Item(b, s.next, room, true).value.end)
  {
    hide GetUnsigned, Get, Skipped, ParseOptions, PastValue, AtValue, Item, NumberAt, BytesAt, OptionsFormed,
         OptionsAre;
    if key == 3 {
      BytesRead(b, s, room);
    } else if key == 8 {
      ParseOptionsExactly(b, s, room);
      OptionsItem(b, s.next, room);
    } else if 1 <= key <= 7 {
      NumberRead(b, s, if key == 2 then 0xFF else 0xFFFF, room);
    } else {
      SkipRead(b, s, room);
    }
  }

  lemma OptionsItem(b: seq<byte>, at: nat, room: nat)
    requires at <= |b|
    ensures OptionsFormed(b, at, room) ==> Item(b, at, room, true).Success?
  {
    hide Item;
    if OptionsFormed(b, at, room) { MapItem(b, at, room); }
  }

  lemma BytesOn(b: seq<byte>, at: nat, left: nat, room: nat, key: int, slot: Option<seq<byte>>,
                filled: Option<seq<byte>>)
    requires at <= |b| && left > 0 && KeyOfPair(b, at).Some? && Item(b, KeyOfPair(b, at).value.1, room, true).Success?
    requires var (first, value) := KeyOfPair(b, at).value;
             if first == key then slot.None? && filled.Some? && filled == BytesAt(b, value) else filled == slot
    ensures var (first, value) := KeyOfPair(b, at).value;
            Either(filled, BytesUnder(b, Item(b, value, room, true).value.end, left - 1, room, key))
            == Either(slot, BytesUnder(b, at, left, room, key))
  {
    hide Item, BytesAt, KeyOfPair, Under;
    UnderFirst(b, at, left, room);
  }

  lemma OptionsOn(b: seq<byte>, at: nat, left: nat, room: nat, slots: DeviceSlots, filled: DeviceSlots,
                  last: DeviceSlots)
    requires at <= |b| && left > 0 && KeyOfPair(b, at).Some? && Item(b, KeyOfPair(b, at).value.1, room, true).Success?
    requires var (key, value) := KeyOfPair(b, at).value;
             && DeviceFills(b, key, value, room, slots, filled) && !DeviceHeld(slots, key)
             && (if filled.options.Some? then last.options == filled.options
                 else OptionsUnder(b, Item(b, value, room, true).value.end, left - 1, room, last.options))
    ensures if slots.options.Some? then last.options == slots.options else OptionsUnder(b, at, left, room, last.options)
  {
    hide Item, NumberAt, BytesAt, KeyOfPair, Under, OptionsAre;
    UnderFirst(b, at, left, room);
  }

  lemma DeviceSaysFirst(b: seq<byte>, at: nat, left: nat, room: nat, slots: DeviceSlots, filled: DeviceSlots,
                        last: DeviceSlots)
    requires at <= |b| && left > 0 && KeyOfPair(b, at).Some? && Item(b, KeyOfPair(b, at).value.1, room, true).Success?
    requires var (key, value) := KeyOfPair(b, at).value;
             && DeviceFills(b, key, value, room, slots, filled) && DeviceValueAt(b, key, value, room)
             && !DeviceHeld(slots, key)
             && DeviceSays(b, Item(b, value, room, true).value.end, left - 1, room, filled, last)
    ensures last.dev == Either(slots.dev, NumberUnder(b, at, left, room, 1, 0xFFFF))
    ensures last.bus == Either(slots.bus, NumberUnder(b, at, left, room, 2, 0xFF))
    ensures last.addr == Either(slots.addr, BytesUnder(b, at, left, room, 3))
    ensures last.product == Either(slots.product, NumberUnder(b, at, left, room, 4, 0xFFFF))
  {
    hide Item, NumberAt, BytesAt, KeyOfPair, Under, NumberUnder, BytesUnder, OptionsUnder, OptionsAre, OptionsFormed;
    NumberOn(b, at, left, room, 1, 0xFFFF, slots.dev, filled.dev);
    NumberOn(b, at, left, room, 2, 0xFF, slots.bus, filled.bus);
    BytesOn(b, at, left, room, 3, slots.addr, filled.addr);
    NumberOn(b, at, left, room, 4, 0xFFFF, slots.product, filled.product);
  }

  lemma DeviceSaysRest(b: seq<byte>, at: nat, left: nat, room: nat, slots: DeviceSlots, filled: DeviceSlots,
                       last: DeviceSlots)
    requires at <= |b| && left > 0 && KeyOfPair(b, at).Some? && Item(b, KeyOfPair(b, at).value.1, room, true).Success?
    requires var (key, value) := KeyOfPair(b, at).value;
             && DeviceFills(b, key, value, room, slots, filled) && DeviceValueAt(b, key, value, room)
             && !DeviceHeld(slots, key)
             && DeviceSays(b, Item(b, value, room, true).value.end, left - 1, room, filled, last)
    ensures last.dialect == Either(slots.dialect, NumberUnder(b, at, left, room, 5, 0xFFFF))
    ensures last.role == Either(slots.role, NumberUnder(b, at, left, room, 6, 0xFFFF))
    ensures last.parent == Either(slots.parent, NumberUnder(b, at, left, room, 7, 0xFFFF))
    ensures if slots.options.Some? then last.options == slots.options else OptionsUnder(b, at, left, room, last.options)
  {
    hide Item, NumberAt, BytesAt, KeyOfPair, Under, NumberUnder, BytesUnder, OptionsUnder, OptionsAre, OptionsFormed;
    NumberOn(b, at, left, room, 5, 0xFFFF, slots.dialect, filled.dialect);
    NumberOn(b, at, left, room, 6, 0xFFFF, slots.role, filled.role);
    NumberOn(b, at, left, room, 7, 0xFFFF, slots.parent, filled.parent);
    OptionsOn(b, at, left, room, slots, filled, last);
  }

  lemma DeviceSaysOn(b: seq<byte>, at: nat, left: nat, room: nat, slots: DeviceSlots, filled: DeviceSlots,
                     last: DeviceSlots)
    requires at <= |b| && left > 0 && KeyOfPair(b, at).Some? && Item(b, KeyOfPair(b, at).value.1, room, true).Success?
    requires var (key, value) := KeyOfPair(b, at).value;
             && DeviceFills(b, key, value, room, slots, filled) && DeviceValueAt(b, key, value, room)
             && !DeviceHeld(slots, key)
             && DeviceSays(b, Item(b, value, room, true).value.end, left - 1, room, filled, last)
    ensures DeviceSays(b, at, left, room, slots, last)
  {
    hide Item, KeyOfPair, NumberUnder, BytesUnder, OptionsUnder, DeviceFills, DeviceValueAt, DeviceHeld;
    DeviceSaysFirst(b, at, left, room, slots, filled, last);
    DeviceSaysRest(b, at, left, room, slots, filled, last);
  }

  /** A slot is filled exactly when its key has been seen. */
  predicate DeviceAgrees(slots: DeviceSlots, seen: set<KeyRank>) {
    forall key :: 1 <= key <= 8 ==> (DeviceHeld(slots, key) <==> KeyRank(false, key) in seen)
  }

  lemma DeviceAgreesOn(b: seq<byte>, key: int, at: nat, room: nat, slots: DeviceSlots, filled: DeviceSlots,
                    seen: set<KeyRank>, rank: KeyRank)
    requires at <= |b| && DeviceAgrees(slots, seen) && DeviceFills(b, key, at, room, slots, filled)
    requires DeviceValueAt(b, key, at, room) && RankedAs(key, rank)
    ensures DeviceAgrees(filled, seen + {rank})
  {
    hide NumberAt, BytesAt, OptionsAre, OptionsFormed;
  }

  lemma DeviceSaysNothing(b: seq<byte>, at: nat, room: nat, slots: DeviceSlots)
    requires at <= |b|
    ensures DeviceSays(b, at, 0, room, slots, slots)
  {}

  lemma DeviceHeldWhenSeen(slots: DeviceSlots, seen: set<KeyRank>, key: int, rank: KeyRank)
    requires DeviceAgrees(slots, seen) && RankedAs(key, rank)
    ensures 1 <= key <= 8 ==> (DeviceHeld(slots, key) <==> rank in seen)
    ensures !(1 <= key <= 8) ==> !DeviceHeld(slots, key)
  {}

  lemma {:induction false} DeviceFieldsExactly(b: seq<byte>, s: ReaderState, base: seq<Frame>, seen: set<KeyRank>,
                                               left: nat, slots: DeviceSlots)
    requires InPairs(b, s, base, left, seen) && !s.skipped && DeviceAgrees(slots, seen)
    ensures var r, room := DeviceFields(b, s, left, slots), Room(base);
            (r.Success? && !r.value.1.skipped) <==>
            Owed(b, s.next, InMap, 2 * left, seen, room, true).Success? && DeviceTyped(b, s.next, left, room)
    ensures var r, room := DeviceFields(b, s, left, slots), Room(base);
            r.Success? && !r.value.1.skipped ==>
              && r.value.1.next == Owed(b, s.next, InMap, 2 * left, seen, room, true).value.end
              && Settle(r.value.1.frames) == Settle(base) && DeviceSays(b, s.next, left, room, slots, r.value.0)
    decreases left
  {
    hide Get, DeviceField, DeviceFills, DeviceHeld, RankedAs, DecodeHead, DeviceValueAt, Item, Owed, AtValue, Settle,
         Counted, DeviceAgrees, DeviceSays, KeyOfPair;
    var room := Room(base);
    OnBase(base, Frame(InMap, 2 * left, seen));
    if left == 0 {
      OwedNothing(b, s.next, InMap, seen, room, true);
      DeviceSaysNothing(b, s.next, room, slots);
    } else {
      var rank := KeyRead(b, s, base, left, seen);
      if KeyOfPair(b, s.next).Some? {
        var (key, keyed) := Get(b, s, AsKey).value;
        OnBase(base, Frame(InMap, 2 * left - 1, seen + {rank}));
        DeviceHeldWhenSeen(slots, seen, key, rank);
        DeviceFieldExactly(b, keyed, key, slots, room);
        OwedItemStep(b, keyed.next, InMap, 2 * left - 1, seen + {rank}, room, true);
        if DeviceField(b, keyed, key, slots).Success? {
          var (filled, after) := DeviceField(b, keyed, key, slots).value;
          SkippedFails(b, after);
          if !after.skipped {
            DeviceAgreesOn(b, key, keyed.next, room, slots, filled, seen, rank);
            DeviceFieldsExactly(b, after, base, seen + {rank}, left - 1, filled);
            if DeviceFields(b, after, left - 1, filled).Success? {
              var last := DeviceFields(b, after, left - 1, filled).value;
              if !last.1.skipped { DeviceSaysOn(b, s.next, left, room, slots, filled, last.0); }
            }
          }
        }
      }
    }
  }

  predicate DeviceFormed(b: seq<byte>, at: nat, room: nat, answer: bool) {
    MapAt(b, at, room).Some? &&
    var (pairs, from) := MapAt(b, at, room).value;
    && DeviceTyped(b, from, pairs, room - 1)
    && Under(b, from, pairs, room - 1, 2).Some? && Under(b, from, pairs, room - 1, 4).Some?
    && Under(b, from, pairs, room - 1, 5).Some? && Under(b, from, pairs, room - 1, 6).Some?
    && (answer ==> Under(b, from, pairs, room - 1, 1).Some?)
  }

  predicate DeviceIs(b: seq<byte>, at: nat, room: nat, raw: DeviceRecord) {
    MapAt(b, at, room).Some? &&
    var (pairs, from) := MapAt(b, at, room).value;
    && raw.dev == NumberUnder(b, from, pairs, room - 1, 1, 0xFFFF)
    && NumberUnder(b, from, pairs, room - 1, 2, 0xFF) == Some(raw.bus)
    && raw.addr == BytesUnder(b, from, pairs, room - 1, 3)
    && NumberUnder(b, from, pairs, room - 1, 4, 0xFFFF) == Some(raw.product)
    && NumberUnder(b, from, pairs, room - 1, 5, 0xFFFF) == Some(raw.dialect)
    && NumberUnder(b, from, pairs, room - 1, 6, 0xFFFF) == Some(raw.role)
    && raw.parent == NumberUnder(b, from, pairs, room - 1, 7, 0xFFFF)
    && OptionsUnder(b, from, pairs, room - 1, raw.options)
  }

  lemma {:induction false} DeviceUnderTyped(b: seq<byte>, at: nat, left: nat, room: nat, key: int)
    requires at <= |b| && DeviceTyped(b, at, left, room) && Under(b, at, left, room, key).Some?
    ensures DeviceValueAt(b, key, Under(b, at, left, room, key).value, room)
    decreases left
  {
    hide Item, DeviceValueAt;
    var (first, value) := KeyOfPair(b, at).value;
    if first != key { DeviceUnderTyped(b, Item(b, value, room, true).value.end, left - 1, room, key); }
  }

  lemma DeviceSet(b: seq<byte>, at: nat, left: nat, room: nat, filled: DeviceSlots)
    requires at <= |b| && DeviceTyped(b, at, left, room) && DeviceSays(b, at, left, room, NO_DEVICE, filled)
    ensures filled.dev.Some? <==> Under(b, at, left, room, 1).Some?
    ensures filled.bus.Some? <==> Under(b, at, left, room, 2).Some?
    ensures filled.product.Some? <==> Under(b, at, left, room, 4).Some?
    ensures filled.dialect.Some? <==> Under(b, at, left, room, 5).Some?
    ensures filled.role.Some? <==> Under(b, at, left, room, 6).Some?
  {
    hide DeviceTyped, Under, NumberAt, BytesAt, OptionsUnder, OptionsFormed;
    forall key | 1 <= key <= 8 && Under(b, at, left, room, key).Some?
      ensures DeviceValueAt(b, key, Under(b, at, left, room, key).value, room)
    {
      DeviceUnderTyped(b, at, left, room, key);
    }
  }

  /** A device entry parses exactly when its bytes form one, and to what they say. */
  lemma ParseDeviceExactly(b: seq<byte>, s: ReaderState, answer: bool, room: nat)
    requires Within(b, s) && AtValue(s) && !s.skipped && room + |Settle(s.frames)| == MAX_DEPTH
    ensures ParseDevice(b, s, answer).Success? && !ParseDevice(b, s, answer).value.1.skipped <==>
            DeviceFormed(b, s.next, room, answer)
    ensures ParseDevice(b, s, answer).Success? && !ParseDevice(b, s, answer).value.1.skipped ==>
              && DeviceIs(b, s.next, room, ParseDevice(b, s, answer).value.0) && Item(b, s.next, room, true).Success?
              && PastValue(s, ParseDevice(b, s, answer).value.1, Item(b, s.next, room, true).value.end)
  {
    hide Get, DeviceFields, DecodeHead, Item, Owed, AtValue, Settle, Counted, DeviceTyped, Under, NumberUnder,
         BytesUnder,
         OptionsUnder;
    MapOpened(b, s);
    if Get(b, s, AsMap).Success? {
      var (pairs, entered) := Get(b, s, AsMap).value;
      var base := Counted(Settle(s.frames));
      DeviceFieldsExactly(b, entered, base, {}, pairs, NO_DEVICE);
      if DeviceFields(b, entered, pairs, NO_DEVICE).Success?
         && !DeviceFields(b, entered, pairs, NO_DEVICE).value.1.skipped {
        MapItem(b, s.next, room);
        DeviceSet(b, entered.next, pairs, room - 1, DeviceFields(b, entered, pairs, NO_DEVICE).value.0);
      }
    }
  }

  // ---------------------------------------------------------------------------
  // Lists.

  /** A reader about to read `left` items of an array, `base` below it. */
  predicate InList(b: seq<byte>, s: ReaderState, base: seq<Frame>, left: nat) {
    Within(b, s) && |base| < MAX_DEPTH && Settle(s.frames) == Settle(base + [Frame(InArray, left, {})])
  }

  lemma EntryNext(b: seq<byte>, s: ReaderState, base: seq<Frame>, left: nat)
    requires InList(b, s, base, left) && left > 0
    ensures AtValue(s) && |Settle(s.frames)| == |base| + 1
    ensures Counted(Settle(s.frames)) == base + [Frame(InArray, left - 1, {})]
  {
    OnBase(base, Frame(InArray, left, {}));
  }

  lemma RowsSplit(all: seq<Row>, rows: seq<Row>, row: Row)
    requires |all| > |rows| && all[..|rows + [row]|] == rows + [row]
    ensures all[..|rows|] == rows && all[|rows|..] != [] && all[|rows|..][0] == row
    ensures all[|rows|..][1..] == all[|rows + [row]|..]
  {
    assert all[|rows|] == (rows + [row])[|rows|];
    assert all[..|rows|] == (rows + [row])[..|rows|];
  }

  /** So many bus entries in a row. */
  predicate BusListed(b: seq<byte>, at: nat, left: nat, room: nat)
    requires at <= |b|
    decreases left
  {
    left == 0 || (BusFormed(b, at, room) && Item(b, at, room, true).Success?
                  && BusListed(b, Item(b, at, room, true).value.end, left - 1, room))
  }

  predicate BusListIs(b: seq<byte>, at: nat, left: nat, room: nat, rows: seq<Row>)
    requires at <= |b|
    decreases left
  {
    if left == 0 then rows == []
    else
      && rows != [] && rows[0].BusRow? && BusIs(b, at, room, rows[0].bus) && Item(b, at, room, true).Success?
      && BusListIs(b, Item(b, at, room, true).value.end, left - 1, room, rows[1..])
  }

  lemma {:induction false} BusRowsExactly(b: seq<byte>, s: ReaderState, base: seq<Frame>, left: nat, rows: seq<Row>)
    requires InList(b, s, base, left) && !s.skipped
    ensures var r, room := BusRows(b, s, left, rows), Room(base);
            r.Success? && !r.value.1.skipped <==> BusListed(b, s.next, left, room)
    ensures var r, room := BusRows(b, s, left, rows), Room(base);
            r.Success? && !r.value.1.skipped ==>
              && Owed(b, s.next, InArray, left, {}, room, true).Success?
              && r.value.1.next == Owed(b, s.next, InArray, left, {}, room, true).value.end
              && Settle(r.value.1.frames) == Settle(base)
              && |r.value.0| == |rows| + left && r.value.0[..|rows|] == rows
              && BusListIs(b, s.next, left, room, r.value.0[|rows|..])
    decreases left
  {
    hide ParseBus, Item, Owed, AtValue, Settle, Counted, BusFormed, BusIs;
    var room := Room(base);
    OnBase(base, Frame(InArray, left, {}));
    if left == 0 {
      OwedNothing(b, s.next, InArray, {}, room, true);
      assert rows[|rows|..] == [] && rows[..|rows|] == rows;
    } else {
      EntryNext(b, s, base, left);
      ParseBusExactly(b, s, room);
      OwedItemStep(b, s.next, InArray, left, {}, room, true);
      if ParseBus(b, s).Success? {
        var (entry, after) := ParseBus(b, s).value;
        BusRowsOn(b, after, left - 1, rows + [BusRow(entry)]);
        if !after.skipped {
          BusRowsExactly(b, after, base, left - 1, rows + [BusRow(entry)]);
          var r := BusRows(b, s, left, rows);
          if r.Success? && !r.value.1.skipped { RowsSplit(r.value.0, rows, BusRow(entry)); }
        }
      }
    }
  }

  lemma BusRowsOn(b: seq<byte>, s: ReaderState, left: nat, rows: seq<Row>)
    requires Within(b, s)
    ensures s.skipped && BusRows(b, s, left, rows).Success? ==> BusRows(b, s, left, rows).value.1.skipped
  {
    hide Get;
    SkippedFails(b, s);
  }

  /** So many device entries in a row. */
  predicate DeviceListed(b: seq<byte>, at: nat, answer: bool, left: nat, room: nat)
    requires at <= |b|
    decreases left
  {
    left == 0 || (DeviceFormed(b, at, room, answer) && Item(b, at, room, true).Success?
                  && DeviceListed(b, Item(b, at, room, true).value.end, answer, left - 1, room))
  }

  predicate DeviceListIs(b: seq<byte>, at: nat, left: nat, room: nat, rows: seq<Row>)
    requires at <= |b|
    decreases left
  {
    if left == 0 then rows == []
    else
      && rows != [] && rows[0].DeviceRow? && DeviceIs(b, at, room, rows[0].device) && Item(b, at, room, true).Success?
      && DeviceListIs(b, Item(b, at, room, true).value.end, left - 1, room, rows[1..])
  }

  lemma {:induction false} DeviceRowsExactly(b: seq<byte>, s: ReaderState, answer: bool, base: seq<Frame>, left: nat,
                                             rows: seq<Row>)
    requires InList(b, s, base, left) && !s.skipped
    ensures var r, room := DeviceRows(b, s, answer, left, rows), Room(base);
            r.Success? && !r.value.1.skipped <==> DeviceListed(b, s.next, answer, left, room)
    ensures var r, room := DeviceRows(b, s, answer, left, rows), Room(base);
            r.Success? && !r.value.1.skipped ==>
              && Owed(b, s.next, InArray, left, {}, room, true).Success?
              && r.value.1.next == Owed(b, s.next, InArray, left, {}, room, true).value.end
              && Settle(r.value.1.frames) == Settle(base)
              && |r.value.0| == |rows| + left && r.value.0[..|rows|] == rows
              && DeviceListIs(b, s.next, left, room, r.value.0[|rows|..])
    decreases left
  {
    hide ParseDevice, Item, Owed, AtValue, Settle, Counted, DeviceFormed, DeviceIs;
    var room := Room(base);
    OnBase(base, Frame(InArray, left, {}));
    if left == 0 {
      OwedNothing(b, s.next, InArray, {}, room, true);
      assert rows[|rows|..] == [] && rows[..|rows|] == rows;
    } else {
      EntryNext(b, s, base, left);
      ParseDeviceExactly(b, s, answer, room);
      OwedItemStep(b, s.next, InArray, left, {}, room, true);
      if ParseDevice(b, s, answer).Success? {
        var (entry, after) := ParseDevice(b, s, answer).value;
        DeviceRowsOn(b, after, answer, left - 1, rows + [DeviceRow(entry)]);
        if !after.skipped {
          DeviceRowsExactly(b, after, answer, base, left - 1, rows + [DeviceRow(entry)]);
          var r := DeviceRows(b, s, answer, left, rows);
          if r.Success? && !r.value.1.skipped { RowsSplit(r.value.0, rows, DeviceRow(entry)); }
        }
      }
    }
  }

  lemma DeviceRowsOn(b: seq<byte>, s: ReaderState, answer: bool, left: nat, rows: seq<Row>)
    requires Within(b, s)
    ensures s.skipped && DeviceRows(b, s, answer, left, rows).Success?
            ==> DeviceRows(b, s, answer, left, rows).value.1.skipped
  {
    hide Get;
    SkippedFails(b, s);
  }

  // ---------------------------------------------------------------------------
  // The body.

  /** An array's items and where they begin. */
  function ListAt(b: seq<byte>, at: nat, room: nat): (list: Option<(nat, nat)>)
    ensures list.Some? ==> at <= |b| && list.value.1 <= |b| && room > 0
  {
    if at > |b| || room == 0 || DecodeHead(b, at).Failure? then None
    else
      match DecodeHead(b, at)
      case Success((Array(count), from)) => Some((count, from))
      case _ => None
  }

  predicate BusesAt(b: seq<byte>, at: nat, room: nat) {
    ListAt(b, at, room).Some? && var (count, from) := ListAt(b, at, room).value; BusListed(b, from, count, room - 1)
  }

  predicate DevicesAt(b: seq<byte>, at: nat, room: nat, answer: bool) {
    ListAt(b, at, room).Some?
    && var (count, from) := ListAt(b, at, room).value; DeviceListed(b, from, answer, count, room - 1)
  }

  /** The rows are the entries of a list. */
  predicate BusRowsAre(b: seq<byte>, at: nat, room: nat, rows: seq<Row>) {
    ListAt(b, at, room).Some?
    && var (count, from) := ListAt(b, at, room).value; BusListIs(b, from, count, room - 1, rows)
  }

  predicate DeviceRowsAre(b: seq<byte>, at: nat, room: nat, rows: seq<Row>) {
    ListAt(b, at, room).Some?
    && var (count, from) := ListAt(b, at, room).value; DeviceListIs(b, from, count, room - 1, rows)
  }

  lemma ListItem(b: seq<byte>, at: nat, room: nat)
    requires ListAt(b, at, room).Some?
    requires var (count, from) := ListAt(b, at, room).value; Owed(b, from, InArray, count, {}, room - 1, true).Success?
    ensures var (count, from) := ListAt(b, at, room).value;
            && Item(b, at, room, true).Success?
            && Item(b, at, room, true).value.end == Owed(b, from, InArray, count, {}, room - 1, true).value.end
  {
    hide DecodeHead, Owed;
  }

  lemma BusListExactly(b: seq<byte>, s: ReaderState, room: nat, rows: seq<Row>)
    requires Within(b, s) && AtValue(s) && !s.skipped && room + |Settle(s.frames)| == MAX_DEPTH
    ensures BusList(b, s, rows).Success? && !BusList(b, s, rows).value.1.skipped <==> BusesAt(b, s.next, room)
    ensures BusList(b, s, rows).Success? && !BusList(b, s, rows).value.1.skipped ==>
              var (all, after) := BusList(b, s, rows).value;
              && |all| >= |rows| && all[..|rows|] == rows && BusRowsAre(b, s.next, room, all[|rows|..])
              && Item(b, s.next, room, true).Success? && PastValue(s, after, Item(b, s.next, room, true).value.end)
  {
    hide Get, BusRows, DecodeHead, Item, Owed, AtValue, Settle, Counted, BusListed, BusListIs;
    ArrayOpened(b, s);
    if Get(b, s, AsArray).Success? {
      var (count, entered) := Get(b, s, AsArray).value;
      BusRowsExactly(b, entered, Counted(Settle(s.frames)), count, rows);
      var r := BusRows(b, entered, count, rows);
      if r.Success? && !r.value.1.skipped { ListItem(b, s.next, room); }
    }
  }

  lemma DeviceListExactly(b: seq<byte>, s: ReaderState, answer: bool, room: nat, rows: seq<Row>)
    requires Within(b, s) && AtValue(s) && !s.skipped && room + |Settle(s.frames)| == MAX_DEPTH
    ensures DeviceList(b, s, answer, rows).Success? && !DeviceList(b, s, answer, rows).value.1.skipped <==>
            DevicesAt(b, s.next, room, answer)
    ensures DeviceList(b, s, answer, rows).Success? && !DeviceList(b, s, answer, rows).value.1.skipped ==>
              var (all, after) := DeviceList(b, s, answer, rows).value;
              && |all| >= |rows| && all[..|rows|] == rows && DeviceRowsAre(b, s.next, room, all[|rows|..])
              && Item(b, s.next, room, true).Success? && PastValue(s, after, Item(b, s.next, room, true).value.end)
  {
    hide Get, DeviceRows, DecodeHead, Item, Owed, AtValue, Settle, Counted, DeviceListed, DeviceListIs;
    ArrayOpened(b, s);
    if Get(b, s, AsArray).Success? {
      var (count, entered) := Get(b, s, AsArray).value;
      DeviceRowsExactly(b, entered, answer, Counted(Settle(s.frames)), count, rows);
      var r := DeviceRows(b, entered, answer, count, rows);
      if r.Success? && !r.value.1.skipped { ListItem(b, s.next, room); }
    }
  }

  predicate BodyValueAt(b: seq<byte>, answer: bool, key: int, at: nat, room: nat) {
    match key
    case 1 => BusesAt(b, at, room)
    case 2 => DevicesAt(b, at, room, answer)
    case _ => true
  }

  predicate BodyTyped(b: seq<byte>, at: nat, answer: bool, left: nat, room: nat)
    requires at <= |b|
    decreases left
  {
    left == 0 || (KeyOfPair(b, at).Some? &&
                  var (key, value) := KeyOfPair(b, at).value;
                  && BodyValueAt(b, answer, key, value, room) && Item(b, value, room, true).Success?
                  && BodyTyped(b, Item(b, value, room, true).value.end, answer, left - 1, room))
  }

  predicate BodyHeld(slots: BodySlots, key: int) {
    match key
    case 1 => slots.buses.Some?
    case 2 => slots.devices.Some?
    case _ => false
  }

  /** The slots after one pair: a list's rows behind those before it. */
  predicate BodyFills(b: seq<byte>, key: int, at: nat, room: nat, slots: BodySlots, filled: BodySlots) {
    match key
    case 1 => filled.buses.Some? && filled.devices == slots.devices && Behind(slots.rows, filled.rows)
              && BusRowsAre(b, at, room, filled.rows[|slots.rows|..])
    case 2 => filled.devices.Some? && filled.buses == slots.buses && Behind(slots.rows, filled.rows)
              && DeviceRowsAre(b, at, room, filled.rows[|slots.rows|..])
    case _ => filled == slots
  }

  predicate Behind(rows: seq<Row>, all: seq<Row>) { |rows| <= |all| && all[..|rows|] == rows }

  /** The rows of every list among the pairs, in the order the lists come. */
  predicate RowsAre(b: seq<byte>, at: nat, left: nat, room: nat, rows: seq<Row>)
    requires at <= |b|
    decreases left
  {
    if left == 0 || KeyOfPair(b, at).None? then rows == []
    else
      var (key, value) := KeyOfPair(b, at).value;
      && Item(b, value, room, true).Success?
      && (if key == 1 || key == 2 then
            && ListAt(b, value, room).Some? && ListAt(b, value, room).value.0 <= |rows|
            && var count := ListAt(b, value, room).value.0;
               && (if key == 1 then BusRowsAre(b, value, room, rows[..count])
                   else DeviceRowsAre(b, value, room, rows[..count]))
               && RowsAre(b, Item(b, value, room, true).value.end, left - 1, room, rows[count..])
          else RowsAre(b, Item(b, value, room, true).value.end, left - 1, room, rows))
  }

  predicate BodySays(b: seq<byte>, at: nat, left: nat, room: nat, slots: BodySlots, filled: BodySlots)
    requires at <= |b|
  {
    && (filled.buses.Some? <==> slots.buses.Some? || Under(b, at, left, room, 1).Some?)
    && (filled.devices.Some? <==> slots.devices.Some? || Under(b, at, left, room, 2).Some?)
    && Behind(slots.rows, filled.rows) && RowsAre(b, at, left, room, filled.rows[|slots.rows|..])
  }

  lemma BodyFieldExactly(b: seq<byte>, s: ReaderState, answer: bool, key: int, slots: BodySlots, room: nat)
    requires Within(b, s) && AtValue(s) && !s.skipped && room + |Settle(s.frames)| == MAX_DEPTH
    requires s.unsettled && 1 <= key <= 2 ==> BodyHeld(slots, key)
    ensures BodyField(b, s, answer, key, slots).Success? && !BodyField(b, s, answer, key, slots).value.1.skipped <==>
            && !s.unsettled && !BodyHeld(slots, key) && BodyValueAt(b, answer, key, s.next, room)
            && Item(b, s.next, room, true).Success?
    ensures BodyField(b, s, answer, key, slots).Success? && !BodyField(b, s, answer, key, slots).value.1.skipped ==>
              var (filled, after) := BodyField(b, s, answer, key, slots).value;
              && BodyFills(b, key, s.next, room, slots, filled)
              && PastValue(s, after, Item(b, s.next, room, true).value.end)
  {
    hide BusList, DeviceList, Skipped, PastValue, AtValue, Item, BusesAt, DevicesAt, BusRowsAre, DeviceRowsAre;
    if key == 1 {
      BusListExactly(b, s, room, slots.rows);
    } else if key == 2 {
      DeviceListExactly(b, s, answer, room, slots.rows);
    } else {
      SkipRead(b, s, room);
    }
  }

  lemma {:induction false} BusListCount(b: seq<byte>, at: nat, left: nat, room: nat, rows: seq<Row>)
    requires at <= |b| && BusListIs(b, at, left, room, rows)
    ensures |rows| == left
    decreases left
  {
    hide Item, BusIs;
    if left > 0 { BusListCount(b, Item(b, at, room, true).value.end, left - 1, room, rows[1..]); }
  }

  lemma {:induction false} DeviceListCount(b: seq<byte>, at: nat, left: nat, room: nat, rows: seq<Row>)
    requires at <= |b| && DeviceListIs(b, at, left, room, rows)
    ensures |rows| == left
    decreases left
  {
    hide Item, DeviceIs;
    if left > 0 { DeviceListCount(b, Item(b, at, room, true).value.end, left - 1, room, rows[1..]); }
  }

  lemma RowsCount(b: seq<byte>, at: nat, room: nat, rows: seq<Row>)
    requires BusRowsAre(b, at, room, rows) || DeviceRowsAre(b, at, room, rows)
    ensures ListAt(b, at, room).Some? && |rows| == ListAt(b, at, room).value.0
  {
    hide ListAt, BusListIs, DeviceListIs;
    var (count, from) := ListAt(b, at, room).value;
    if BusRowsAre(b, at, room, rows) {
      BusListCount(b, from, count, room - 1, rows);
    } else {
      DeviceListCount(b, from, count, room - 1, rows);
    }
  }

  lemma RowsBehind(first: seq<Row>, second: seq<Row>, all: seq<Row>)
    requires Behind(first, second) && Behind(second, all)
    ensures Behind(first, all)
    ensures var rest := all[|first|..]; var n := |second| - |first|;
            n <= |rest| && rest[..n] == second[|first|..] && rest[n..] == all[|second|..]
  {
    assert all[..|first|] == all[..|second|][..|first|];
    assert all[|first|..][..|second| - |first|] == all[..|second|][|first|..];
  }

  lemma BodySaysOn(b: seq<byte>, at: nat, answer: bool, left: nat, room: nat, slots: BodySlots, filled: BodySlots,
                   last: BodySlots)
    requires at <= |b| && left > 0 && KeyOfPair(b, at).Some? && Item(b, KeyOfPair(b, at).value.1, room, true).Success?
    requires var (key, value) := KeyOfPair(b, at).value;
             && BodyFills(b, key, value, room, slots, filled) && !BodyHeld(slots, key)
             && BodySays(b, Item(b, value, room, true).value.end, left - 1, room, filled, last)
    ensures BodySays(b, at, left, room, slots, last)
  {
    hide Item, KeyOfPair, Under, BusRowsAre, DeviceRowsAre, ListAt;
    UnderFirst(b, at, left, room);
    var (key, value) := KeyOfPair(b, at).value;
    RowsBehind(slots.rows, filled.rows, last.rows);
    if key == 1 || key == 2 { RowsCount(b, value, room, filled.rows[|slots.rows|..]); }
  }

  /** A slot is filled exactly when its key has been seen. */
  predicate BodyAgrees(slots: BodySlots, seen: set<KeyRank>) {
    forall key :: 1 <= key <= 2 ==> (BodyHeld(slots, key) <==> KeyRank(false, key) in seen)
  }

  lemma BodyAgreesOn(b: seq<byte>, key: int, at: nat, room: nat, slots: BodySlots, filled: BodySlots,
                    seen: set<KeyRank>, rank: KeyRank)
    requires at <= |b| && BodyAgrees(slots, seen) && BodyFills(b, key, at, room, slots, filled)
    requires RankedAs(key, rank)
    ensures BodyAgrees(filled, seen + {rank})
  {
    hide BusRowsAre, DeviceRowsAre, BusesAt, DevicesAt;
  }

  lemma BodySaysNothing(b: seq<byte>, at: nat, room: nat, slots: BodySlots)
    requires at <= |b|
    ensures BodySays(b, at, 0, room, slots, slots)
  {}

  lemma BodyHeldWhenSeen(slots: BodySlots, seen: set<KeyRank>, key: int, rank: KeyRank)
    requires BodyAgrees(slots, seen) && RankedAs(key, rank)
    ensures 1 <= key <= 2 ==> (BodyHeld(slots, key) <==> rank in seen)
    ensures !(1 <= key <= 2) ==> !BodyHeld(slots, key)
  {}

  lemma {:induction false} BodyFieldsExactly(b: seq<byte>, s: ReaderState, answer: bool, base: seq<Frame>,
                                             seen: set<KeyRank>,
                                             left: nat, slots: BodySlots)
    requires InPairs(b, s, base, left, seen) && !s.skipped && BodyAgrees(slots, seen)
    ensures var r, room := BodyFields(b, s, answer, left, slots), Room(base);
            (r.Success? && !r.value.1.skipped) <==>
            Owed(b, s.next, InMap, 2 * left, seen, room, true).Success? && BodyTyped(b, s.next, answer, left, room)
    ensures var r, room := BodyFields(b, s, answer, left, slots), Room(base);
            r.Success? && !r.value.1.skipped ==>
              && r.value.1.next == Owed(b, s.next, InMap, 2 * left, seen, room, true).value.end
              && Settle(r.value.1.frames) == Settle(base) && BodySays(b, s.next, left, room, slots, r.value.0)
    decreases left
  {
    hide Get, BodyField, BodyFills, BodyHeld, RankedAs, DecodeHead, BodyValueAt, Item, Owed, AtValue, Settle, Counted,
         BodyAgrees, BodySays, KeyOfPair;
    var room := Room(base);
    OnBase(base, Frame(InMap, 2 * left, seen));
    if left == 0 {
      OwedNothing(b, s.next, InMap, seen, room, true);
      BodySaysNothing(b, s.next, room, slots);
    } else {
      var rank := KeyRead(b, s, base, left, seen);
      if KeyOfPair(b, s.next).Some? {
        var (key, keyed) := Get(b, s, AsKey).value;
        OnBase(base, Frame(InMap, 2 * left - 1, seen + {rank}));
        BodyHeldWhenSeen(slots, seen, key, rank);
        BodyFieldExactly(b, keyed, answer, key, slots, room);
        OwedItemStep(b, keyed.next, InMap, 2 * left - 1, seen + {rank}, room, true);
        if BodyField(b, keyed, answer, key, slots).Success? {
          var (filled, after) := BodyField(b, keyed, answer, key, slots).value;
          SkippedFails(b, after);
          if !after.skipped {
            BodyAgreesOn(b, key, keyed.next, room, slots, filled, seen, rank);
            BodyFieldsExactly(b, after, answer, base, seen + {rank}, left - 1, filled);
            if BodyFields(b, after, answer, left - 1, filled).Success? {
              var last := BodyFields(b, after, answer, left - 1, filled).value;
              if !last.1.skipped { BodySaysOn(b, s.next, answer, left, room, slots, filled, last.0); }
            }
          }
        }
      }
    }
  }

  /** The bytes of a body: one item to the last byte, and both lists in it. */
  predicate BodyFormed(b: seq<byte>, answer: bool) {
    MapAt(b, 0, MAX_DEPTH).Some? &&
    var (pairs, from) := MapAt(b, 0, MAX_DEPTH).value;
    && Item(b, 0, MAX_DEPTH, true).Success? && Item(b, 0, MAX_DEPTH, true).value.end == |b|
    && BodyTyped(b, from, answer, pairs, MAX_DEPTH - 1)
    && Under(b, from, pairs, MAX_DEPTH - 1, 1).Some? && Under(b, from, pairs, MAX_DEPTH - 1, 2).Some?
  }

  lemma BodyOpened(b: seq<byte>)
    ensures Get(b, START, AsMap).Success? <==> DecodeHead(b, 0).Success? && DecodeHead(b, 0).value.0.Map?
    ensures Get(b, START, AsMap).Success? ==>
              var (pairs, entered) := Get(b, START, AsMap).value;
              && DecodeHead(b, 0).value == (Map(pairs), entered.next) && !entered.skipped
              && entered.frames == [] + [Frame(InMap, 2 * pairs, {})]
  {
    hide DecodeHead;
  }

  /**
   A body's structure parses exactly when its bytes form one, whatever the order of
   its pairs and whatever stands under keys no one knows, and its rows are what its
   lists say. Being one item to the last byte, it repeats no key at any level.
   */
  lemma ParseBodyExactly(b: seq<byte>, answer: bool)
    ensures ParseBody(b, answer).Success? <==> BodyFormed(b, answer)
    ensures ParseBody(b, answer).Success? ==>
              var (pairs, from) := MapAt(b, 0, MAX_DEPTH).value;
              RowsAre(b, from, pairs, MAX_DEPTH - 1, ParseBody(b, answer).value)
  {
    hide Get, BodyFields, DecodeHead, Item, Owed, BodyTyped, Under, RowsAre;
    BodyOpened(b);
    if Get(b, START, AsMap).Success? {
      var (pairs, entered) := Get(b, START, AsMap).value;
      BodyFieldsExactly(b, entered, answer, [], {}, pairs, NO_BODY);
      if MapAt(b, 0, MAX_DEPTH).Some? { MapItem(b, 0, MAX_DEPTH); }
      var fields := BodyFields(b, entered, answer, pairs, NO_BODY);
      if fields.Success? {
        assert fields.value.0.rows[0..] == fields.value.0.rows;
      }
    }
  }

  /**
   Nothing the format forbids stands anywhere in a body that parses: no map in it
   repeats a key, known to the decoder or not, and no head or key is one not allowed.
   */
  lemma NoRepeatedKey(b: seq<byte>, answer: bool)
    requires ParseBody(b, answer).Success?
    ensures Item(b, 0, MAX_DEPTH, true).Success? && Item(b, 0, MAX_DEPTH, true).value.end == |b|
    ensures forall p :: p in ItemPlaces(b, 0, MAX_DEPTH) ==> Allowed(b, p)
  {
    hide ParseBody, Item, BodyTyped, ItemPlaces, Allowed;
    ParseBodyExactly(b, answer);
    ItemAllowed(b, 0, MAX_DEPTH, true);
  }
}
