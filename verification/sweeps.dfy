/**
 The two sweep records, one for signals whose validity moved and one for devices
 whose presence did: packed entries that say exactly what was taken.
 */
module Sweeps {
  import opened Bytes
  import opened Wrappers
  import opened Limits
  import opened CborHeads
  import opened CborReaders
  import opened CborWriters
  import opened CborTrees
  import opened CborTreeItems

  datatype Kind = ValiditySweep | PresenceSweep

  function Rows(kind: Kind): nat { if kind.ValiditySweep? then MAX_VALIDITY_SWEEP else MAX_PRESENCE_SWEEP }

  function EntryWidth(kind: Kind): nat { if kind.ValiditySweep? then VCHANGE_MAX_BYTES else PCHANGE_MAX_BYTES }

  datatype QualityError = UnknownValidity(nibble: nat) | UnknownProvenance(nibble: nat) | Disagree(raw: byte)

  datatype ChangeError =
    | Duplicate(key: nat)
    | ZeroId
    | WentNowhere
    | NothingChanged
    | MissingEntry(key: nat)
    | MissingBody(key: nat)
    | UnknownPresence(number: nat)
    | Quality(quality: QualityError)
    | Cbor(why: CborError)

  type Id = x: int | 1 <= x <= 0xFFFF witness 1

  /** What moved, what to, and what from: a quality byte of a signal, or a presence of a device. */
  datatype Change = Change(id: Id, now: byte, was: byte)

  predicate CarriesValue(validity: nat) { validity == 1 || validity == 2 || validity == 9 }

  /** A quality byte: an allocated validity and provenance that agree on whether there is a number. */
  function QualityOf(raw: byte): Result<byte, ChangeError> {
    var validity, provenance := raw / 16, raw % 16;
    if !(1 <= validity <= 9) then Failure(Quality(UnknownValidity(validity)))
    else if provenance > 6 then Failure(Quality(UnknownProvenance(provenance)))
    else if CarriesValue(validity) == (provenance == 0) then Failure(Quality(Disagree(raw)))
    else Success(raw)
  }

  function PresenceOf(raw: byte): Result<byte, ChangeError> {
    if 1 <= raw <= 4 then Success(raw) else Failure(UnknownPresence(raw))
  }

  function ReadingOf(kind: Kind, raw: byte): (r: Result<byte, ChangeError>)
    ensures r.Success? ==> r.value == raw
  {
    if kind.ValiditySweep? then QualityOf(raw) else PresenceOf(raw)
  }

  /** A change whose two readings are of the kind, as the type of each makes sure of. */
  predicate OfKind(kind: Kind, c: Change) { ReadingOf(kind, c.now).Success? && ReadingOf(kind, c.was).Success? }

  // ---------------------------------------------------------------------------
  // Bytes.

  function EntryTree(c: Change): Tree {
    Dict(APair(1, Leaf(PutU64(c.id)), APair(2, Leaf(PutU64(c.now)), APair(3, Leaf(PutU64(c.was)), NoPair))))
  }

  lemma EntrySound(c: Change)
    ensures CborTrees.Sound(EntryTree(c)) && Height(EntryTree(c)) == 1 && TreeSize(EntryTree(c)) <= 11
    ensures TreeSize(EntryTree(c)) == 4 + (1 + Width(c.id)) + (1 + Width(c.now)) + (1 + Width(c.was))
  {
    hide Shaped, TreeSize, ShapedPairs, PairsSize, PairCount, PairsHeight, Height, OrderedPairs, Ordered;
    NumberLeaf(c.id);
    NumberLeaf(c.now);
    NumberLeaf(c.was);
    NothingSize();
    var p3 := APair(3, Leaf(PutU64(c.was)), NoPair);
    var p2 := APair(2, Leaf(PutU64(c.now)), p3);
    var p1 := APair(1, Leaf(PutU64(c.id)), p2);
    PairSize(3, Leaf(PutU64(c.was)), NoPair);
    PairSize(2, Leaf(PutU64(c.now)), p3);
    PairSize(1, Leaf(PutU64(c.id)), p2);
    SmallDict(p1);
  }

  lemma SmallDict(pairs: KeyedItems)
    requires ShapedPairs(pairs) && OrderedPairs(pairs, -1) && PairCount(pairs) < 24
    ensures Shaped(Dict(pairs)) && Ordered(Dict(pairs)) && Height(Dict(pairs)) == 1 + PairsHeight(pairs)
    ensures TreeSize(Dict(pairs)) == 1 + PairsSize(pairs)
  {}

  lemma NumberLeaf(n: u64)
    ensures Shaped(Leaf(PutU64(n))) && Ordered(Leaf(PutU64(n))) && Height(Leaf(PutU64(n))) == 0
    ensures TreeSize(Leaf(PutU64(n))) == 1 + Width(n)
  {}

  /** One entry's bytes: never longer than its kind allows. */
  function EntryBytes(c: Change): (bytes: seq<byte>)
    ensures 0 < |bytes| <= 11
  {
    EntrySound(c);
    TreeEmits(EntryTree(c));
    TreeBytes(EntryTree(c))
  }

  lemma EntryFits(kind: Kind, c: Change)
    requires OfKind(kind, c)
    ensures |EntryBytes(c)| <= EntryWidth(kind)
  {
    hide TreeBytes, TreeSize, EntryTree;
    EntrySound(c);
    TreeEmits(EntryTree(c));
  }

  /** Entries one behind another. */
  function Packed(taken: seq<Change>): seq<byte> {
    if taken == [] then [] else Packed(taken[..|taken| - 1]) + EntryBytes(taken[|taken| - 1])
  }

  // ---------------------------------------------------------------------------
  // Taking changes.

  /** One offer: taken, left for the next event, or refused; only a taken one is kept. */
  function Push(kind: Kind, taken: seq<Change>, c: Change): (Result<bool, ChangeError>, seq<Change>) {
    if c.now == c.was then (Failure(WentNowhere), taken)
    else if |taken| >= Rows(kind) || |Packed(taken)| + |EntryBytes(c)| > MAX_EVENT_BODY then (Success(false), taken)
    else (Success(true), taken + [c])
  }

  function PushAll(kind: Kind, taken: seq<Change>, offers: seq<Change>): seq<Change>
    decreases |offers|
  {
    if offers == [] then taken else PushAll(kind, Push(kind, taken, offers[0]).1, offers[1..])
  }

  /** The offers answered `true`, in order. */
  function Kept(kind: Kind, taken: seq<Change>, offers: seq<Change>): seq<Change>
    decreases |offers|
  {
    if offers == [] then []
    else
      var (answer, after) := Push(kind, taken, offers[0]);
      (if answer == Success(true) then [offers[0]] else []) + Kept(kind, after, offers[1..])
  }

  /** What a sweep may hold. */
  predicate Holding(kind: Kind, taken: seq<Change>) {
    && |taken| <= Rows(kind) && |Packed(taken)| <= MAX_EVENT_BODY
    && forall c :: c in taken ==> OfKind(kind, c) && c.now != c.was
  }

  lemma PackedOneMore(taken: seq<Change>, c: Change)
    ensures Packed(taken + [c]) == Packed(taken) + EntryBytes(c)
  {
    hide EntryBytes;
    assert (taken + [c])[..|taken|] == taken;
  }

  lemma PushKeepsHolding(kind: Kind, taken: seq<Change>, c: Change)
    requires Holding(kind, taken) && OfKind(kind, c)
    ensures Holding(kind, Push(kind, taken, c).1)
  {
    hide EntryBytes, Packed, OfKind;
    PackedOneMore(taken, c);
  }

  lemma {:induction false} PackedBound(kind: Kind, taken: seq<Change>)
    requires forall c :: c in taken ==> OfKind(kind, c)
    ensures |Packed(taken)| <= |taken| * EntryWidth(kind)
  {
    hide EntryBytes, OfKind;
    if taken != [] {
      var front, last := taken[..|taken| - 1], taken[|taken| - 1];
      PackedBound(kind, front);
      EntryFits(kind, last);
    }
  }

  /**
   An offer is refused exactly when it changes nothing, put off exactly when every
   row is taken, and taken otherwise: the bytes never run out before the rows do.
   */
  lemma OfferExactly(kind: Kind, taken: seq<Change>, c: Change)
    requires Holding(kind, taken) && OfKind(kind, c)
    ensures Push(kind, taken, c) ==
            if c.now == c.was then (Failure(WentNowhere), taken)
            else if |taken| == (if kind.ValiditySweep? then 48 else 24) then (Success(false), taken)
            else (Success(true), taken + [c])
  {
    hide Packed, EntryBytes, OfKind;
    EntryFits(kind, c);
    PackedBound(kind, taken);
    assert |taken| < Rows(kind) ==> |taken| * EntryWidth(kind) <= (Rows(kind) - 1) * EntryWidth(kind);
  }

  /** After any run of offers a sweep holds exactly those answered `true`, in order, within its bounds. */
  lemma {:induction false} TakenIsKept(kind: Kind, taken: seq<Change>, offers: seq<Change>)
    requires Holding(kind, taken) && forall c :: c in offers ==> OfKind(kind, c)
    ensures PushAll(kind, taken, offers) == taken + Kept(kind, taken, offers)
    ensures Holding(kind, PushAll(kind, taken, offers))
    decreases |offers|
  {
    hide Holding, OfKind, EntryBytes, Packed, Push;
    if offers != [] {
      var (answer, after) := Push(kind, taken, offers[0]);
      PushKeepsHolding(kind, taken, offers[0]);
      PushTakes(kind, taken, offers[0]);
      TakenIsKept(kind, after, offers[1..]);
      if answer == Success(true) {
        assert taken + [offers[0]] + Kept(kind, after, offers[1..])
               == taken + ([offers[0]] + Kept(kind, after, offers[1..]));
      } else {
        assert [] + Kept(kind, after, offers[1..]) == Kept(kind, after, offers[1..]);
      }
    }
  }

  lemma PushTakes(kind: Kind, taken: seq<Change>, c: Change)
    ensures Push(kind, taken, c).1 == if Push(kind, taken, c).0 == Success(true) then taken + [c] else taken
  {
    hide Packed, EntryBytes;
  }

  // ---------------------------------------------------------------------------
  // Reading entries.

  datatype EntrySlots = EntrySlots(id: Option<Id>, now: Option<byte>, was: Option<byte>)

  function Once<T>(slot: Option<T>, key: nat, value: T): Result<Option<T>, ChangeError> {
    if slot.Some? then Failure(Duplicate(key)) else Success(Some(value))
  }

  type Read<T> = Result<(T, ReaderState), ChangeError>

  function Carried<T>(r: Result<T, CborError>): Result<T, ChangeError> {
    match r
    case Failure(why) => Failure(Cbor(why))
    case Success(value) => Success(value)
  }

  function EntryField(kind: Kind, b: seq<byte>, s: ReaderState, key: int, slots: EntrySlots): (r: Read<EntrySlots>)
    requires Within(b, s)
    ensures r.Success? ==> Within(b, r.value.1)
  {
    if key == 1 then
      var (raw, after) :- Carried(ReadNumber(b, s, 0xFFFF));
      if raw == 0 then Failure(ZeroId)
      else
        var slot :- Once(slots.id, 1, raw as Id);
        Success((slots.(id := slot), after))
    else if key == 2 then
      var (raw, after) :- Carried(ReadNumber(b, s, 0xFF));
      var reading :- ReadingOf(kind, raw);
      var slot :- Once(slots.now, 2, reading);
      Success((slots.(now := slot), after))
    else if key == 3 then
      var (raw, after) :- Carried(ReadNumber(b, s, 0xFF));
      var reading :- ReadingOf(kind, raw);
      var slot :- Once(slots.was, 3, reading);
      Success((slots.(was := slot), after))
    else
      var after :- Carried(SkipItem(b, s, true));
      Success((slots, after))
  }

  function EntryFields(kind: Kind, b: seq<byte>, s: ReaderState, left: nat, slots: EntrySlots): (r: Read<EntrySlots>)
    requires Within(b, s)
    ensures r.Success? ==> Within(b, r.value.1)
    decreases left
  {
    if left == 0 then Success((slots, s))
    else
      var (key, keyed) :- Carried(ReadAs(b, s, AsKey));
      var (filled, after) :- EntryField(kind, b, keyed, key, slots);
      EntryFields(kind, b, after, left - 1, filled)
  }

  /** One entry, which has to go somewhere. */
  function DecodeEntry(kind: Kind, payload: seq<byte>): Result<Change, ChangeError> {
    var (pairs, entered) :- Carried(ReadAs(payload, START, AsMap));
    var (slots, after) :- EntryFields(kind, payload, entered, pairs, EntrySlots(None, None, None));
    var finished :- Carried(Finished(payload, after));
    if slots.now.None? then Failure(MissingEntry(2))
    else if slots.was.None? then Failure(MissingEntry(3))
    else if slots.now == slots.was then Failure(WentNowhere)
    else if slots.id.None? then Failure(MissingEntry(1))
    else Success(Change(slots.id.value, slots.now.value, slots.was.value))
  }

  /** Walking `left` entries from where a reader stands: what each decodes to, up to the first the walk refuses. */
  function Yields(kind: Kind, b: seq<byte>, s: ReaderState, left: nat): seq<Result<Change, ChangeError>>
    requires Within(b, s)
    decreases left
  {
    if left == 0 then []
    else
      match SkipItem(b, s, true)
      case Failure(why) => [Failure(Cbor(why))]
      case Success(after) => [DecodeEntry(kind, b[s.next..after.next])] + Yields(kind, b, after, left - 1)
  }

  // ---------------------------------------------------------------------------
  // The body.

  function RawItems(taken: seq<Change>): Items {
    if taken == [] then NoItem else AnItem(Leaf(PutRaw(EntryBytes(taken[0]))), RawItems(taken[1..]))
  }

  function BodyTree(rev: u32, taken: seq<Change>): Tree {
    Dict(APair(1, Leaf(PutU64(rev)), APair(2, List(RawItems(taken)), NoPair)))
  }

  datatype BodySlots = BodySlots(rev: Option<u32>, entries: Option<seq<byte>>)

  function BodyField(b: seq<byte>, s: ReaderState, key: int, slots: BodySlots): (r: Read<BodySlots>)
    requires Within(b, s)
    ensures r.Success? ==> Within(b, r.value.1)
  {
    if key == 1 then
      var (rev, after) :- Carried(ReadNumber(b, s, 0xFFFF_FFFF));
      var slot :- Once(slots.rev, 1, rev as u32);
      Success((slots.(rev := slot), after))
    else if key == 2 then
      var after :- Carried(SkipItem(b, s, true));
      var slot :- Once(slots.entries, 2, b[s.next..after.next]);
      Success((slots.(entries := slot), after))
    else
      var after :- Carried(SkipItem(b, s, true));
      Success((slots, after))
  }

  function BodyFields(b: seq<byte>, s: ReaderState, left: nat, slots: BodySlots): (r: Read<BodySlots>)
    requires Within(b, s)
    ensures r.Success? ==> Within(b, r.value.1)
    decreases left
  {
    if left == 0 then Success((slots, s))
    else
      var (key, keyed) :- Carried(ReadAs(b, s, AsKey));
      var (filled, after) :- BodyField(b, keyed, key, slots);
      BodyFields(b, after, left - 1, filled)
  }

  /** A sweep read: its revision, the array's own bytes, and a reader inside it with so many entries to walk. */
  datatype Opened = Opened(rev: u32, entries: seq<byte>, at: ReaderState, left: nat)

  /** A sweep opens only if its entire body reads, and then its entries are read from their own place. */
  function OpenSweep(payload: seq<byte>): (r: Result<Opened, ChangeError>)
    ensures r.Success? ==> Within(r.value.entries, r.value.at)
  {
    var (pairs, entered) :- Carried(ReadAs(payload, START, AsMap));
    var (slots, after) :- BodyFields(payload, entered, pairs, BodySlots(None, None));
    var finished :- Carried(Finished(payload, after));
    if slots.rev.None? then Failure(MissingBody(1))
    else if slots.entries.None? then Failure(MissingBody(2))
    else
      var (left, at) :- Carried(ReadAs(slots.entries.value, START, AsArray));
      if left == 0 then Failure(NothingChanged) else Success(Opened(slots.rev.value, slots.entries.value, at, left))
  }

  /** The bytes a sweep is sent as; one with nothing in it is refused rather than sent. */
  function EncodeSweep(rev: u32, taken: seq<Change>, capacity: nat): Result<seq<byte>, ChangeError>
    requires Shaped(BodyTree(rev, taken))
  {
    if taken == [] then Failure(NothingChanged)
    else
      match WriteThrough(EMPTY, capacity, TreeCalls(BodyTree(rev, taken)))
      case Failure(why) => Failure(Cbor(why))
      case Success(written) => Success(written.out)
  }
}
