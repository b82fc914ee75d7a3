/** The sweep builder as it runs: one scratch buffer of packed entries, and the iterators over it. */
module SweepBuilders {
  import opened Bytes
  import opened Wrappers
  import opened Limits
  import opened CborHeads
  import opened CborReaders
  import opened CborWriters
  import opened CborTrees
  import opened CborTreeItems
  import opened CborDriving
  import opened Sweeps
  import opened SweepsRoundTrip
  import opened SweepsWalks

  // ---------------------------------------------------------------------------
  // Reading.

  ghost predicate Gave<T>(cbor: CborReader, spec: Read<T>, r: Result<T, ChangeError>)
    reads cbor
  {
    match spec
    case Failure(why) => r == Failure(why)
    case Success((value, state)) => r == Success(value) && cbor.Ready() && cbor.State() == state
  }

  method ReadEntryField(cbor: CborReader, kind: Kind, key: int, slots: EntrySlots)
      returns (r: Result<EntrySlots, ChangeError>)
    requires cbor.Ready()
    modifies cbor
    ensures Gave(cbor, EntryField(kind, cbor.bytes, old(cbor.State()), key, slots), r)
  {
    hide ReadNumber, SkipItem, ReadingOf;
    if key == 1 {
      var read := cbor.ReadUnsigned(0xFFFF);
      var raw :- Carried(read);
      if raw == 0 {
        return Failure(ZeroId);
      }
      var slot :- Once(slots.id, 1, raw as Id);
      return Success(slots.(id := slot));
    } else if key == 2 || key == 3 {
      var read := cbor.ReadUnsigned(0xFF);
      var raw :- Carried(read);
      var reading :- ReadingOf(kind, raw);
      var slot :- Once(if key == 2 then slots.now else slots.was, key, reading);
      return Success(if key == 2 then slots.(now := slot) else slots.(was := slot));
    } else {
      var skipped := cbor.Skip();
      return if skipped.Failure? then Failure(Cbor(skipped.error)) else Success(slots);
    }
  }

  /** One entry, read to its end before any key is missed. */
  method ReadEntry(kind: Kind, payload: seq<byte>) returns (r: Result<Change, ChangeError>)
    ensures r == DecodeEntry(kind, payload)
  {
    hide ReadAs, EntryField, Finished;
    var cbor := new CborReader(payload, true);
    var read := cbor.ReadMap();
    var pairs :- Carried(read);
    var slots := EntrySlots(None, None, None);
    ghost var entered := cbor.State();
    for i := 0 to pairs
      invariant fresh(cbor) && cbor.Ready() && cbor.bytes == payload
      invariant EntryFields(kind, payload, entered, pairs, EntrySlots(None, None, None))
             == EntryFields(kind, payload, cbor.State(), pairs - i, slots)
    {
      var found := cbor.ReadKey();
      var key :- Carried(found);
      slots :- ReadEntryField(cbor, kind, key, slots);
    }
    var finished := cbor.Finish();
    var _ :- Carried(finished);
    if slots.now.None? {
      return Failure(MissingEntry(2));
    }
    if slots.was.None? {
      return Failure(MissingEntry(3));
    }
    if slots.now == slots.was {
      return Failure(WentNowhere);
    }
    if slots.id.None? {
      return Failure(MissingEntry(1));
    }
    return Success(Change(slots.id.value, slots.now.value, slots.was.value));
  }

  /** The entries of a sweep, decoded on demand. */
  class Changes {
    const kind: Kind
    const body: CborReader
    var left: nat

    ghost predicate Valid()
      reads this, body
    {
      body.Ready()
    }

    /** What is still to come. */
    ghost function Pending(): seq<Result<Change, ChangeError>>
      requires Valid()
      reads this, body
    {
      Yields(kind, body.bytes, body.State(), left)
    }

    constructor (kind: Kind, body: CborReader, left: nat)
      requires body.Ready()
      ensures Valid() && this.kind == kind && this.body == body && this.left == left
    {
      this.kind := kind;
      this.body := body;
      this.left := left;
    }

    /** Whether every entry still to come can be walked to. */
    ghost predicate Sure()
      requires Valid()
      reads this, body
    {
      Walks(body.bytes, body.State(), left)
    }

    /** The next entry, and nothing once there are no more; an iterator that is sure stays sure. */
    method Next() returns (item: Option<Result<Change, ChangeError>>)
      requires Valid()
      modifies this, body
      ensures item == if old(Pending()) == [] then None else Some(old(Pending())[0])
      ensures left == if old(left) == 0 then 0 else old(left) - 1
      ensures old(Sure()) ==>
                Valid() && Sure() && Pending() == if old(left) == 0 then [] else old(Pending())[1..]
    {
      hide SkipItem, DecodeEntry;
      if left == 0 {
        return None;
      }
      left := left - 1;
      var raw := body.Raw();
      if raw.Failure? {
        return Some(Failure(Cbor(raw.error)));
      }
      var entry := ReadEntry(kind, raw.value);
      return Some(entry);
    }
  }

  method ReadBodyField(cbor: CborReader, key: int, slots: BodySlots) returns (r: Result<BodySlots, ChangeError>)
    requires cbor.Ready()
    modifies cbor
    ensures Gave(cbor, BodyField(cbor.bytes, old(cbor.State()), key, slots), r)
  {
    hide ReadNumber, SkipItem;
    if key == 1 {
      var read := cbor.ReadUnsigned(0xFFFF_FFFF);
      var rev :- Carried(read);
      var slot :- Once(slots.rev, 1, rev as u32);
      return Success(slots.(rev := slot));
    } else if key == 2 {
      var read := cbor.Raw();
      var entries :- Carried(read);
      var slot :- Once(slots.entries, 2, entries);
      return Success(slots.(entries := slot));
    } else {
      var skipped := cbor.Skip();
      return if skipped.Failure? then Failure(Cbor(skipped.error)) else Success(slots);
    }
  }

  /** Answers the revision and an iterator at the first entry, or the refusal of the whole body. */
  method ReadSweep(kind: Kind, payload: seq<byte>) returns (r: Result<(u32, Changes), ChangeError>)
    ensures match OpenSweep(payload) {
              case Failure(why) => r == Failure(why)
              case Success(sweep) =>
                && r.Success? && r.value.0 == sweep.rev && r.value.1.Valid() && r.value.1.Sure()
                && r.value.1.Pending() == Yields(kind, sweep.entries, sweep.at, sweep.left)
            }
  {
    hide ReadAs, BodyField, Finished, Yields, Walks;
    var cbor := new CborReader(payload, true);
    var read := cbor.ReadMap();
    var pairs :- Carried(read);
    var slots := BodySlots(None, None);
    ghost var entered := cbor.State();
    for i := 0 to pairs
      invariant fresh(cbor) && cbor.Ready() && cbor.bytes == payload
      invariant BodyFields(payload, entered, pairs, BodySlots(None, None))
                == BodyFields(payload, cbor.State(), pairs - i, slots)
    {
      var found := cbor.ReadKey();
      var key :- Carried(found);
      slots :- ReadBodyField(cbor, key, slots);
    }
    var finished := cbor.Finish();
    var _ :- Carried(finished);
    if slots.rev.None? {
      return Failure(MissingBody(1));
    }
    if slots.entries.None? {
      return Failure(MissingBody(2));
    }
    var entries := new CborReader(slots.entries.value, true);
    var counted := entries.ReadArray();
    var left :- Carried(counted);
    if left == 0 {
      return Failure(NothingChanged);
    }
    OpenedWalks(payload);
    var changes := new Changes(kind, entries, left);
    return Success((slots.rev.value, changes));
  }

  // ---------------------------------------------------------------------------
  // Building.

  /** One change as a map of three, into a buffer of its own. */
  method WriteEntry(cbor: CborWriter, c: Change) returns (r: Result<(), CborError>)
    requires cbor.Valid()
    modifies cbor, cbor.dst
    ensures Shaped(EntryTree(c)) && Ran(cbor, r, TreeCalls(EntryTree(c)))
  {
    hide WriteThrough, Write, TreeCalls, EntryTree;
    ghost var start, capacity := cbor.State(), cbor.dst.Length;
    EntryInPairs(c);
    ThroughBoth(start, capacity, [PutMap(3)],
                [PutKey(1), PutU64(c.id)] + ([PutKey(2), PutU64(c.now)] + [PutKey(3), PutU64(c.was)]));
    RanOne(start, capacity, PutMap(3));
    r := cbor.Map(3);
    if r.Failure? {
      return;
    }
    ThroughBoth(cbor.State(), capacity, [PutKey(1), PutU64(c.id)],
                [PutKey(2), PutU64(c.now)] + [PutKey(3), PutU64(c.was)]);
    r := PutPair(cbor, 1, PutU64(c.id));
    if r.Failure? {
      return;
    }
    ThroughBoth(cbor.State(), capacity, [PutKey(2), PutU64(c.now)], [PutKey(3), PutU64(c.was)]);
    r := PutPair(cbor, 2, PutU64(c.now));
    if r.Failure? {
      return;
    }
    r := PutPair(cbor, 3, PutU64(c.was));
  }

  lemma EntryInPairs(c: Change)
    ensures Shaped(EntryTree(c))
    ensures TreeCalls(EntryTree(c)) ==
            [PutMap(3)] + ([PutKey(1), PutU64(c.id)] + ([PutKey(2), PutU64(c.now)] + [PutKey(3), PutU64(c.was)]))
  {
    hide TreeCalls, EntryTree;
    EntryCalls(c);
    assert [PutKey(3), PutU64(c.was)] == [PutKey(3)] + ([PutU64(c.was)] + []);
  }

  /** The bytes an entry's own buffer ends up holding. */
  lemma EntryWritten(kind: Kind, c: Change)
    requires OfKind(kind, c)
    ensures Shaped(EntryTree(c))
    ensures var written := WriteThrough(EMPTY, EntryWidth(kind), TreeCalls(EntryTree(c)));
            && written.Success? && written.value.out == EntryBytes(c)
            && Close(written.value) == Success(|EntryBytes(c)|)
  {
    hide TreeCalls, EntryTree, WriteThrough, TreeBytes, TreeSize, OfKind, EntryWidth, CborTrees.Sound;
    EntrySound(c);
    SoundParts(EntryTree(c));
    EntryFits(kind, c);
    TreeEmits(EntryTree(c));
    TreeRoundTrip(EntryTree(c), EntryWidth(kind));
    TreeOut(EntryTree(c), EntryWidth(kind));
  }

  class Sweep {
    const kind: Kind
    const rev: u32
    const scratch: array<byte>
    var used: nat
    var rows: nat
    ghost var taken: seq<Change>

    ghost predicate Valid()
      reads this, scratch
    {
      && scratch.Length == MAX_EVENT_BODY && used <= scratch.Length
      && rows == |taken| && scratch[..used] == Packed(taken) && Holding(kind, taken)
    }

    constructor (kind: Kind, rev: u32)
      ensures Valid() && fresh(scratch) && this.kind == kind && this.rev == rev && taken == []
    {
      this.kind := kind;
      this.rev := rev;
      scratch := new byte[MAX_EVENT_BODY](_ => 0);
      used := 0;
      rows := 0;
      taken := [];
    }

    /**
     Offer one change: `true` when this event took it, `false` when it is full and
     the next one carries it. What is held changes only with `true`.
     */
    method Offer(c: Change) returns (r: Result<bool, ChangeError>)
      requires Valid() && OfKind(kind, c)
      modifies this, scratch
      ensures Valid() && (r, taken) == Push(kind, old(taken), c)
    {
      hide Packed, EntryBytes, OfKind, WriteThrough, TreeCalls, EntryTree, Close, Holding, Shaped;
      HoldingBounds(kind, taken);
      PushKeepsHolding(kind, taken, c);
      EntryFits(kind, c);
      EntryWritten(kind, c);
      if c.now == c.was {
        return Failure(WentNowhere);
      }
      if rows >= Rows(kind) {
        return Success(false);
      }
      var one := new byte[EntryWidth(kind)](_ => 0);
      var cbor := new CborWriter(one);
      var written := WriteEntry(cbor, c);
      var finished := cbor.Finish();
      var len := finished.value;
      assert one[..len] == EntryBytes(c);
      if used + len > MAX_EVENT_BODY {
        return Success(false);
      }
      ghost var before := scratch[..used];
      forall i | 0 <= i < len {
        scratch[used + i] := one[i];
      }
      assert scratch[used..used + len] == one[..len];
      assert scratch[..used + len] == before + EntryBytes(c);
      PackedOneMore(taken, c);
      used := used + len;
      rows := rows + 1;
      taken := taken + [c];
      return Success(true);
    }

    /** What this holds, before anything is encoded. */
    method Entries() returns (entries: Changes)
      requires Valid()
      ensures fresh(entries) && fresh(entries.body) && entries.Valid() && entries.Sure()
      ensures entries.Pending() == All(taken)
    {
      hide Packed, Holding, Yields, Walks;
      EntriesAreTaken(kind, taken);
      EntriesWalk(kind, taken);
      var body := new CborReader(scratch[..used], true);
      entries := new Changes(kind, body, rows);
    }

    /** The packed entries, each walked and copied in as one item of the array. */
    method WriteRows(cbor: CborWriter) returns (r: Result<(), CborError>)
      requires Valid() && cbor.Valid() && cbor.dst != scratch
      modifies cbor, cbor.dst
      ensures Valid() && ShapedItems(RawItems(taken)) && Ran(cbor, r, ItemCalls(RawItems(taken)))
    {
      hide Packed, EntryBytes, OfKind, WriteThrough, Write, Holding, SkipItem, RawItems, ShapedItems;
      ghost var start, capacity := cbor.State(), cbor.dst.Length;
      RawItemsSound(taken);
      HoldingBounds(kind, taken);
      var reader := new CborReader(scratch[..used], true);
      PackedNone();
      assert taken[..0] == [] && taken[0..] == taken;
      for i := 0 to rows
        invariant fresh(reader) && reader.Ready() && reader.bytes == Packed(taken) && cbor.Valid() && Valid()
        invariant Between(Packed(taken), reader.State(), |Packed(taken[..i])|)
        invariant ShapedItems(RawItems(taken[i..]))
        invariant WriteThrough(start, capacity, ItemCalls(RawItems(taken)))
               == WriteThrough(cbor.State(), capacity, ItemCalls(RawItems(taken[i..])))
      {
        ghost var c, at := taken[i], reader.State();
        PackedAt(taken, i);
        StandsSlice(EntryBytes(c), Packed(taken), at.next);
        ghost var after := SkipsEntry(Packed(taken), at, c);
        RawItemsFrom(taken, i);
        var raw := reader.Raw();
        ThroughBoth(cbor.State(), capacity, [PutRaw(EntryBytes(c))], ItemCalls(RawItems(taken[i + 1..])));
        RanOne(cbor.State(), capacity, PutRaw(EntryBytes(c)));
        r := cbor.Raw(raw.value);
        if r.Failure? {
          return;
        }
      }
      assert taken[rows..] == [];
      NoRowsLeft(cbor.State(), capacity);
      return Success(());
    }

    /** Encode it, refusing one with nothing in it rather than writing it. */
    method Encode(dst: array<byte>) returns (r: Result<nat, ChangeError>)
      requires Valid() && dst != scratch
      modifies dst
      ensures Valid() && Shaped(BodyTree(rev, taken))
      ensures match EncodeSweep(rev, taken, dst.Length) {
                case Failure(why) => r == Failure(why)
                case Success(body) => r == Success(|body|) && |body| <= dst.Length && dst[..|body|] == body
              }
    {
      hide Packed, OfKind, WriteThrough, Write, Holding, TreeCalls, BodyTree, Shaped, ItemCalls, RawItems, ShapedItems;
      HoldingBounds(kind, taken);
      BodyParts(kind, rev, taken);
      if rows == 0 {
        return Failure(NothingChanged);
      }
      SweepCloses(kind, rev, taken, dst.Length);
      var cbor := new CborWriter(dst);
      var written := WriteBody(cbor);
      if written.Failure? {
        return Failure(Cbor(written.error));
      }
      var finished := cbor.Finish();
      return Success(finished.value);
    }

    method WriteBody(cbor: CborWriter) returns (r: Result<(), CborError>)
      requires Valid() && cbor.Valid() && cbor.dst != scratch
      modifies cbor, cbor.dst
      ensures Valid() && Shaped(BodyTree(rev, taken)) && Ran(cbor, r, TreeCalls(BodyTree(rev, taken)))
    {
      hide Packed, OfKind, WriteThrough, Write, Holding, TreeCalls, BodyTree, Shaped, ItemCalls, RawItems, ShapedItems;
      ghost var start, capacity := cbor.State(), cbor.dst.Length;
      HoldingBounds(kind, taken);
      BodyParts(kind, rev, taken);
      ghost var rowsCalls := ItemCalls(RawItems(taken));
      ThroughBoth(start, capacity, [PutMap(2)],
                  [PutKey(1), PutU64(rev)] + ([PutKey(2)] + ([PutArray(|taken|)] + rowsCalls)));
      RanOne(start, capacity, PutMap(2));
      r := cbor.Map(2);
      if r.Failure? {
        return;
      }
      ThroughBoth(cbor.State(), capacity, [PutKey(1), PutU64(rev)], [PutKey(2)] + ([PutArray(|taken|)] + rowsCalls));
      r := PutPair(cbor, 1, PutU64(rev));
      if r.Failure? {
        return;
      }
      ThroughBoth(cbor.State(), capacity, [PutKey(2)], [PutArray(|taken|)] + rowsCalls);
      RanOne(cbor.State(), capacity, PutKey(2));
      r := cbor.Key(2);
      if r.Failure? {
        return;
      }
      ThroughBoth(cbor.State(), capacity, [PutArray(|taken|)], rowsCalls);
      RanOne(cbor.State(), capacity, PutArray(|taken|));
      r := cbor.Array(rows);
      if r.Failure? {
        return;
      }
      r := WriteRows(cbor);
    }
  }

  lemma HoldingBounds(kind: Kind, taken: seq<Change>)
    requires Holding(kind, taken)
    ensures |taken| <= Rows(kind) <= 48 && |Packed(taken)| <= MAX_EVENT_BODY == 957 && |taken| <= USIZE_MAX
  {
    hide Packed, OfKind;
  }

  lemma RawItemsFrom(taken: seq<Change>, i: nat)
    requires i < |taken| && ShapedItems(RawItems(taken[i..]))
    ensures ShapedItems(RawItems(taken[i + 1..]))
    ensures ItemCalls(RawItems(taken[i..])) == [PutRaw(EntryBytes(taken[i]))] + ItemCalls(RawItems(taken[i + 1..]))
  {
    hide EntryBytes, WholeItem;
    assert taken[i..][0] == taken[i] && taken[i..][1..] == taken[i + 1..];
  }

  lemma NoRowsLeft(s: WriterState, capacity: nat)
    ensures ShapedItems(RawItems([])) && WriteThrough(s, capacity, ItemCalls(RawItems([]))) == Success(s)
  {}

  lemma {:induction false} BodyParts(kind: Kind, rev: u32, taken: seq<Change>)
    requires |taken| <= Rows(kind)
    ensures CborTrees.Sound(BodyTree(rev, taken)) && Shaped(BodyTree(rev, taken)) && |taken| <= USIZE_MAX
    ensures ShapedItems(RawItems(taken))
    ensures TreeCalls(BodyTree(rev, taken)) ==
            [PutMap(2)] + ([PutKey(1), PutU64(rev)]
                           + ([PutKey(2)] + ([PutArray(|taken|)] + ItemCalls(RawItems(taken)))))
  {
    hide TreeCalls, ItemCalls, RawItems, Shaped, ShapedItems, CborTrees.Sound;
    ListSound(taken);
    RawItemsSound(taken);
    SoundParts(List(RawItems(taken)));
    ListCalled(taken);
    TwoPairsSound(rev, List(RawItems(taken)));
    TreeShaped(BodyTree(rev, taken));
    var rows := ItemCalls(RawItems(taken));
    assert rows + [] == rows;
    assert [PutKey(1)] + [PutU64(rev)] == [PutKey(1), PutU64(rev)];
    assert [PutKey(2)] + ([PutArray(|taken|)] + rows) + [] == [PutKey(2)] + ([PutArray(|taken|)] + rows);
  }

  lemma SweepCloses(kind: Kind, rev: u32, taken: seq<Change>, capacity: nat)
    requires CborTrees.Sound(BodyTree(rev, taken)) && Shaped(BodyTree(rev, taken))
    ensures var written := WriteThrough(EMPTY, capacity, TreeCalls(BodyTree(rev, taken)));
            written.Success? ==> Close(written.value) == Success(|written.value.out|)
  {
    hide WriteThrough, TreeCalls, BodyTree, CborTrees.Sound, Shaped;
    TreeRoundTrip(BodyTree(rev, taken), capacity);
  }
}
