/** A few whole encodings, byte for byte: what another implementation has to agree with. */
module WireVectors {
  import opened Bytes
  import opened Wrappers
  import opened Limits
  import opened Crc
  import opened CrcValues
  import opened Cobs
  import opened Frame
  import opened Ble
  import opened CborHeads
  import opened CborWriters
  import opened CborTrees
  import opened CborTreeItems
  import opened Sections
  import opened SectionWire
  import opened Sweeps

  /** A run without zeros shorter than a block is its length and itself. */
  lemma {:induction false} OneRun(run: seq<byte>, rest: seq<byte>)
    requires NoZero(rest) && |run| + |rest| < MAX_BLOCK_DATA
    ensures EncodeFrom(run, rest) == [|run + rest| + 1] + (run + rest)
    decreases |rest|
  {
    if rest == [] {
      assert run + rest == run;
    } else {
      OneRun(run + [rest[0]], rest[1..]);
      assert run + [rest[0]] + rest[1..] == run + rest;
    }
  }

  lemma {:induction false} NonZeroLength(run: seq<byte>, rest: seq<byte>)
    requires NoZero(rest) && |run| <= MAX_BLOCK_DATA
    ensures var n := |run| + |rest|; |EncodeFrom(run, rest)| == 1 + n + if n == 0 then 0 else (n - 1) / 254
    decreases |rest|, |run|
  {
    if rest != [] {
      if |run| == MAX_BLOCK_DATA { NonZeroLength([], rest); } else { NonZeroLength(run + [rest[0]], rest[1..]); }
    }
  }

  /** The room asked for is all used by a payload without zeros, unless its last block is full: no less would do. */
  lemma RoomIsUsed(payload: seq<byte>)
    requires NoZero(payload)
    ensures MaxEncodedLen(|payload|) == 1 + |payload| + |payload| / 254
    ensures |payload| % 254 != 0 || payload == [] ==> |Encoded(payload)| == MaxEncodedLen(|payload|)
  {
    NonZeroLength([], payload);
  }

  lemma CobsVector()
    ensures Encoded([0x11, 0x22, 0x00, 0x33]) == [0x03, 0x11, 0x22, 0x02, 0x33]
    ensures Encoded([0x00]) == [0x01, 0x01] && Encoded([]) == [0x01]
  {
    OneRun([], [0x33]);
    assert [] + [0x33] == [0x33] && [0x00, 0x33][1..] == [0x33];
    assert EncodeFrom([0x11, 0x22], [0x00, 0x33]) == [0x03] + [0x11, 0x22] + [0x02, 0x33];
    assert [0x22, 0x00, 0x33][1..] == [0x00, 0x33] && [0x11] + [0x22] == [0x11, 0x22];
    assert EncodeFrom([0x11], [0x22, 0x00, 0x33]) == EncodeFrom([0x11, 0x22], [0x00, 0x33]);
    assert [0x11, 0x22, 0x00, 0x33][1..] == [0x22, 0x00, 0x33] && [] + [0x11] == [0x11];
    assert EncodeFrom([], [0x11, 0x22, 0x00, 0x33]) == EncodeFrom([0x11], [0x22, 0x00, 0x33]);
    assert [0x00][1..] == [] && EncodeFrom([], []) == [0x01];
  }

  /** The frame of nothing, and the frame of the nine digits: the checksum goes out low byte first. */
  lemma FrameVectors()
    ensures Framed([]) == [0x03, 0xFF, 0xFF, 0x00]
    ensures Framed(DIGITS) ==
            [0x0C, 0x31, 0x32, 0x33, 0x34, 0x35, 0x36, 0x37, 0x38, 0x39, 0xB1, 0x29, 0x00]
  {
    OfNothing();
    CheckValue();
    LowFirst();
    hide Crc16, EncodeFrom, LittleEndian;
    assert [] + [0xFF, 0xFF] == [0xFF, 0xFF];
    OneRun([], [0xFF, 0xFF]);
    assert [] + (DIGITS + [0xB1, 0x29]) == DIGITS + [0xB1, 0x29];
    OneRun([], DIGITS + [0xB1, 0x29]);
  }

  lemma LowFirst()
    ensures LittleEndian(0xFFFF) == [0xFF, 0xFF] && LittleEndian(0x29B1) == [0xB1, 0x29]
  {}

  /** A message of two values: the id, the index with its top bit set on the last, and the data. */
  lemma BleVector(id: byte, message: seq<byte>)
    requires |message| == 20
    ensures Fragments(id, message, 20, 0, 0) == [[id, 0x00] + message[..18], [id, 0x81] + message[18..]]
  {
    assert Fragments(id, message, 20, 18, 1) == [[id, 0x81] + message[18..20]];
    assert message[18..20] == message[18..] && message[0..18] == message[..18];
  }

  lemma SmallHead(m: Major, n: nat)
    requires n < 24
    ensures HeadBytes(m, n) == [32 * MajorBits(m) + n]
  {
    assert BigEndian(n, 0) == [];
  }

  lemma NumberBytes(n: nat)
    requires n < 24
    ensures Shaped(Leaf(PutU64(n))) && TreeBytes(Leaf(PutU64(n))) == [n]
  {
    SmallHead(UnsignedInt, n);
  }

  lemma PairBytes(key: nat, value: Tree, others: KeyedItems)
    requires key < 24 && Shaped(value) && ShapedPairs(others)
    ensures ShapedPairs(APair(key, value, others)) && PairCount(APair(key, value, others)) == 1 + PairCount(others)
    ensures PairsBytes(APair(key, value, others)) == [key] + TreeBytes(value) + PairsBytes(others)
  {
    hide HeadBytes, TreeBytes, Emission;
    SmallHead(UnsignedInt, key);
  }

  lemma DictBytes(pairs: KeyedItems)
    requires ShapedPairs(pairs) && PairCount(pairs) < 24
    ensures Shaped(Dict(pairs)) && TreeBytes(Dict(pairs)) == [0xA0 + PairCount(pairs)] + PairsBytes(pairs)
  {
    hide HeadBytes, PairsBytes, PairCount, ShapedPairs, Emission;
    SmallHead(MapOf, PairCount(pairs));
  }

  /** One sweep entry: what changed under key 1, what it is now under 2, what it was under 3. */
  lemma SweepEntryVector(id: Id, now: byte, was: byte)
    requires id < 24 && now < 24 && was < 24
    ensures EntryBytes(Change(id, now, was)) == [0xA3, 0x01, id, 0x02, now, 0x03, was]
  {
    hide TreeBytes, PairsBytes, Shaped, ShapedPairs, PairCount;
    NumberBytes(id);
    NumberBytes(now);
    NumberBytes(was);
    NoPairBytes();
    var p3 := APair(3, Leaf(PutU64(was)), NoPair);
    var p2 := APair(2, Leaf(PutU64(now)), p3);
    PairBytes(3, Leaf(PutU64(was)), NoPair);
    PairBytes(2, Leaf(PutU64(now)), p3);
    PairBytes(1, Leaf(PutU64(id)), p2);
    DictBytes(APair(1, Leaf(PutU64(id)), p2));
  }

  lemma NoPairBytes()
    ensures ShapedPairs(NoPair) && PairCount(NoPair) == 0 && PairsBytes(NoPair) == []
  {}

  /** The section that holds nothing: a map of two empty lists. */
  lemma EmptySectionVector()
    ensures Shaped(SectionTree(EMPTY_SECTION))
    ensures TreeBytes(SectionTree(EMPTY_SECTION)) == [0xA2, 0x01, 0x80, 0x02, 0x80]
  {
    hide PairsBytes, PairCount;
    NoPairBytes();
    SmallHead(ArrayOf, 0);
    var second := APair(2, List(NoItem), NoPair);
    PairBytes(2, List(NoItem), NoPair);
    PairBytes(1, List(NoItem), second);
    DictBytes(APair(1, List(NoItem), second));
  }
}
