/** What a sweep says it holds is what its bytes carry: walked before it is sent, and read after. */
module SweepsRoundTrip {
  import opened Bytes
  import opened Wrappers
  import opened Limits
  import opened CborHeads
  import opened CborGrammar
  import opened CborReaders
  import opened CborWriters
  import opened CborRoundTrip
  import opened CborTrees
  import opened CborTreeItems
  import opened Sweeps

  // ---------------------------------------------------------------------------
  // One entry.

  lemma EntryCalls(c: Change)
    ensures Shaped(EntryTree(c))
    ensures TreeCalls(EntryTree(c)) ==
            [PutMap(3)] + ([PutKey(1)]
                           + ([PutU64(c.id)]
                              + ([PutKey(2)] + ([PutU64(c.now)] + ([PutKey(3)] + ([PutU64(c.was)] + []))))))
  {
    hide PairCalls, PairCount;
    EntrySound(c);
    ThreeLeaves(c.id, c.now, c.was);
  }

  lemma ThreeLeaves(a: u64, b: u64, c: u64)
    ensures var pairs := APair(1, Leaf(PutU64(a)), APair(2, Leaf(PutU64(b)), APair(3, Leaf(PutU64(c)), NoPair)));
            && ShapedPairs(pairs) && PairCount(pairs) == 3
            && PairCalls(pairs) ==
               [PutKey(1)] + ([PutU64(a)] + ([PutKey(2)] + ([PutU64(b)] + ([PutKey(3)] + ([PutU64(c)] + [])))))
  {
    hide PairCalls, PairCount, ShapedPairs;
    NothingSize();
    NoPairCalls();
    var p3 := APair(3, Leaf(PutU64(c)), NoPair);
    var p2 := APair(2, Leaf(PutU64(b)), p3);
    OneLeaf(3, c, NoPair);
    OneLeaf(2, b, p3);
    OneLeaf(1, a, p2);
  }

  lemma OneLeaf(key: nat, n: u64, others: KeyedItems)
    requires ShapedPairs(others) && key < 24
    ensures var pairs := APair(key, Leaf(PutU64(n)), others);
            && ShapedPairs(pairs) && PairCount(pairs) == PairCount(others) + 1
            && PairCalls(pairs) == [PutKey(key)] + ([PutU64(n)] + PairCalls(others))
  {}

  lemma EntryFieldIs(kind: Kind, b: seq<byte>, s: ReaderState, key: nat, n: nat, after: ReaderState, slots: EntrySlots,
                     filled: EntrySlots)
    requires Within(b, s) && Within(b, after) && 1 <= key <= 3
    requires ReadNumber(b, s, if key == 1 then 0xFFFF else 0xFF) == Success((n, after))
    requires key == 1 ==> n > 0 && slots.id.None? && filled == slots.(id := Some(n))
    requires key == 2 ==> ReadingOf(kind, n).Success? && slots.now.None? && filled == slots.(now := Some(n))
    requires key == 3 ==> ReadingOf(kind, n).Success? && slots.was.None? && filled == slots.(was := Some(n))
    ensures EntryField(kind, b, s, key, slots) == Success((filled, after))
  {
    hide ReadNumber, ReadingOf;
  }

  lemma EntryStep(kind: Kind, b: seq<byte>, s: ReaderState, key: nat, n: u64, left: nat, slots: EntrySlots,
                  filled: EntrySlots, rest: seq<Call>)
    returns (after: ReaderState)
    requires 1 <= key <= 3 && left > 0 && Due(b, s, [PutKey(key)] + ([PutU64(n)] + rest))
    requires key == 1 ==> 0 < n <= 0xFFFF && slots.id.None? && filled == slots.(id := Some(n))
    requires key == 2
             ==> n <= 0xFF && ReadingOf(kind, n).Success? && slots.now.None? && filled == slots.(now := Some(n))
    requires key == 3
             ==> n <= 0xFF && ReadingOf(kind, n).Success? && slots.was.None? && filled == slots.(was := Some(n))
    ensures Within(b, s) && Within(b, after) && Due(b, after, rest)
    ensures EntryFields(kind, b, s, left, slots) == EntryFields(kind, b, after, left - 1, filled)
  {
    hide Due, ReadAs, ReadNumber, EntryField, ReadingOf;
    var keyed := KeyDue(b, s, key, [PutU64(n)] + rest);
    after := NumberDue(b, keyed, n, if key == 1 then 0xFFFF else 0xFF, rest);
    DueWithinRest(b, after, rest);
    EntryFieldIs(kind, b, keyed, key, n, after, slots, filled);
  }

  lemma DueWithinRest(b: seq<byte>, s: ReaderState, calls: seq<Call>)
    requires Due(b, s, calls)
    ensures Within(b, s) && (calls == [] ==> Finished(b, s) == Success(()))
  {}

  /** An entry's bytes decode to the entry. */
  lemma EntryDecodes(kind: Kind, c: Change)
    requires OfKind(kind, c) && c.now != c.was
    ensures DecodeEntry(kind, EntryBytes(c)) == Success(c)
  {
    hide Due, ReadAs, EntryFields, TreeBytes, TreeCalls, EntryTree, Finished, ReadingOf;
    EntrySound(c);
    EntryCalls(c);
    TreeReads(EntryTree(c));
    var b := EntryBytes(c);
    var f0 := EntrySlots(None, None, None);
    var f1 := f0.(id := Some(c.id));
    var f2 := f1.(now := Some(c.now));
    var s0 := MapDue(b, START, 3,
                     [PutKey(1)] + ([PutU64(c.id)]
                                    + ([PutKey(2)] + ([PutU64(c.now)] + ([PutKey(3)] + ([PutU64(c.was)] + []))))));
    var s1 := EntryStep(kind, b, s0, 1, c.id, 3, f0, f1,
                        [PutKey(2)] + ([PutU64(c.now)] + ([PutKey(3)] + ([PutU64(c.was)] + []))));
    var s2 := EntryStep(kind, b, s1, 2, c.now, 2, f1, f2, [PutKey(3)] + ([PutU64(c.was)] + []));
    var s3 := EntryStep(kind, b, s2, 3, c.was, 1, f2, f2.(was := Some(c.was)), []);
    NoFieldsLeft(kind, b, s3, f2.(was := Some(c.was)));
    DueWithinRest(b, s3, []);
  }

  lemma NoFieldsLeft(kind: Kind, b: seq<byte>, s: ReaderState, slots: EntrySlots)
    requires Within(b, s)
    ensures EntryFields(kind, b, s, 0, slots) == Success((slots, s))
  {}

  // ---------------------------------------------------------------------------
  // Walked before anything is encoded.

  /** Every change, each as a success. */
  function All(taken: seq<Change>): (all: seq<Result<Change, ChangeError>>)
    ensures |all| == |taken|
  {
    if taken == [] then [] else [Success(taken[0])] + All(taken[1..])
  }

  lemma {:induction false} PackedAt(taken: seq<Change>, i: nat)
    requires i < |taken|
    ensures |Packed(taken[..i + 1])| == |Packed(taken[..i])| + |EntryBytes(taken[i])|
    ensures Stands(EntryBytes(taken[i]), Packed(taken), |Packed(taken[..i])|)
    decreases |taken|
  {
    hide EntryBytes;
    PackedOneMore(taken[..i], taken[i]);
    assert taken[..i + 1] == taken[..i] + [taken[i]];
    var front, last := taken[..|taken| - 1], taken[|taken| - 1];
    if i < |taken| - 1 {
      PackedAt(front, i);
      assert front[..i] == taken[..i];
    }
  }

  lemma StandsSlice(part: seq<byte>, b: seq<byte>, at: nat)
    requires Stands(part, b, at)
    ensures at + |part| <= |b| && b[at..at + |part|] == part
  {}

  /** A reader between entries, outside any container. */
  predicate Between(b: seq<byte>, s: ReaderState, at: nat) {
    s.next == at <= |b| && s.frames == [] && s.deepest <= MAX_DEPTH && !s.unsettled && !s.skipped
  }

  lemma SkipsEntry(b: seq<byte>, s: ReaderState, c: Change) returns (after: ReaderState)
    requires Between(b, s, s.next) && Stands(EntryBytes(c), b, s.next)
    ensures Within(b, s) && SkipItem(b, s, true) == Success(after) && Between(b, after, s.next + |EntryBytes(c)|)
  {
    hide Item, TreeBytes, Stands, EntryTree;
    EntrySound(c);
    SoundParts(EntryTree(c));
    TreeItem(EntryTree(c), b, s.next, MAX_DEPTH);
    after := SkipItem(b, s, true).value;
  }

  lemma SoundParts(t: Tree)
    requires CborTrees.Sound(t)
    ensures Shaped(t) && Ordered(t) && Height(t) <= MAX_DEPTH
  {}

  lemma {:induction false} PackedYields(kind: Kind, taken: seq<Change>, i: nat, s: ReaderState)
    requires Holding(kind, taken) && i <= |taken| && Between(Packed(taken), s, |Packed(taken[..i])|)
    ensures Within(Packed(taken), s) && Yields(kind, Packed(taken), s, |taken| - i) == All(taken[i..])
    decreases |taken| - i
  {
    hide EntryBytes, Packed, SkipItem, DecodeEntry, OfKind, Stands;
    if i < |taken| {
      var c, b := taken[i], Packed(taken);
      PackedAt(taken, i);
      StandsSlice(EntryBytes(c), b, s.next);
      var after := SkipsEntry(b, s, c);
      EntryDecodes(kind, c);
      PackedYields(kind, taken, i + 1, after);
      assert taken[i..][0] == c && taken[i..][1..] == taken[i + 1..];
    }
  }

  /** Walking what a sweep holds yields every change taken, in order, and nothing else. */
  lemma EntriesAreTaken(kind: Kind, taken: seq<Change>)
    requires Holding(kind, taken)
    ensures Within(Packed(taken), START) && Yields(kind, Packed(taken), START, |taken|) == All(taken)
  {
    hide Packed, Holding, Yields;
    assert taken[..0] == [] && taken[0..] == taken;
    assert |Packed(taken[..0])| == 0 by { PackedNone(); }
    PackedYields(kind, taken, 0, START);
  }

  lemma PackedNone()
    ensures Packed([]) == []
  {}

  // ---------------------------------------------------------------------------
  // Read from the body.

  lemma {:induction false} RawItemsSound(taken: seq<Change>)
    ensures ShapedItems(RawItems(taken)) && OrderedItems(RawItems(taken)) && ItemsHeight(RawItems(taken)) <= 1
    ensures ItemCount(RawItems(taken)) == |taken|
  {
    hide EntryBytes;
    if taken != [] {
      RawLeaf(taken[0]);
      RawItemsSound(taken[1..]);
    }
  }

  lemma RawLeaf(c: Change)
    ensures var leaf := Leaf(PutRaw(EntryBytes(c))); Shaped(leaf) && Ordered(leaf) && Height(leaf) == 1
  {
    hide TreeBytes, EntryTree, WholeItem, ItemHeight;
    EntrySound(c);
    TreeIsItem(EntryTree(c));
  }

  lemma ListSound(taken: seq<Change>)
    requires |taken| <= USIZE_MAX
    ensures CborTrees.Sound(List(RawItems(taken))) && Height(List(RawItems(taken))) <= 2
  {
    RawItemsSound(taken);
  }

  /** The array as the reader takes it: one item copied out of the body whole. */
  function ArrayBytes(taken: seq<Change>): (bytes: seq<byte>)
    requires |taken| <= USIZE_MAX
  {
    ListSound(taken);
    TreeBytes(List(RawItems(taken)))
  }

  /** The body as the reader sees it: a revision, and under key 2 one item still encoded. */
  function SealedTree(rev: u32, list: Slice): Tree {
    Dict(APair(1, Leaf(PutU64(rev)), APair(2, Leaf(PutRaw(list)), NoPair)))
  }

  lemma TwoPairsSound(rev: u32, value: Tree)
    requires Shaped(value) && Ordered(value) && Height(value) <= 2
    ensures CborTrees.Sound(Dict(APair(1, Leaf(PutU64(rev)), APair(2, value, NoPair))))
    ensures TreeBytes(Dict(APair(1, Leaf(PutU64(rev)), APair(2, value, NoPair)))) ==
            HeadBytes(MapOf, 2)
            + (HeadBytes(UnsignedInt, 1) + Emission(PutU64(rev)) + (HeadBytes(UnsignedInt, 2) + TreeBytes(value) + []))
    ensures TreeCalls(Dict(APair(1, Leaf(PutU64(rev)), APair(2, value, NoPair)))) ==
            [PutMap(2)] + ([PutKey(1)] + [PutU64(rev)] + ([PutKey(2)] + TreeCalls(value) + []))
  {
    hide Emission, HeadBytes, TreeCalls, TreeBytes, PairCalls, PairsBytes, PairCount, ShapedPairs, OrderedPairs,
         PairsHeight,
      Shaped, Ordered, Height, TreeSize, PairsSize;
    NumberLeaf(rev);
    NothingSize();
    var inner := APair(2, value, NoPair);
    var outer := APair(1, Leaf(PutU64(rev)), inner);
    PairSize(2, value, NoPair);
    PairSize(1, Leaf(PutU64(rev)), inner);
    SmallDict(outer);
    PairParts(2, value, NoPair);
    PairParts(1, Leaf(PutU64(rev)), inner);
    DictParts(outer, rev);
  }

  lemma PairParts(key: nat, value: Tree, others: KeyedItems)
    requires ShapedPairs(others) && Shaped(value) && key < 24 && ShapedPairs(APair(key, value, others))
    ensures PairsBytes(APair(key, value, others)) == HeadBytes(UnsignedInt, key) + TreeBytes(value) + PairsBytes(others)
    ensures PairCalls(APair(key, value, others)) == [PutKey(key)] + TreeCalls(value) + PairCalls(others)
  {
    hide TreeBytes, TreeCalls, HeadBytes;
  }

  lemma DictParts(pairs: KeyedItems, rev: u32)
    requires Shaped(Dict(pairs)) && Shaped(Leaf(PutU64(rev))) && ShapedPairs(NoPair)
    ensures TreeBytes(Dict(pairs)) == HeadBytes(MapOf, PairCount(pairs)) + PairsBytes(pairs)
    ensures TreeCalls(Dict(pairs)) == [PutMap(PairCount(pairs))] + PairCalls(pairs)
    ensures TreeBytes(Leaf(PutU64(rev))) == Emission(PutU64(rev)) && TreeCalls(Leaf(PutU64(rev))) == [PutU64(rev)]
    ensures PairsBytes(NoPair) == [] && PairCalls(NoPair) == []
  {
    hide HeadBytes, Emission;
  }

  /** Copied out or written in place, the same bytes. */
  lemma SealedSame(rev: u32, taken: seq<Change>)
    requires |taken| <= USIZE_MAX && |ArrayBytes(taken)| <= USIZE_MAX
    ensures CborTrees.Sound(BodyTree(rev, taken)) && CborTrees.Sound(SealedTree(rev, ArrayBytes(taken)))
    ensures TreeBytes(BodyTree(rev, taken)) == TreeBytes(SealedTree(rev, ArrayBytes(taken)))
    ensures TreeCalls(SealedTree(rev, ArrayBytes(taken))) ==
            [PutMap(2)] + ([PutKey(1)] + [PutU64(rev)] + ([PutKey(2)] + [PutRaw(ArrayBytes(taken))] + []))
  {
    ListSound(taken);
    var list := List(RawItems(taken));
    var sealed := Leaf(PutRaw(ArrayBytes(taken)));
    SealedLeaf(list);
    TwoPairsSound(rev, list);
    TwoPairsSound(rev, sealed);
  }

  lemma SealedLeaf(t: Tree)
    requires CborTrees.Sound(t) && |TreeBytes(t)| <= USIZE_MAX
    ensures var leaf := Leaf(PutRaw(TreeBytes(t)));
            Shaped(leaf) && Ordered(leaf) && Height(leaf) == Height(t) && TreeBytes(leaf) == TreeBytes(t)
  {
    hide WholeItem, ItemHeight;
    TreeIsItem(t);
  }

  lemma {:induction false} ListCalled(taken: seq<Change>)
    requires |taken| <= USIZE_MAX && ShapedItems(RawItems(taken)) && ItemCount(RawItems(taken)) == |taken|
    ensures TreeCalls(List(RawItems(taken))) == [PutArray(|taken|)] + (ItemCalls(RawItems(taken)) + [])
  {
    hide ItemCalls;
    assert ItemCalls(RawItems(taken)) + [] == ItemCalls(RawItems(taken));
  }

  lemma {:induction false} ArrayYields(kind: Kind, b: seq<byte>, s: ReaderState, taken: seq<Change>)
    requires (forall c :: c in taken ==> OfKind(kind, c) && c.now != c.was)
    requires ShapedItems(RawItems(taken)) && Due(b, s, ItemCalls(RawItems(taken)) + [])
    ensures Within(b, s) && Yields(kind, b, s, |taken|) == All(taken)
    decreases |taken|
  {
    hide Due, EntryBytes, DecodeEntry, SkipItem, OfKind;
    DueWithinRest(b, s, ItemCalls(RawItems(taken)) + []);
    if taken != [] {
      var c, more := taken[0], ItemCalls(RawItems(taken[1..])) + [];
      assert ItemCalls(RawItems(taken)) + [] == [PutRaw(EntryBytes(c))] + more;
      var after := RawDue(b, s, EntryBytes(c), more);
      EntryDecodes(kind, c);
      ArrayYields(kind, b, after, taken[1..]);
    }
  }

  lemma RevField(b: seq<byte>, s: ReaderState, rev: u32, after: ReaderState)
    requires Within(b, s) && ReadNumber(b, s, 0xFFFF_FFFF) == Success((rev as nat, after))
    ensures BodyField(b, s, 1, BodySlots(None, None)) == Success((BodySlots(Some(rev), None), after))
  {
    hide ReadNumber;
  }

  lemma EntriesField(b: seq<byte>, s: ReaderState, rev: u32, list: seq<byte>, after: ReaderState)
    requires Within(b, s) && SkipItem(b, s, true) == Success(after) && b[s.next..after.next] == list
    ensures BodyField(b, s, 2, BodySlots(Some(rev), None)) == Success((BodySlots(Some(rev), Some(list)), after))
  {
    hide SkipItem;
  }

  lemma BodyRead(b: seq<byte>, s: ReaderState, rev: u32, keyed: ReaderState, first: ReaderState, keyed2: ReaderState,
                 list: seq<byte>, last: ReaderState)
    requires Within(b, s) && ReadAs(b, s, AsKey) == Success((1, keyed))
    requires BodyField(b, keyed, 1, BodySlots(None, None)) == Success((BodySlots(Some(rev), None), first))
    requires ReadAs(b, first, AsKey) == Success((2, keyed2))
    requires BodyField(b, keyed2, 2, BodySlots(Some(rev), None)) == Success((BodySlots(Some(rev), Some(list)), last))
    ensures BodyFields(b, s, 2, BodySlots(None, None)) == Success((BodySlots(Some(rev), Some(list)), last))
  {
    hide ReadAs, BodyField;
    assert BodyFields(b, last, 0, BodySlots(Some(rev), Some(list)))
           == Success((BodySlots(Some(rev), Some(list)), last));
    assert BodyFields(b, first, 1, BodySlots(Some(rev), None))
           == BodyFields(b, last, 0, BodySlots(Some(rev), Some(list)));
  }

  /** A body opens at its array: the revision written, and a reader inside with every entry still to walk. */
  lemma BodyOpens(rev: u32, taken: seq<Change>)
    requires 0 < |taken| <= USIZE_MAX && |ArrayBytes(taken)| <= USIZE_MAX && CborTrees.Sound(BodyTree(rev, taken))
    ensures var body := OpenSweep(TreeBytes(BodyTree(rev, taken)));
            && body.Success? && body.value.rev == rev && body.value.left == |taken|
            && ShapedItems(RawItems(taken)) && Due(body.value.entries, body.value.at, ItemCalls(RawItems(taken)) + [])
  {
    hide Due, ReadAs, ReadNumber, SkipItem, BodyField, BodyFields, Finished, OpenSweep, TreeBytes, TreeCalls,
         ItemCalls, RawItems,
      BodyTree, SealedTree, ArrayBytes, ShapedItems, CborTrees.Sound;
    SealedSame(rev, taken);
    ListSound(taken);
    RawItemsSound(taken);
    var list := ArrayBytes(taken);
    var b := TreeBytes(SealedTree(rev, list));
    TreeReads(SealedTree(rev, list));
    Regrouped(rev, list);
    var s := MapDue(b, START, 2, [PutKey(1)] + ([PutU64(rev)] + ([PutKey(2)] + ([PutRaw(list)] + []))));
    var keyed := KeyDue(b, s, 1, [PutU64(rev)] + ([PutKey(2)] + ([PutRaw(list)] + [])));
    var first := NumberDue(b, keyed, rev, 0xFFFF_FFFF, [PutKey(2)] + ([PutRaw(list)] + []));
    RevField(b, keyed, rev, first);
    var keyed2 := KeyDue(b, first, 2, [PutRaw(list)] + []);
    var last := RawDue(b, keyed2, list, []);
    EntriesField(b, keyed2, rev, list, last);
    BodyRead(b, s, rev, keyed, first, keyed2, list, last);
    DueWithinRest(b, last, []);
    TreeReads(List(RawItems(taken)));
    ArrayIs(taken);
    ListCalled(taken);
    var inside := ArrayDue(list, START, |taken|, ItemCalls(RawItems(taken)) + []);
    OpensAt(b, s, rev, list, last, |taken|, inside);
  }

  lemma ArrayIs(taken: seq<Change>)
    requires |taken| <= USIZE_MAX && CborTrees.Sound(List(RawItems(taken)))
    ensures ArrayBytes(taken) == TreeBytes(List(RawItems(taken)))
  {}

  lemma Regrouped(rev: u32, list: Slice)
    ensures [PutMap(2)] + ([PutKey(1)] + [PutU64(rev)] + ([PutKey(2)] + [PutRaw(list)] + [])) ==
            [PutMap(2)] + ([PutKey(1)] + ([PutU64(rev)] + ([PutKey(2)] + ([PutRaw(list)] + []))))
  {
    assert [PutKey(2)] + [PutRaw(list)] + [] == [PutKey(2)] + ([PutRaw(list)] + []);
    var rest := [PutKey(2)] + ([PutRaw(list)] + []);
    assert [PutKey(1)] + [PutU64(rev)] + rest == [PutKey(1)] + ([PutU64(rev)] + rest);
  }

  lemma OpensAt(b: seq<byte>, s: ReaderState, rev: u32, list: seq<byte>, last: ReaderState, left: nat,
                inside: ReaderState)
    requires Within(b, START) && ReadAs(b, START, AsMap) == Success((2, s)) && left > 0
    requires BodyFields(b, s, 2, BodySlots(None, None)) == Success((BodySlots(Some(rev), Some(list)), last))
    requires Within(b, last) && Finished(b, last) == Success(())
    requires Within(list, START) && ReadAs(list, START, AsArray) == Success((left, inside))
    ensures OpenSweep(b) == Success(Opened(rev, list, inside, left))
  {
    hide ReadAs, BodyFields, Finished;
  }

  lemma {:induction false} RawItemsBytes(taken: seq<Change>)
    requires ShapedItems(RawItems(taken))
    ensures |ItemsBytes(RawItems(taken))| <= 11 * |taken|
  {
    hide EntryBytes;
    if taken != [] { RawItemsBytes(taken[1..]); }
  }

  lemma ArrayFits(kind: Kind, taken: seq<Change>)
    requires |taken| <= Rows(kind)
    ensures |taken| <= USIZE_MAX && |ArrayBytes(taken)| <= USIZE_MAX
  {
    ListSound(taken);
    RawItemsSound(taken);
    RawItemsBytes(taken);
    ArrayIs(taken);
    hide EntryBytes, RawItems;
  }

  /**
   A sweep that holds something encodes wherever it fits, and the bytes carry its
   revision and exactly what it took, in order.
   */
  lemma SweepReadsBack(kind: Kind, rev: u32, taken: seq<Change>, capacity: nat)
    requires Holding(kind, taken) && taken != []
    ensures CborTrees.Sound(BodyTree(rev, taken))
    ensures var body := EncodeSweep(rev, taken, capacity);
            && (body.Success? <==> TreeSize(BodyTree(rev, taken)) <= capacity)
            && (body.Success? ==>
                  var read := OpenSweep(body.value);
                  && read.Success? && read.value.rev == rev
                  && Yields(kind, read.value.entries, read.value.at, read.value.left) == All(taken))
  {
    hide Packed, OfKind, BodyTree, TreeCalls, TreeSize, WriteThrough, OpenSweep, Yields, TreeBytes, ArrayBytes,
         CborTrees.Sound, ItemCalls, RawItems, Due;
    ArrayFits(kind, taken);
    SealedSame(rev, taken);
    BodyOpens(rev, taken);
    var t := BodyTree(rev, taken);
    TreeRoundTrip(t, capacity);
    TreeOut(t, capacity);
    if WriteThrough(EMPTY, capacity, TreeCalls(t)).Success? {
      var read := OpenSweep(TreeBytes(t)).value;
      ArrayYields(kind, read.entries, read.at, taken);
    }
  }

  lemma TreeOut(t: Tree, capacity: nat)
    requires CborTrees.Sound(t)
    ensures var written := WriteThrough(EMPTY, capacity, TreeCalls(t));
            written.Success? ==> written.value.out == TreeBytes(t)
  {
    hide *;
    TreeShaped(t);
    if WriteThrough(EMPTY, capacity, TreeCalls(t)).Success? {
      ThroughAccepts(EMPTY, capacity, TreeCalls(t));
      NothingWrittenYet(capacity);
      OnlyAcceptedCallsWrite(EMPTY, capacity, TreeCalls(t));
      TreeEmits(t);
      assert [] + Emitted(TreeCalls(t)) == Emitted(TreeCalls(t));
    }
  }

  /**
   Over any run of offers, walking the sweep before it is encoded and reading the
   bytes it encodes to both give exactly the changes answered `true`, in order.
   */
  lemma SaidAsTaken(kind: Kind, rev: u32, offers: seq<Change>, capacity: nat)
    requires forall c :: c in offers ==> OfKind(kind, c)
    ensures var taken, kept := PushAll(kind, [], offers), Kept(kind, [], offers);
            && Yields(kind, Packed(taken), START, |taken|) == All(kept)
            && CborTrees.Sound(BodyTree(rev, taken))
            && var body := EncodeSweep(rev, taken, capacity);
               && (kept == [] ==> body == Failure(NothingChanged))
               && (body.Success? ==>
                     var read := OpenSweep(body.value);
                     && read.Success? && read.value.rev == rev
                     && Yields(kind, read.value.entries, read.value.at, read.value.left) == All(kept))
  {
    hide Packed, OfKind, BodyTree, OpenSweep, Yields, CborTrees.Sound, Push, All, PushAll, Kept, TreeCalls,
         WriteThrough;
    NothingHeld(kind);
    TakenIsKept(kind, [], offers);
    var taken := PushAll(kind, [], offers);
    assert [] + Kept(kind, [], offers) == Kept(kind, [], offers);
    EntriesAreTaken(kind, taken);
    if taken == [] {
      EmptySound(rev);
    } else {
      SweepReadsBack(kind, rev, taken, capacity);
    }
  }

  lemma NothingHeld(kind: Kind)
    ensures Holding(kind, [])
  {}

  lemma EmptySound(rev: u32)
    ensures CborTrees.Sound(BodyTree(rev, []))
  {
    ListSound([]);
    TwoPairsSound(rev, List(RawItems([])));
  }
}
