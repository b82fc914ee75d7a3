/** The grammar derives every sound tree from its own bytes, wherever they stand, at its own height. */
module CborTreeItems {
  import opened Bytes
  import opened Wrappers
  import opened Limits
  import opened CborHeads
  import opened CborGrammar
  import opened CborReaders
  import opened CborWriters
  import opened CborRoundTrip
  import opened CborTrees

  function TreeBytes(t: Tree): (bytes: seq<byte>)
    requires Shaped(t)
    ensures |bytes| > 0
  {
    match t
    case Leaf(call) => LeafEmits(t); Emission(call)
    case List(items) => HeadBytes(ArrayOf, ItemCount(items)) + ItemsBytes(items)
    case Dict(pairs) => HeadBytes(MapOf, PairCount(pairs)) + PairsBytes(pairs)
  }

  function ItemsBytes(items: Items): (bytes: seq<byte>)
    requires ShapedItems(items)
    ensures |bytes| >= ItemCount(items)
  {
    if items.NoItem? then [] else TreeBytes(items.head) + ItemsBytes(items.more)
  }

  function PairsBytes(pairs: KeyedItems): (bytes: seq<byte>)
    requires ShapedPairs(pairs)
    ensures |bytes| >= 2 * PairCount(pairs)
  {
    if pairs.NoPair? then [] else HeadBytes(UnsignedInt, pairs.key) + TreeBytes(pairs.value) + PairsBytes(pairs.others)
  }

  // ---------------------------------------------------------------------------
  // They are the bytes the calls emit.

  predicate Keyed(calls: seq<Call>) { forall c :: c in calls && c.PutKey? ==> c.key >= 0 }

  lemma {:induction false} EmittedBoth(a: seq<Call>, b: seq<Call>)
    requires Keyed(a) && Keyed(b)
    ensures Keyed(a + b) && Emitted(a + b) == Emitted(a) + Emitted(b)
  {
    hide Emission;
    if a == [] {
      assert a + b == b;
    } else {
      EmittedBoth(a[1..], b);
      assert (a + b)[1..] == a[1..] + b;
      assert Emission(a[0]) + (Emitted(a[1..]) + Emitted(b)) == Emission(a[0]) + Emitted(a[1..]) + Emitted(b);
    }
  }

  lemma EmittedOne(call: Call)
    requires call.PutKey? ==> call.key >= 0
    ensures Keyed([call]) && Emitted([call]) == Emission(call)
  {
    hide Emission;
    assert [call][1..] == [];
    assert Emission(call) + [] == Emission(call);
  }

  lemma HeadEmissions(n: usize, key: nat)
    requires key <= I64_MAX
    ensures Emission(PutArray(n)) == HeadBytes(ArrayOf, n) && Emission(PutMap(n)) == HeadBytes(MapOf, n)
    ensures Emission(PutKey(key)) == HeadBytes(UnsignedInt, key)
  {
    hide HeadBytes;
  }

  lemma {:induction false} TreeEmits(t: Tree)
    requires Shaped(t)
    ensures Keyed(TreeCalls(t)) && Emitted(TreeCalls(t)) == TreeBytes(t) && |TreeBytes(t)| == TreeSize(t)
    decreases t
  {
    hide Emission, Emitted, Keyed, HeadBytes, Item;
    match t
    case Leaf(call) => EmittedOne(call);
    case List(items) =>
      HeadEmissions(ItemCount(items), 0);
      EmittedOne(PutArray(ItemCount(items)));
      ItemsEmit(items);
      EmittedBoth([PutArray(ItemCount(items))], ItemCalls(items));
    case Dict(pairs) =>
      HeadEmissions(PairCount(pairs), 0);
      EmittedOne(PutMap(PairCount(pairs)));
      PairsEmit(pairs);
      EmittedBoth([PutMap(PairCount(pairs))], PairCalls(pairs));
  }

  lemma {:induction false} ItemsEmit(items: Items)
    requires ShapedItems(items)
    ensures Keyed(ItemCalls(items)) && Emitted(ItemCalls(items)) == ItemsBytes(items)
            && |ItemsBytes(items)| == ItemsSize(items)
    decreases items
  {
    if items.AnItem? {
      hide Keyed, Emitted, TreeCalls, TreeBytes, TreeSize;
      TreeEmits(items.head);
      ItemsEmit(items.more);
      EmittedBoth(TreeCalls(items.head), ItemCalls(items.more));
    }
  }

  lemma {:induction false} PairsEmit(pairs: KeyedItems)
    requires ShapedPairs(pairs)
    ensures Keyed(PairCalls(pairs)) && Emitted(PairCalls(pairs)) == PairsBytes(pairs)
            && |PairsBytes(pairs)| == PairsSize(pairs)
    decreases pairs
  {
    if pairs.APair? {
      hide Keyed, Emitted, Emission, TreeCalls, TreeBytes, TreeSize, HeadBytes;
      HeadEmissions(0, pairs.key);
      EmittedOne(PutKey(pairs.key));
      TreeEmits(pairs.value);
      PairsEmit(pairs.others);
      EmittedBoth([PutKey(pairs.key)], TreeCalls(pairs.value));
      EmittedBoth([PutKey(pairs.key)] + TreeCalls(pairs.value), PairCalls(pairs.others));
    }
  }

  // ---------------------------------------------------------------------------
  // They are one item, at the tree's height.

  /** `part` stands in `b` at `at`. */
  predicate Stands(part: seq<byte>, b: seq<byte>, at: nat) { SameBytes(part, 0, |part|, b, at) }

  lemma StandsBoth(first: seq<byte>, second: seq<byte>, b: seq<byte>, at: nat)
    requires Stands(first + second, b, at)
    ensures Stands(first, b, at) && Stands(second, b, at + |first|) && at + |first| + |second| <= |b|
  {
    forall i | 0 <= i < |first| ensures first[i] == b[at + i] {
      assert first[i] == (first + second)[i];
    }
    forall i | 0 <= i < |second| ensures second[i] == b[at + |first| + i] {
      assert second[i] == (first + second)[|first| + i];
    }
  }

  lemma ItemsSplit(items: Items)
    requires ShapedItems(items) && OrderedItems(items) && items.AnItem?
    ensures Shaped(items.head) && Ordered(items.head) && ShapedItems(items.more) && OrderedItems(items.more)
    ensures ItemsHeight(items) == Max(Height(items.head), ItemsHeight(items.more))
    ensures ItemCount(items) == ItemCount(items.more) + 1
    ensures ItemsBytes(items) == TreeBytes(items.head) + ItemsBytes(items.more)
  {
    hide TreeBytes, Height;
  }

  lemma PairsBytesSplit(pairs: KeyedItems)
    requires ShapedPairs(pairs) && pairs.APair?
    ensures Shaped(pairs.value) && ShapedPairs(pairs.others) && pairs.key < 0x1_0000_0000_0000_0000
    ensures PairsHeight(pairs) == Max(Height(pairs.value), PairsHeight(pairs.others))
    ensures PairsBytes(pairs) == HeadBytes(UnsignedInt, pairs.key) + TreeBytes(pairs.value) + PairsBytes(pairs.others)
  {
    hide TreeBytes, Height, HeadBytes;
  }

  /** One more item in front of what a container owes. */
  lemma OwedOne(b: seq<byte>, at: nat, kind: Nesting, owed: nat, seen: set<KeyRank>, room: nat, item: Walked,
                rest: Walked)
    requires at <= |b| && owed > 0 && !ExpectsKey(kind, owed)
    requires Item(b, at, room, true) == Success(item) && item.end <= |b|
    requires Owed(b, item.end, kind, owed - 1, seen, room, true) == Success(rest)
    ensures Owed(b, at, kind, owed, seen, room, true) == Success(Walked(rest.end, Max(item.height, rest.height)))
  {
    hide Owed, Item;
    OwedItemStep(b, at, kind, owed, seen, room, true);
  }

  /** A key not seen, and its value, in front of what a map owes. */
  lemma OwedPair(b: seq<byte>, at: nat, owed: nat, key: u64, keyed: nat, seen: set<KeyRank>, room: nat, item: Walked,
                 rest: Walked)
    requires at <= keyed <= |b| && owed > 0 && owed % 2 == 0 && KeyRank(false, key) !in seen
    requires DecodeHead(b, at) == Success((Unsigned(key), keyed))
    requires Item(b, keyed, room, true) == Success(item) && item.end <= |b|
    requires Owed(b, item.end, InMap, owed - 2, seen + {KeyRank(false, key)}, room, true) == Success(rest)
    ensures Owed(b, at, InMap, owed, seen, room, true) == Success(Walked(rest.end, Max(item.height, rest.height)))
  {
    hide Owed, Item, DecodeHead;
    OwedOne(b, keyed, InMap, owed - 1, seen + {KeyRank(false, key)}, room, item, rest);
    OwedKeyStep(b, at, owed, seen, room, true);
  }

  /** A container's head, and everything it owes. */
  lemma ContainerItem(b: seq<byte>, at: nat, head: Head, end: nat, room: nat, inside: Walked)
    requires at <= |b| && DecodeHead(b, at) == Success((head, end)) && Owes(head).Some? && room > 0
    requires Owed(b, end, Owes(head).value.0, Owes(head).value.1, {}, room - 1, true) == Success(inside)
    ensures Item(b, at, room, true) == Success(Walked(inside.end, 1 + inside.height))
  {
    hide Owed, DecodeHead;
  }

  lemma HeadAt(head: Head, bytes: seq<byte>, b: seq<byte>, at: nat)
    requires Writable(head) && bytes == EncodeHead(head) && Stands(bytes, b, at)
    requires Owes(head).Some? ==> at + |bytes| + Owes(head).value.1 <= |b|
    ensures at + |bytes| <= |b| && DecodeHead(b, at) == Success((head, at + |bytes|))
  {
    hide DecodeHead, EncodeHead;
    HeadReadsBack(b, at, head);
  }

  lemma ContainerHeads(n: usize, key: nat)
    requires key <= I64_MAX
    ensures EncodeHead(Array(n)) == HeadBytes(ArrayOf, n) && EncodeHead(Map(n)) == HeadBytes(MapOf, n)
    ensures EncodeHead(Unsigned(key)) == HeadBytes(UnsignedInt, key)
  {
    hide HeadBytes;
  }

  lemma LeafItem(call: Call, b: seq<byte>, at: nat, room: nat)
    requires LeafCall(call) && Height(Leaf(call)) <= room && Stands(Emission(call), b, at)
    ensures at <= |b| && Item(b, at, room, true) == Success(Walked(at + |Emission(call)|, Height(Leaf(call))))
  {
    hide DecodeHead, EncodeHead, Owed, SameBytes;
    if call.PutRaw? {
      hide Item;
      ItemElsewhere(call.item, room, b, at);
    } else {
      HeadAt(HeadOf(call), Emission(call), b, at);
    }
  }

  lemma StandsWithin(part: seq<byte>, b: seq<byte>, at: nat)
    requires Stands(part, b, at)
    ensures at + |part| <= |b|
  {}

  /** Wherever a sound tree's bytes stand, the grammar reads one item there, as high as the tree. */
  lemma {:induction false} TreeItem(t: Tree, b: seq<byte>, at: nat, room: nat)
    requires Shaped(t) && Ordered(t) && Height(t) <= room && Stands(TreeBytes(t), b, at)
    ensures at <= |b| && Item(b, at, room, true) == Success(Walked(at + |TreeBytes(t)|, Height(t)))
    decreases t
  {
    hide DecodeHead, HeadBytes, EncodeHead, Stands, Owed, Item, ItemsBytes, PairsBytes, Emission, ItemsHeight,
         PairsHeight;
    match t
    case Leaf(call) =>
      LeafItem(call, b, at, room);
    case List(items) =>
      var head, bytes := Array(ItemCount(items)), HeadBytes(ArrayOf, ItemCount(items));
      ContainerHeads(ItemCount(items), 0);
      StandsBoth(bytes, ItemsBytes(items), b, at);
      HeadAt(head, bytes, b, at);
      ItemsOwed(items, b, at + |bytes|, room - 1);
      ContainerItem(b, at, head, at + |bytes|, room, Walked(at + |bytes| + |ItemsBytes(items)|, ItemsHeight(items)));
    case Dict(pairs) =>
      var head, bytes := Map(PairCount(pairs)), HeadBytes(MapOf, PairCount(pairs));
      ContainerHeads(PairCount(pairs), 0);
      StandsBoth(bytes, PairsBytes(pairs), b, at);
      HeadAt(head, bytes, b, at);
      PairsOwed(pairs, -1, b, at + |bytes|, room - 1, {});
      ContainerItem(b, at, head, at + |bytes|, room, Walked(at + |bytes| + |PairsBytes(pairs)|, PairsHeight(pairs)));
  }

  lemma {:induction false} ItemsOwed(items: Items, b: seq<byte>, at: nat, room: nat)
    requires ShapedItems(items) && OrderedItems(items) && ItemsHeight(items) <= room && Stands(ItemsBytes(items), b, at)
    ensures at <= |b|
    ensures Owed(b, at, InArray, ItemCount(items), {}, room, true)
            == Success(Walked(at + |ItemsBytes(items)|, ItemsHeight(items)))
    decreases items
  {
    hide *;
    StandsWithin(ItemsBytes(items), b, at);
    if items.NoItem? {
      NothingOwedAt(b, at, room, {});
    } else {
      ItemsSplit(items);
      HighestOf(Height(items.head), ItemsHeight(items.more));
      var end := at + |TreeBytes(items.head)|;
      StandsBoth(TreeBytes(items.head), ItemsBytes(items.more), b, at);
      TreeItem(items.head, b, at, room);
      ItemsOwed(items.more, b, end, room);
      ArrayNeverAtKey(ItemCount(items));
      OwedOne(b, at, InArray, ItemCount(items), {}, room, Walked(end, Height(items.head)),
              Walked(end + |ItemsBytes(items.more)|, ItemsHeight(items.more)));
    }
  }

  lemma NothingOwedAt(b: seq<byte>, at: nat, room: nat, seen: set<KeyRank>)
    requires at <= |b|
    ensures Owed(b, at, InArray, ItemCount(NoItem), {}, room, true)
            == Success(Walked(at + |ItemsBytes(NoItem)|, ItemsHeight(NoItem)))
    ensures Owed(b, at, InMap, 2 * PairCount(NoPair), seen, room, true)
            == Success(Walked(at + |PairsBytes(NoPair)|, PairsHeight(NoPair)))
  {}

  lemma HighestOf(a: nat, b: nat)
    ensures Max(a, b) >= a && Max(a, b) >= b
  {}

  lemma ArrayNeverAtKey(owed: nat)
    ensures !ExpectsKey(InArray, owed)
  {}

  predicate AllUpTo(seen: set<KeyRank>, last: int) { forall key :: key in seen ==> !key.negative && key.arg <= last }

  lemma OneMoreKey(seen: set<KeyRank>, last: int, key: u64)
    requires AllUpTo(seen, last) && last < key
    ensures KeyRank(false, key) !in seen && AllUpTo(seen + {KeyRank(false, key)}, key)
  {}

  lemma {:induction false} PairsOwed(pairs: KeyedItems, last: int, b: seq<byte>, at: nat, room: nat, seen: set<KeyRank>)
    requires ShapedPairs(pairs) && OrderedPairs(pairs, last) && PairsHeight(pairs) <= room
             && Stands(PairsBytes(pairs), b, at)
    requires AllUpTo(seen, last)
    ensures at <= |b|
    ensures Owed(b, at, InMap, 2 * PairCount(pairs), seen, room, true)
            == Success(Walked(at + |PairsBytes(pairs)|, PairsHeight(pairs)))
    decreases pairs
  {
    hide *;
    StandsWithin(PairsBytes(pairs), b, at);
    if pairs.NoPair? {
      NothingOwedAt(b, at, room, seen);
    } else {
      PairsSplit(pairs, last);
      PairsBytesSplit(pairs);
      HighestOf(Height(pairs.value), PairsHeight(pairs.others));
      var key, value := HeadBytes(UnsignedInt, pairs.key), TreeBytes(pairs.value);
      var keyed, end := at + |key|, at + |key| + |value|;
      StandsBoth(key + value, PairsBytes(pairs.others), b, at);
      StandsBoth(key, value, b, at);
      KeyAt(pairs.key, b, at);
      OneMoreKey(seen, last, pairs.key);
      TreeItem(pairs.value, b, keyed, room);
      PairsOwed(pairs.others, pairs.key, b, end, room, seen + {KeyRank(false, pairs.key)});
      OwedPair(b, at, 2 * PairCount(pairs), pairs.key, keyed, seen, room, Walked(end, Height(pairs.value)),
               Walked(end + |PairsBytes(pairs.others)|, PairsHeight(pairs.others)));
    }
  }

  lemma KeyAt(key: nat, b: seq<byte>, at: nat)
    requires key <= I64_MAX && Stands(HeadBytes(UnsignedInt, key), b, at)
    ensures at + |HeadBytes(UnsignedInt, key)| <= |b|
    ensures DecodeHead(b, at) == Success((Unsigned(key), at + |HeadBytes(UnsignedInt, key)|))
  {
    hide DecodeHead, HeadBytes, Stands;
    ContainerHeads(0, key);
    HeadAt(Unsigned(key), HeadBytes(UnsignedInt, key), b, at);
  }

  /** A tree's bytes are exactly one item, as high as the tree. */
  lemma TreeIsItem(t: Tree)
    requires CborTrees.Sound(t)
    ensures WholeItem(TreeBytes(t)) && ItemHeight(TreeBytes(t)) == Height(t)
  {
    hide Item, TreeBytes;
    TreeItem(t, TreeBytes(t), 0, MAX_DEPTH);
  }

  /** Read from the start, a tree's bytes give back every call that writes it. */
  lemma TreeReads(t: Tree)
    requires CborTrees.Sound(t)
    ensures Due(TreeBytes(t), START, TreeCalls(t))
  {
    hide *;
    TreeShaped(t);
    var calls, size := TreeCalls(t), TreeSize(t);
    TreeRoundTrip(t, size);
    ThroughAccepts(EMPTY, size, calls);
    NothingWrittenYet(size);
    OnlyAcceptedCallsWrite(EMPTY, size, calls);
    TreeEmits(t);
    assert [] + Emitted(calls) == Emitted(calls);
    DueFrom(TreeBytes(t), calls);
  }

  lemma TreeShaped(t: Tree)
    requires CborTrees.Sound(t)
    ensures Shaped(t)
  {}

  lemma NothingWrittenYet(capacity: nat)
    ensures EMPTY.out == [] && |EMPTY.out| <= capacity
  {}

  lemma DueFrom(b: seq<byte>, calls: seq<Call>)
    requires Within(b, START) ==> ReadsBack(b, START, calls)
    ensures Due(b, START, calls)
  {
    hide ReadsBack;
  }
}
