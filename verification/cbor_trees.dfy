/**
 Messages as trees: any tree with counted lists, ascending keys and depth to spare
 is accepted by the writer in exactly its own size, and read back.
 */
module CborTrees {
  import opened Bytes
  import opened Wrappers
  import opened Limits
  import opened CborHeads
  import opened CborGrammar
  import opened CborWalk
  import opened CborPairs
  import opened CborReaders
  import opened CborWriters
  import opened CborRoundTrip

  datatype Tree = Leaf(call: Call) | List(items: Items) | Dict(pairs: KeyedItems)

  datatype Items = NoItem | AnItem(head: Tree, more: Items)

  datatype KeyedItems = NoPair | APair(key: nat, value: Tree, others: KeyedItems)

  function ItemCount(items: Items): nat { if items.NoItem? then 0 else 1 + ItemCount(items.more) }

  function PairCount(pairs: KeyedItems): nat { if pairs.NoPair? then 0 else 1 + PairCount(pairs.others) }

  /** Exactly one item, well formed as it stands. */
  predicate WholeItem(item: seq<byte>) {
    var w := Item(item, 0, MAX_DEPTH, true);
    w.Success? && w.value.end == |item|
  }

  function ItemHeight(item: seq<byte>): (height: nat)
    ensures height <= MAX_DEPTH
  {
    var w := Item(item, 0, MAX_DEPTH, true);
    if w.Success? then w.value.height else 0
  }

  predicate LeafCall(call: Call) {
    || call.PutU64? || call.PutI32? || call.PutBool? || call.PutBytes? || call.PutZeros?
    || (call.PutText? && |call.text| <= MAX_STRING)
    || (call.PutRaw? && WholeItem(call.item))
  }

  /** Scalars and items already encoded at the leaves, counts that fit a length, keys that fit a key. */
  predicate Shaped(t: Tree) {
    match t
    case Leaf(call) => LeafCall(call)
    case List(items) => ItemCount(items) <= USIZE_MAX && ShapedItems(items)
    case Dict(pairs) => 2 * PairCount(pairs) <= USIZE_MAX && ShapedPairs(pairs)
  }

  predicate ShapedItems(items: Items) { items.AnItem? ==> Shaped(items.head) && ShapedItems(items.more) }

  predicate ShapedPairs(pairs: KeyedItems) {
    pairs.APair? ==> pairs.key <= I64_MAX && Shaped(pairs.value) && ShapedPairs(pairs.others)
  }

  /** Every map's keys ascend. */
  predicate Ordered(t: Tree) {
    match t
    case Leaf(_) => true
    case List(items) => OrderedItems(items)
    case Dict(pairs) => OrderedPairs(pairs, -1)
  }

  predicate OrderedItems(items: Items) { items.AnItem? ==> Ordered(items.head) && OrderedItems(items.more) }

  predicate OrderedPairs(pairs: KeyedItems, last: int) {
    pairs.APair? ==> last < pairs.key && Ordered(pairs.value) && OrderedPairs(pairs.others, pairs.key)
  }

  function Height(t: Tree): nat {
    match t
    case Leaf(call) => if call.PutRaw? then ItemHeight(call.item) else 0
    case List(items) => 1 + ItemsHeight(items)
    case Dict(pairs) => 1 + PairsHeight(pairs)
  }

  function ItemsHeight(items: Items): nat {
    if items.NoItem? then 0 else Max(Height(items.head), ItemsHeight(items.more))
  }

  function PairsHeight(pairs: KeyedItems): nat {
    if pairs.NoPair? then 0 else Max(Height(pairs.value), PairsHeight(pairs.others))
  }

  /** What the writer takes: a shaped tree, its keys ascending, no deeper than a message may nest. */
  predicate Sound(t: Tree) { Shaped(t) && Ordered(t) && Height(t) <= MAX_DEPTH }

  /** The calls that write a tree. */
  function TreeCalls(t: Tree): seq<Call>
    requires Shaped(t)
  {
    match t
    case Leaf(call) => [call]
    case List(items) => [PutArray(ItemCount(items))] + ItemCalls(items)
    case Dict(pairs) => [PutMap(PairCount(pairs))] + PairCalls(pairs)
  }

  function ItemCalls(items: Items): seq<Call>
    requires ShapedItems(items)
  {
    if items.NoItem? then [] else TreeCalls(items.head) + ItemCalls(items.more)
  }

  function PairCalls(pairs: KeyedItems): seq<Call>
    requires ShapedPairs(pairs)
  {
    if pairs.NoPair? then []
    else [PutKey(pairs.key)] + TreeCalls(pairs.value) + PairCalls(pairs.others)
  }

  /** The bytes a tree takes: each head in its shortest form. */
  function TreeSize(t: Tree): nat
    requires Shaped(t)
  {
    match t
    case Leaf(call) => |Emission(call)|
    case List(items) => 1 + Width(ItemCount(items)) + ItemsSize(items)
    case Dict(pairs) => 1 + Width(PairCount(pairs)) + PairsSize(pairs)
  }

  function ItemsSize(items: Items): nat
    requires ShapedItems(items)
  {
    if items.NoItem? then 0 else TreeSize(items.head) + ItemsSize(items.more)
  }

  function PairsSize(pairs: KeyedItems): nat
    requires ShapedPairs(pairs)
  {
    if pairs.NoPair? then 0
    else 1 + Width(pairs.key) + TreeSize(pairs.value) + PairsSize(pairs.others)
  }

  /** What one more pair adds. */
  lemma PairSize(key: nat, value: Tree, others: KeyedItems)
    requires ShapedPairs(others) && Shaped(value) && key < 24
    ensures ShapedPairs(APair(key, value, others)) && PairCount(APair(key, value, others)) == PairCount(others) + 1
    ensures PairsSize(APair(key, value, others)) == 1 + TreeSize(value) + PairsSize(others)
    ensures PairsHeight(APair(key, value, others)) == Max(Height(value), PairsHeight(others))
    ensures forall last: int :: last < key && Ordered(value) && OrderedPairs(others, key) ==>
              OrderedPairs(APair(key, value, others), last)
  {}

  lemma NothingSize()
    ensures ShapedPairs(NoPair) && PairsSize(NoPair) == 0 && PairCount(NoPair) == 0 && PairsHeight(NoPair) == 0
    ensures forall last: int :: OrderedPairs(NoPair, last)
  {}

  // ---------------------------------------------------------------------------
  // Writing with `?`: the first refusal ends it.

  function WriteThrough(s: WriterState, capacity: nat, calls: seq<Call>): Result<WriterState, CborError>
    decreases |calls|
  {
    if calls == [] then Success(s)
    else
      match Write(s, capacity, calls[0])
      case (Failure(why), _) => Failure(why)
      case (Success(_), after) => WriteThrough(after, capacity, calls[1..])
  }

  lemma {:induction false} ThroughBoth(s: WriterState, capacity: nat, first: seq<Call>, second: seq<Call>)
    ensures WriteThrough(s, capacity, first + second) ==
            match WriteThrough(s, capacity, first) {
              case Failure(why) => Failure(why)
              case Success(after) => WriteThrough(after, capacity, second)
            }
    decreases |first|
  {
    hide Write;
    if first == [] {
      assert first + second == second;
    } else {
      assert (first + second)[1..] == first[1..] + second;
      if Write(s, capacity, first[0]).0.Success? {
        ThroughBoth(Write(s, capacity, first[0]).1, capacity, first[1..], second);
      }
    }
  }

  /** A run that is never refused is every call accepted. */
  lemma {:induction false} ThroughAccepts(s: WriterState, capacity: nat, calls: seq<Call>)
    requires WriteThrough(s, capacity, calls).Success?
    ensures WriteAll(s, capacity, calls) == WriteThrough(s, capacity, calls).value
    ensures Accepted(s, capacity, calls) == calls
    decreases |calls|
  {
    hide Write;
    if calls != [] {
      ThroughAccepts(Write(s, capacity, calls[0]).1, capacity, calls[1..]);
      assert calls == [calls[0]] + calls[1..];
    }
  }

  // ---------------------------------------------------------------------------
  // The writer accepts every sound tree.

  /** A value may be written here, `room` containers deep. */
  predicate AtValue(s: WriterState, room: nat) {
    var opens := SettleOpens(s.opens);
    !AtKeyOpens(opens) && (opens == [] ==> s.out == []) && |opens| + room <= MAX_DEPTH
  }

  /** Where the stack stands once one item is counted, finished containers aside. */
  function Onward(opens: seq<Open>): seq<Open> { SettleOpens(CountedOpens(SettleOpens(opens))) }

  predicate Wrote(s: WriterState, capacity: nat, calls: seq<Call>, size: nat, opens: seq<Open>) {
    var after := WriteThrough(s, capacity, calls);
    after.Success? && |after.value.out| == |s.out| + size && SettleOpens(after.value.opens) == opens
    && (size > 0 ==> after.value.out != [])
  }

  lemma LeafWrites(s: WriterState, capacity: nat, call: Call, room: nat)
    requires AtValue(s, room) && LeafCall(call) && Height(Leaf(call)) <= room && |s.out| + |Emission(call)| <= capacity
    ensures Wrote(s, capacity, [call], |Emission(call)|, Onward(s.opens))
  {
    hide Emission, SettleOpens, Item;
    var after := Write(s, capacity, call).1;
    assert [call][1..] == [];
    assert WriteThrough(after, capacity, []) == Success(after);
  }

  /** Opening a container leaves it on top, owing everything. */
  lemma ContainerOpens(s: WriterState, capacity: nat, call: Call, room: nat)
    requires call.PutArray? || (call.PutMap? && 2 * call.pairs <= USIZE_MAX)
    requires AtValue(s, room) && room > 0 && |s.out| + |Emission(call)| <= capacity
    ensures var (answer, after) := Write(s, capacity, call);
            && answer.Success? && after.out == s.out + Emission(call)
            && after.opens == CountedOpens(SettleOpens(s.opens)) +
                              [if call.PutArray? then Open(InArray, call.len, None, 0)
                               else Open(InMap, 2 * call.pairs, None, 0)]
  {
    hide Emission, SettleOpens;
  }

  lemma KeyWrites(s: WriterState, capacity: nat, key: nat, base: seq<Open>, owed: nat, last: Option<KeyRank>)
    requires s.opens == base + [Open(InMap, owed, last, 0)]
             || SettleOpens(s.opens) == base + [Open(InMap, owed, last, 0)]
    requires owed > 0 && owed % 2 == 0 && key <= I64_MAX
    requires last.Some? ==> last.value.negative == false && last.value.arg < key
    requires |s.out| + 1 + Width(key) <= capacity
    ensures var (answer, after) := Write(s, capacity, PutKey(key));
            && answer.Success? && |after.out| == |s.out| + 1 + Width(key)
            && after.opens == base + [Open(InMap, owed - 1, Some(KeyRank(false, key)), 0)]
  {
    var top := Open(InMap, owed, last, 0);
    assert Last(base + [top]) == top && Front(base + [top]) == base;
    assert SettleOpens(s.opens) == base + [top];
    var taken := top.(lastKey := Some(KeyRank(false, key)));
    assert Last(base + [taken]) == taken && Front(base + [taken]) == base;
  }

  lemma TopOwes(base: seq<Open>, top: Open)
    ensures Last(base + [top]) == top && Front(base + [top]) == base
    ensures top.remaining > 0 ==> SettleOpens(base + [top]) == base + [top]
    ensures top.remaining == 0 ==> SettleOpens(base + [top]) == SettleOpens(base)
    ensures top.remaining > 0 ==> CountedOpens(base + [top]) == base + [top.(remaining := top.remaining - 1)]
  {
    assert Last(base + [top]) == top && Front(base + [top]) == base;
  }

  lemma WroteBoth(s: WriterState, capacity: nat, first: seq<Call>, size: nat, opens: seq<Open>,
                  second: seq<Call>, more: nat, end: seq<Open>)
    requires Wrote(s, capacity, first, size, opens)
    requires Wrote(WriteThrough(s, capacity, first).value, capacity, second, more, end)
    ensures Wrote(s, capacity, first + second, size + more, end)
  {
    hide SettleOpens;
    ThroughBoth(s, capacity, first, second);
  }

  lemma WroteOne(s: WriterState, capacity: nat, call: Call)
    requires Write(s, capacity, call).0.Success?
    ensures WriteThrough(s, capacity, [call]) == Success(Write(s, capacity, call).1)
  {
    hide Write;
    assert [call][1..] == [];
  }

  lemma NothingWritten(s: WriterState, capacity: nat)
    ensures WriteThrough(s, capacity, []) == Success(s)
  {}

  /** A sound tree where a value may be written is written whole, in its own size, and leaves the stack one item on. */
  lemma {:induction false} TreeWrites(s: WriterState, capacity: nat, t: Tree, room: nat)
    requires Shaped(t) && Ordered(t) && Height(t) <= room && AtValue(s, room) && |s.out| + TreeSize(t) <= capacity
    ensures Wrote(s, capacity, TreeCalls(t), TreeSize(t), Onward(s.opens))
    decreases t
  {
    hide Write, Emission, SettleOpens, WriteThrough;
    match t
    case Leaf(call) => LeafWrites(s, capacity, call, room);
    case List(items) =>
      var call := PutArray(ItemCount(items));
      HeadSize(call);
      ContainerOpens(s, capacity, call, room);
      WroteOne(s, capacity, call);
      var base := CountedOpens(SettleOpens(s.opens));
      var after := Write(s, capacity, call).1;
      ItemsWrite(after, capacity, items, room - 1, base);
      WroteBoth(s, capacity, [call], |Emission(call)|, SettleOpens(after.opens),
                ItemCalls(items), ItemsSize(items), SettleOpens(base));
    case Dict(pairs) =>
      var call := PutMap(PairCount(pairs));
      HeadSize(call);
      ContainerOpens(s, capacity, call, room);
      WroteOne(s, capacity, call);
      var base := CountedOpens(SettleOpens(s.opens));
      var after := Write(s, capacity, call).1;
      PairsWrite(after, capacity, pairs, -1, room - 1, base);
      WroteBoth(s, capacity, [call], |Emission(call)|, SettleOpens(after.opens),
                PairCalls(pairs), PairsSize(pairs), SettleOpens(base));
  }

  lemma HeadSize(call: Call)
    requires call.PutArray? || call.PutMap? || call.PutKey?
    requires call.PutKey? ==> call.key >= 0
    ensures |Emission(call)|
            == 1 + Width(match call case PutArray(len) => len case PutMap(pairs) => pairs case PutKey(key) => key)
  {}

  lemma {:induction false} ItemsWrite(s: WriterState, capacity: nat, items: Items, room: nat, base: seq<Open>)
    requires ShapedItems(items) && OrderedItems(items) && ItemsHeight(items) <= room && s.out != []
             && |s.out| + ItemsSize(items) <= capacity
    requires SettleOpens(s.opens) == SettleOpens(base + [Open(InArray, ItemCount(items), None, 0)])
    requires |base| + 1 + room <= MAX_DEPTH
    ensures Wrote(s, capacity, ItemCalls(items), ItemsSize(items), SettleOpens(base))
    decreases items
  {
    hide Write, Emission, SettleOpens, WriteThrough;
    var top := Open(InArray, ItemCount(items), None, 0);
    TopOwes(base, top);
    if items.NoItem? {
      NothingWritten(s, capacity);
    } else {
      TreeWrites(s, capacity, items.head, room);
      var first := TreeCalls(items.head);
      var after := WriteThrough(s, capacity, first).value;
      ItemsWrite(after, capacity, items.more, room, base);
      WroteBoth(s, capacity, first, TreeSize(items.head), SettleOpens(after.opens),
                ItemCalls(items.more), ItemsSize(items.more), SettleOpens(base));
    }
  }

  function LastKey(last: int): Option<KeyRank>
    requires last <= I64_MAX
  {
    if last < 0 then None else Some(KeyRank(false, last))
  }

  /** A map's pairs are its first and its others. */
  lemma PairsSplit(pairs: KeyedItems, last: int)
    requires ShapedPairs(pairs) && OrderedPairs(pairs, last) && pairs.APair?
    ensures last < pairs.key <= I64_MAX && Shaped(pairs.value) && Ordered(pairs.value)
    ensures ShapedPairs(pairs.others) && OrderedPairs(pairs.others, pairs.key)
    ensures Height(pairs.value) <= PairsHeight(pairs) && PairsHeight(pairs.others) <= PairsHeight(pairs)
    ensures PairCount(pairs) == PairCount(pairs.others) + 1
    ensures PairCalls(pairs) == [PutKey(pairs.key)] + TreeCalls(pairs.value) + PairCalls(pairs.others)
    ensures PairsSize(pairs) == 1 + Width(pairs.key) + TreeSize(pairs.value) + PairsSize(pairs.others)
  {}

  lemma NoPairCalls()
    ensures PairCalls(NoPair) == [] && PairsSize(NoPair) == 0 && PairCount(NoPair) == 0
  {}

  /** A key that the innermost map owes, written: the map owes one item less, and its value next. */
  lemma KeyRuns(s: WriterState, capacity: nat, key: nat, base: seq<Open>, owed: nat, last: int, room: nat)
    requires last < key <= I64_MAX && owed > 0 && owed % 2 == 0 && s.out != [] && |s.out| + 1 + Width(key) <= capacity
    requires SettleOpens(s.opens) == SettleOpens(base + [Open(InMap, owed, LastKey(last), 0)])
    requires |base| + 1 + room <= MAX_DEPTH
    ensures var keyed := base + [Open(InMap, owed - 1, LastKey(key), 0)];
            Wrote(s, capacity, [PutKey(key)], 1 + Width(key), keyed)
    ensures var after := WriteThrough(s, capacity, [PutKey(key)]).value;
            AtValue(after, room) && Onward(after.opens) == SettleOpens(base + [Open(InMap, owed - 2, LastKey(key), 0)])
  {
    hide Write, SettleOpens, WriteThrough;
    var top := Open(InMap, owed, LastKey(last), 0);
    TopOwes(base, top);
    KeyWrites(s, capacity, key, base, owed, LastKey(last));
    WroteOne(s, capacity, PutKey(key));
    TopOwes(base, Open(InMap, owed - 1, LastKey(key), 0));
  }

  lemma {:induction false} PairsWrite(s: WriterState, capacity: nat, pairs: KeyedItems, last: int, room: nat,
                                      base: seq<Open>)
    requires last <= I64_MAX && ShapedPairs(pairs) && OrderedPairs(pairs, last) && PairsHeight(pairs) <= room
             && s.out != []
    requires |s.out| + PairsSize(pairs) <= capacity
    requires SettleOpens(s.opens) == SettleOpens(base + [Open(InMap, 2 * PairCount(pairs), LastKey(last), 0)])
    requires |base| + 1 + room <= MAX_DEPTH
    ensures Wrote(s, capacity, PairCalls(pairs), PairsSize(pairs), SettleOpens(base))
    decreases pairs
  {
    hide Write, Emission, SettleOpens, WriteThrough, PairCalls, PairsSize, PairCount, TreeCalls, TreeSize, Width,
         LastKey,
      OrderedPairs, ShapedPairs, PairsHeight, AtValue, Onward;
    if pairs.NoPair? {
      NoPairCalls();
      TopOwes(base, Open(InMap, 0, LastKey(last), 0));
      NothingWritten(s, capacity);
    } else {
      PairsSplit(pairs, last);
      var owed, key, value := 2 * PairCount(pairs), [PutKey(pairs.key)], TreeCalls(pairs.value);
      KeyRuns(s, capacity, pairs.key, base, owed, last, room);
      var keyed := WriteThrough(s, capacity, key).value;
      TreeWrites(keyed, capacity, pairs.value, room);
      WroteBoth(s, capacity, key, 1 + Width(pairs.key), SettleOpens(keyed.opens),
                value, TreeSize(pairs.value), Onward(keyed.opens));
      var after := WriteThrough(s, capacity, key + value).value;
      PairsWrite(after, capacity, pairs.others, pairs.key, room, base);
      WroteBoth(s, capacity, key + value, 1 + Width(pairs.key) + TreeSize(pairs.value), SettleOpens(after.opens),
                PairCalls(pairs.others), PairsSize(pairs.others), SettleOpens(base));
    }
  }

  /**
   A sound tree is written whenever it fits and only then, in exactly its own
   size; the message finishes, and every value in it reads back.
   */
  lemma TreeRoundTrip(t: Tree, capacity: nat)
    requires Sound(t)
    ensures var written := WriteThrough(EMPTY, capacity, TreeCalls(t));
            && (written.Success? <==> TreeSize(t) <= capacity)
            && (written.Success? ==>
                  && Close(written.value) == Success(TreeSize(t)) && |written.value.out| == TreeSize(t) > 0
                  && ReadsBack(written.value.out, START, TreeCalls(t)))
  {
    hide Write, TreeCalls, TreeSize, WriteThrough, ReadsBack, Accepted, WriteAll, Emitted;
    var calls, size := TreeCalls(t), TreeSize(t);
    TreeAlone(t, size);
    var written := WriteThrough(EMPTY, capacity, calls);
    if size <= capacity {
      TreeAlone(t, capacity);
      ThroughAccepts(EMPTY, capacity, calls);
      WrittenReadsBack(capacity, calls);
    } else if written.Success? {
      ThroughAccepts(EMPTY, capacity, calls);
      OnlyAcceptedCallsWrite(EMPTY, capacity, calls);
      ThroughAccepts(EMPTY, size, calls);
      OnlyAcceptedCallsWrite(EMPTY, size, calls);
    }
  }

  lemma TreeAlone(t: Tree, capacity: nat)
    requires Sound(t) && TreeSize(t) <= capacity
    ensures var written := WriteThrough(EMPTY, capacity, TreeCalls(t));
            && written.Success? && |written.value.out| == TreeSize(t) > 0
            && Close(written.value) == Success(TreeSize(t))
  {
    hide Write, TreeCalls, WriteThrough, Emission;
    LeafEmits(t);
    TreeWrites(EMPTY, capacity, t, MAX_DEPTH);
  }

  lemma LeafEmits(t: Tree)
    requires Shaped(t)
    ensures TreeSize(t) > 0
  {
    hide Item;
  }

}
