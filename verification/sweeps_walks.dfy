/**
 A sweep that opens can be walked to its end, whatever its entries say: the walk of
 the whole array, made before the first entry is handed out, has already passed.
 */
module SweepsWalks {
  import opened Bytes
  import opened Wrappers
  import opened Limits
  import opened CborHeads
  import opened CborGrammar
  import opened CborWalk
  import opened CborReaders
  import opened CborTrees
  import opened CborTreeItems
  import opened Sweeps
  import opened SweepsRoundTrip

  /** `left` items in a row can be walked from here. */
  predicate Walks(b: seq<byte>, s: ReaderState, left: nat)
    requires Within(b, s)
    decreases left
  {
    left == 0 || (SkipItem(b, s, true).Success? && Walks(b, SkipItem(b, s, true).value, left - 1))
  }

  lemma KeyIsWhole(b: seq<byte>, at: nat)
    requires at <= |b| && DecodeHead(b, at).Success? && KeyOf(DecodeHead(b, at).value.0).Success?
    ensures WholeItem(b[at..DecodeHead(b, at).value.1])
  {
    hide DecodeHead, Owed;
    HeadLocal(b, at, b[at..DecodeHead(b, at).value.1], 0);
  }

  lemma ItemIsWhole(b: seq<byte>, at: nat, room: nat)
    requires at <= |b| && room <= MAX_DEPTH && Item(b, at, room, true).Success?
    ensures WholeItem(b[at..Item(b, at, room, true).value.end])
  {
    hide Item;
    var own := b[at..Item(b, at, room, true).value.end];
    ItemLocal(b, at, room, true, own, 0);
    ItemRoom(own, 0, room, MAX_DEPTH, true);
  }

  /** What a reader skips, in an array or as the value of a key, is one item on its own. */
  lemma SkippedIsWhole(b: seq<byte>, s: ReaderState)
    requires Within(b, s) && SkipItem(b, s, true).Success?
    ensures WholeItem(b[s.next..SkipItem(b, s, true).value.next])
  {
    hide Item, DecodeHead, WholeItem;
    var frames := Settle(s.frames);
    if AtKey(frames) {
      KeyIsWhole(b, s.next);
    } else {
      ItemIsWhole(b, s.next, MAX_DEPTH - |frames|);
    }
  }

  /** The entries a body carries are one whole item. */
  lemma {:induction false} EntriesWhole(b: seq<byte>, s: ReaderState, left: nat, slots: BodySlots)
    requires Within(b, s) && BodyFields(b, s, left, slots).Success?
    requires slots.entries.Some? ==> WholeItem(slots.entries.value)
    ensures var filled := BodyFields(b, s, left, slots).value.0;
            filled.entries.Some? ==> WholeItem(filled.entries.value)
    decreases left
  {
    hide ReadAs, ReadNumber, SkipItem, WholeItem;
    if left > 0 {
      var (key, keyed) := ReadAs(b, s, AsKey).value;
      var (filled, after) := BodyField(b, keyed, key, slots).value;
      if key == 2 {
        SkippedIsWhole(b, keyed);
      }
      EntriesWhole(b, after, left - 1, filled);
    }
  }

  /** A reader in an array that owes items the grammar reads from there. */
  predicate InList(b: seq<byte>, s: ReaderState, left: nat) {
    && Within(b, s) && !s.skipped && !s.unsettled && Settle(s.frames) == Settle([Frame(InArray, left, {})])
    && Owed(b, s.next, InArray, left, {}, MAX_DEPTH - 1, true).Success?
  }

  lemma ListNext(b: seq<byte>, s: ReaderState, left: nat)
    requires InList(b, s, left) && left > 0
    ensures SkipItem(b, s, true).Success? && InList(b, SkipItem(b, s, true).value, left - 1)
  {
    hide Item, Owed;
    OwedItemStep(b, s.next, InArray, left, {}, MAX_DEPTH - 1, true);
    var frames, counted := [Frame(InArray, left, {})], [Frame(InArray, left - 1, {})];
    assert Settle(frames) == frames && Counted(frames) == counted;
    SettledTwice(counted);
  }

  lemma {:induction false} ArrayWalks(b: seq<byte>, s: ReaderState, left: nat)
    requires InList(b, s, left)
    ensures Within(b, s) && Walks(b, s, left)
    decreases left
  {
    hide SkipItem, InList;
    assert Within(b, s) by { InListWithin(b, s, left); }
    if left > 0 {
      ListNext(b, s, left);
      ArrayWalks(b, SkipItem(b, s, true).value, left - 1);
    }
  }

  lemma InListWithin(b: seq<byte>, s: ReaderState, left: nat)
    requires InList(b, s, left)
    ensures Within(b, s)
  {}

  lemma WholeArrayWalks(b: seq<byte>)
    requires WholeItem(b) && ReadAs(b, START, AsArray).Success?
    ensures var (left, at) := ReadAs(b, START, AsArray).value; Walks(b, at, left)
  {
    hide DecodeHead, Owed, Walks;
    var (left, at) := ReadAs(b, START, AsArray).value;
    assert at.frames == [Frame(InArray, left, {})];
    ArrayWalks(b, at, left);
  }

  /** No entry of a sweep that opened is ever refused by the walk to it. */
  lemma OpenedWalks(payload: seq<byte>)
    requires OpenSweep(payload).Success?
    ensures var sweep := OpenSweep(payload).value; Walks(sweep.entries, sweep.at, sweep.left)
  {
    hide ReadAs, BodyFields, Finished, Walks, WholeItem;
    var (pairs, entered) := ReadAs(payload, START, AsMap).value;
    EntriesWhole(payload, entered, pairs, BodySlots(None, None));
    WholeArrayWalks(OpenSweep(payload).value.entries);
  }

  /** Nor is an entry of a sweep still being built. */
  lemma {:induction false} PackedWalks(kind: Kind, taken: seq<Change>, i: nat, s: ReaderState)
    requires Holding(kind, taken) && i <= |taken| && Between(Packed(taken), s, |Packed(taken[..i])|)
    ensures Within(Packed(taken), s) && Walks(Packed(taken), s, |taken| - i)
    decreases |taken| - i
  {
    hide EntryBytes, Packed, SkipItem, OfKind, Stands;
    if i < |taken| {
      var c, b := taken[i], Packed(taken);
      PackedAt(taken, i);
      StandsSlice(EntryBytes(c), b, s.next);
      var after := SkipsEntry(b, s, c);
      PackedWalks(kind, taken, i + 1, after);
    }
  }

  lemma EntriesWalk(kind: Kind, taken: seq<Change>)
    requires Holding(kind, taken)
    ensures Within(Packed(taken), START) && Walks(Packed(taken), START, |taken|)
  {
    hide Packed, Holding, Walks;
    assert taken[..0] == [];
    PackedNone();
    PackedWalks(kind, taken, 0, START);
  }
}
