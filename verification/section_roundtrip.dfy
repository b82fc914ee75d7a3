/**
 A section written and read back is the same section, in 901 bytes at the most.
 */
module SectionRoundTrip {
  import opened Bytes
  import opened Wrappers
  import opened CborHeads
  import opened CborReaders
  import opened CborWriters
  import opened CborRoundTrip
  import opened CborTrees
  import opened Sections
  import opened SectionWire
  import opened SectionParse

  // ---------------------------------------------------------------------------
  // One call read back.

  lemma NumberRead(b: seq<byte>, s: ReaderState, n: u64, max: nat, rest: seq<Call>) returns (after: ReaderState)
    requires Due(b, s, [PutU64(n)] + rest) && n <= max
    ensures Within(b, s) && GetUnsigned(b, s, max) == Success((n as nat, after)) && Due(b, after, rest)
  {
    hide Due, ReadNumber;
    after := NumberDue(b, s, n, max, rest);
  }

  lemma KeyRead(b: seq<byte>, s: ReaderState, key: nat, rest: seq<Call>) returns (after: ReaderState)
    requires key <= I64_MAX && Due(b, s, [PutKey(key)] + rest)
    ensures Within(b, s) && Get(b, s, AsKey) == Success((key as int, after)) && Due(b, after, rest)
  {
    hide Due, ReadAs;
    after := KeyDue(b, s, key, rest);
  }

  lemma MapRead(b: seq<byte>, s: ReaderState, pairs: usize, rest: seq<Call>) returns (after: ReaderState)
    requires Due(b, s, [PutMap(pairs)] + rest)
    ensures Within(b, s) && Get(b, s, AsMap) == Success((pairs as nat, after)) && Due(b, after, rest)
  {
    hide Due, ReadAs;
    after := MapDue(b, s, pairs, rest);
  }

  lemma ArrayRead(b: seq<byte>, s: ReaderState, len: usize, rest: seq<Call>) returns (after: ReaderState)
    requires Due(b, s, [PutArray(len)] + rest)
    ensures Within(b, s) && Get(b, s, AsArray) == Success((len as nat, after)) && Due(b, after, rest)
  {
    hide Due, ReadAs;
    after := ArrayDue(b, s, len, rest);
  }

  lemma BoolRead(b: seq<byte>, s: ReaderState, flag: bool, rest: seq<Call>) returns (after: ReaderState)
    requires Due(b, s, [PutBool(flag)] + rest)
    ensures Within(b, s) && Get(b, s, AsBool) == Success((flag, after)) && Due(b, after, rest)
  {
    hide Due, ReadAs;
    after := BoolDue(b, s, flag, rest);
  }

  lemma BytesRead(b: seq<byte>, s: ReaderState, raw: Slice, rest: seq<Call>) returns (after: ReaderState)
    requires Due(b, s, [PutBytes(raw)] + rest)
    ensures Within(b, s) && Get(b, s, AsBytes) == Success((raw, after)) && Due(b, after, rest)
  {
    hide Due, ReadAs;
    after := BytesDue(b, s, raw, rest);
  }

  /** A pair of a map: its key, and then its value's calls. */
  lemma PairDue(b: seq<byte>, s: ReaderState, key: nat, call: Call, others: KeyedItems, rest: seq<Call>)
      returns (after: ReaderState)
    requires key <= I64_MAX && LeafCall(call) && ShapedPairs(others)
    requires Due(b, s, PairCalls(APair(key, Leaf(call), others)) + rest)
    ensures Within(b, s) && Get(b, s, AsKey) == Success((key as int, after))
    ensures Due(b, after, [call] + (PairCalls(others) + rest))
  {
    hide Due, Get;
    assert PairCalls(APair(key, Leaf(call), others)) + rest == [PutKey(key)] + ([call] + (PairCalls(others) + rest));
    after := KeyRead(b, s, key, [call] + (PairCalls(others) + rest));
  }

  // ---------------------------------------------------------------------------
  // A bus entry.

  function RawBus(e: BusEntry): BusSlots {
    BusSlots(Some(e.bus),
             if e.rate.None? then None else Some(e.rate.value),
             if e.dataBits.None? then None else Some(DataBitsWire(e.dataBits.value)),
             e.parity,
             if e.stopBits.None? then None else Some(StopBitsWire(e.stopBits.value)))
  }

  function BusArrives(e: BusEntry): BusRecord {
    var raw := RawBus(e);
    BusRecord(e.bus, raw.rate, raw.dataBits, raw.parity, raw.stopBits)
  }

  /** One setting of a bus entry as it is written, and the slot it fills. */
  predicate FillsBus(key: nat, n: u64, slots: BusSlots, filled: BusSlots) {
    match key
    case 1 => n <= 0xFF && slots.bus.None? && filled == slots.(bus := Some(n))
    case 2 => n <= 0xFFFF_FFFF && slots.rate.None? && filled == slots.(rate := Some(n))
    case 3 => n <= 0xFF && slots.dataBits.None? && filled == slots.(dataBits := Some(n))
    case 4 => n <= 0xFF && slots.parity.None? && ParityOf(n).Some? && filled == slots.(parity := ParityOf(n))
    case 5 => n <= 0xFF && slots.stopBits.None? && filled == slots.(stopBits := Some(n))
    case _ => false
  }

  lemma BusStep(b: seq<byte>, s: ReaderState, key: nat, n: u64, others: KeyedItems, slots: BusSlots, filled: BusSlots,
                rest: seq<Call>)
    returns (after: ReaderState)
    requires FillsBus(key, n, slots, filled) && ShapedPairs(others)
    requires Due(b, s, PairCalls(APair(key, Number(n), others)) + rest)
    ensures Within(b, s) && Due(b, after, PairCalls(others) + rest) && Within(b, after)
    ensures BusFields(b, s, PairCount(APair(key, Number(n), others)), slots)
            == BusFields(b, after, PairCount(others), filled)
  {
    hide ReadsBack, GetUnsigned, Get, PairCalls, ShapedPairs, BusField;
    var keyed := PairDue(b, s, key, PutU64(n), others, rest);
    after := NumberRead(b, keyed, n, BusMost(key), PairCalls(others) + rest);
    BusFills(b, keyed, key, n, after, slots, filled);
  }

  function BusMost(key: nat): u64 { if key == 2 then 0xFFFF_FFFF else 0xFF }

  lemma BusFills(b: seq<byte>, s: ReaderState, key: nat, n: u64, after: ReaderState, slots: BusSlots, filled: BusSlots)
    requires Within(b, s) && FillsBus(key, n, slots, filled)
             && GetUnsigned(b, s, BusMost(key)) == Success((n as nat, after))
    ensures BusField(b, s, key, slots) == Success((filled, after))
  {
    hide GetUnsigned;
  }

  /** `pairs` still to be read fill `slots` as far as `raw`. */
  predicate BusGoes(b: seq<byte>, start: ReaderState, count: nat, s: ReaderState, pairs: KeyedItems, slots: BusSlots,
                    rest: seq<Call>) {
    && Within(b, start) && Within(b, s) && ShapedPairs(pairs) && Due(b, s, PairCalls(pairs) + rest)
    && BusFields(b, start, count, NO_BUS) == BusFields(b, s, PairCount(pairs), slots)
  }

  lemma BusGoesOn(b: seq<byte>, start: ReaderState, count: nat, s: ReaderState, key: nat, value: Option<Call>,
                  others: KeyedItems,
                  slots: BusSlots, filled: BusSlots, rest: seq<Call>) returns (after: ReaderState)
    requires BusGoes(b, start, count, s, IfSet(key, value, others), slots, rest) && ShapedPairs(others)
    requires if value.None? then filled == slots
             else value.value.PutU64? && FillsBus(key, value.value.number, slots, filled)
    ensures BusGoes(b, start, count, after, others, filled, rest)
  {
    hide Due, BusFields, FillsBus;
    if value.None? {
      after := s;
    } else {
      after := BusStep(b, s, key, value.value.number, others, slots, filled, rest);
    }
  }

  lemma DictCalls(pairs: KeyedItems, rest: seq<Call>)
    requires Shaped(Dict(pairs))
    ensures ShapedPairs(pairs)
            && TreeCalls(Dict(pairs)) + rest == [PutMap(PairCount(pairs))] + (PairCalls(pairs) + rest)
  {
    hide PairCalls;
  }

  lemma BusRead(b: seq<byte>, s: ReaderState, e: BusEntry, rest: seq<Call>) returns (after: ReaderState)
    requires SetsSomething(e) && Shaped(BusTree(e))
    requires Due(b, s, TreeCalls(BusTree(e)) + rest)
    ensures Within(b, s) && ParseBus(b, s) == Success((BusArrives(e), after)) && Due(b, after, rest)
  {
    hide Due, Get, BusFields, PairCalls, IfSet, BusGoes, TreeCalls;
    var p5 := IfSet(5, StopBitsCall(e.stopBits), NoPair);
    var p4 := IfSet(4, ParityCall(e.parity), p5);
    var p3 := IfSet(3, DataBitsCall(e.dataBits), p4);
    var p2 := IfSet(2, RateCall(e.rate), p3);
    var pairs := APair(1, Number(e.bus), p2);
    var count := PairCount(pairs);
    DictCalls(pairs, rest);
    var start := MapRead(b, s, count, PairCalls(pairs) + rest);
    BusPartsShaped(e);
    var raw := RawBus(e);
    var s1 := BusBegins(b, start, e.bus, p2, rest);
    var f1 := NO_BUS.(bus := raw.bus);
    var f2 := f1.(rate := raw.rate);
    var f3 := f2.(dataBits := raw.dataBits);
    var f4 := f3.(parity := raw.parity);
    var s2 := BusGoesOn(b, start, count, s1, 2, RateCall(e.rate), p3, f1, f2, rest);
    var s3 := BusGoesOn(b, start, count, s2, 3, DataBitsCall(e.dataBits), p4, f2, f3, rest);
    var s4 := BusGoesOn(b, start, count, s3, 4, ParityCall(e.parity), p5, f3, f4, rest);
    after := BusGoesOn(b, start, count, s4, 5, StopBitsCall(e.stopBits), NoPair, f4, raw, rest);
    BusDone(b, start, count, after, raw, rest);
  }

  lemma BusPartsShaped(e: BusEntry)
    requires Shaped(BusTree(e))
    ensures var p5 := IfSet(5, StopBitsCall(e.stopBits), NoPair);
            var p4 := IfSet(4, ParityCall(e.parity), p5);
            var p3 := IfSet(3, DataBitsCall(e.dataBits), p4);
            var p2 := IfSet(2, RateCall(e.rate), p3);
            ShapedPairs(p5) && ShapedPairs(p4) && ShapedPairs(p3) && ShapedPairs(p2)
  {
    ShapedRest(4, ParityCall(e.parity), IfSet(5, StopBitsCall(e.stopBits), NoPair));
    ShapedRest(3, DataBitsCall(e.dataBits), IfSet(4, ParityCall(e.parity), IfSet(5, StopBitsCall(e.stopBits), NoPair)));
  }

  lemma ShapedRest(key: nat, value: Option<Call>, others: KeyedItems)
    ensures ShapedPairs(IfSet(key, value, others)) ==> ShapedPairs(others)
  {}

  lemma BusBegins(b: seq<byte>, start: ReaderState, bus: byte, others: KeyedItems, rest: seq<Call>)
      returns (after: ReaderState)
    requires ShapedPairs(others) && Due(b, start, PairCalls(APair(1, Number(bus), others)) + rest)
    ensures BusGoes(b, start, PairCount(APair(1, Number(bus), others)), after, others, NO_BUS.(bus := Some(bus)), rest)
  {
    hide Due, BusFields;
    after := BusStep(b, start, 1, bus, others, NO_BUS, NO_BUS.(bus := Some(bus)), rest);
  }

  lemma BusDone(b: seq<byte>, start: ReaderState, count: nat, s: ReaderState, slots: BusSlots, rest: seq<Call>)
    requires BusGoes(b, start, count, s, NoPair, slots, rest)
    ensures Within(b, start) && BusFields(b, start, count, NO_BUS) == Success((slots, s)) && Due(b, s, rest)
  {
    hide Due, BusField, Get;
    assert PairCalls(NoPair) == [] && PairCount(NoPair) == 0;
    assert [] + rest == rest;
  }

  // ---------------------------------------------------------------------------
  // A device's options.

  function RawDirection(direction: CurrentDirection): Direction {
    if direction.PositiveIsIn? then PositiveIn else PositiveOut
  }

  function RawOptions(o: DeviceOptions): OptionSlots {
    OptionSlots([], if o.currentDirection.None? then None else Some(RawDirection(o.currentDirection.value)),
                o.pylontechVersion, o.veDirect3v3, o.pollPeriod)
  }

  predicate FillsOption(key: nat, call: Call, slots: OptionSlots, filled: OptionSlots) {
    match key
    case 1 =>
      && call.PutU64? && call.number <= 0xFF && slots.direction.None? && DirectionOf(call.number).Some?
      && filled == slots.(direction := DirectionOf(call.number))
    case 2 =>
      && call.PutU64? && call.number <= 0xFF && slots.version.None? && VersionOf(call.number).Some?
      && filled == slots.(version := VersionOf(call.number))
    case 3 => call.PutBool? && slots.lowVoltage.None? && filled == slots.(lowVoltage := Some(call.flag))
    case 4 =>
      call.PutU64? && call.number <= 0xFFFF_FFFF && slots.poll.None? && filled == slots.(poll := Some(call.number))
    case _ => false
  }

  predicate OptionsGo(b: seq<byte>, start: ReaderState, count: nat, s: ReaderState, pairs: KeyedItems,
                      slots: OptionSlots, rest: seq<Call>) {
    && Within(b, start) && Within(b, s) && ShapedPairs(pairs) && Due(b, s, PairCalls(pairs) + rest)
    && OptionFields(b, start, count, NO_OPTION_SLOTS) == OptionFields(b, s, PairCount(pairs), slots)
  }

  function OptionMost(key: nat): u64 { if key == 4 then 0xFFFF_FFFF else 0xFF }

  lemma OptionFills(b: seq<byte>, s: ReaderState, key: nat, call: Call, after: ReaderState, slots: OptionSlots,
                    filled: OptionSlots)
    requires Within(b, s) && FillsOption(key, call, slots, filled)
    requires call.PutU64? ==> GetUnsigned(b, s, OptionMost(key)) == Success((call.number as nat, after))
    requires call.PutBool? ==> Get(b, s, AsBool) == Success((call.flag, after))
    ensures OptionField(b, s, key, slots) == Success((filled, after))
  {
    hide GetUnsigned, Get;
  }

  lemma OptionsGoOn(b: seq<byte>, start: ReaderState, count: nat, s: ReaderState, key: nat, value: Option<Call>,
                    others: KeyedItems,
                    slots: OptionSlots, filled: OptionSlots, rest: seq<Call>) returns (after: ReaderState)
    requires OptionsGo(b, start, count, s, IfSet(key, value, others), slots, rest) && ShapedPairs(others)
    requires if value.None? then filled == slots else FillsOption(key, value.value, slots, filled)
    ensures OptionsGo(b, start, count, after, others, filled, rest)
  {
    hide Due, OptionField, GetUnsigned, Get, PairCalls, ShapedPairs;
    if value.None? {
      after := s;
    } else {
      var call := value.value;
      var keyed := PairDue(b, s, key, call, others, rest);
      if call.PutU64? {
        after := NumberRead(b, keyed, call.number, OptionMost(key), PairCalls(others) + rest);
      } else {
        after := BoolRead(b, keyed, call.flag, PairCalls(others) + rest);
      }
      OptionFills(b, keyed, key, call, after, slots, filled);
      DueWithin(b, after, PairCalls(others) + rest);
    }
  }

  lemma DueWithin(b: seq<byte>, s: ReaderState, calls: seq<Call>)
    requires Due(b, s, calls)
    ensures Within(b, s)
  {}

  lemma OptionsRead(b: seq<byte>, s: ReaderState, o: DeviceOptions, rest: seq<Call>) returns (after: ReaderState)
    requires o != NO_OPTIONS && Shaped(OptionsTree(o)) && Due(b, s, TreeCalls(OptionsTree(o)) + rest)
    ensures Within(b, s) && ParseOptions(b, s) == Success((RawOptions(o), after)) && Due(b, after, rest)
  {
    hide Due, Get, OptionFields, PairCalls, IfSet, OptionsGo, TreeCalls, PairCount;
    var p4 := IfSet(4, PollCall(o.pollPeriod), NoPair);
    var p3 := IfSet(3, LowVoltageCall(o.veDirect3v3), p4);
    var p2 := IfSet(2, VersionCall(o.pylontechVersion), p3);
    var pairs := IfSet(1, DirectionCall(o.currentDirection), p2);
    var count := PairCount(pairs);
    DictCalls(pairs, rest);
    var start := MapRead(b, s, count, PairCalls(pairs) + rest);
    ShapedRest(1, DirectionCall(o.currentDirection), p2);
    ShapedRest(2, VersionCall(o.pylontechVersion), p3);
    ShapedRest(3, LowVoltageCall(o.veDirect3v3), p4);
    ShapedRest(4, PollCall(o.pollPeriod), NoPair);
    OptionsSome(o);
    var raw := RawOptions(o);
    var f1 := NO_OPTION_SLOTS.(direction := raw.direction);
    var f2 := f1.(version := raw.version);
    var f3 := f2.(lowVoltage := raw.lowVoltage);
    OptionsBegin(b, start, pairs, rest);
    var s1 := OptionsGoOn(b, start, count, start, 1, DirectionCall(o.currentDirection), p2, NO_OPTION_SLOTS, f1, rest);
    var s2 := OptionsGoOn(b, start, count, s1, 2, VersionCall(o.pylontechVersion), p3, f1, f2, rest);
    var s3 := OptionsGoOn(b, start, count, s2, 3, LowVoltageCall(o.veDirect3v3), p4, f2, f3, rest);
    after := OptionsGoOn(b, start, count, s3, 4, PollCall(o.pollPeriod), NoPair, f3, raw, rest);
    OptionsDone(b, start, count, after, raw, rest);
  }

  lemma OptionsSome(o: DeviceOptions)
    requires o != NO_OPTIONS
    ensures PairCount(OptionsTree(o).pairs) > 0
  {}

  lemma OptionsBegin(b: seq<byte>, start: ReaderState, pairs: KeyedItems, rest: seq<Call>)
    requires ShapedPairs(pairs) && Due(b, start, PairCalls(pairs) + rest)
    ensures OptionsGo(b, start, PairCount(pairs), start, pairs, NO_OPTION_SLOTS, rest)
  {
    hide OptionFields, ReadsBack;
  }

  lemma OptionsDone(b: seq<byte>, start: ReaderState, count: nat, s: ReaderState, slots: OptionSlots, rest: seq<Call>)
    requires OptionsGo(b, start, count, s, NoPair, slots, rest)
    ensures Within(b, start) && OptionFields(b, start, count, NO_OPTION_SLOTS) == Success((slots, s)) && Due(b, s, rest)
  {
    hide Due, OptionField, Get;
    assert PairCalls(NoPair) == [] && PairCount(NoPair) == 0;
    assert [] + rest == rest;
  }

  // ---------------------------------------------------------------------------
  // A device entry.

  function RawDevice(d: DeviceEntry): DeviceSlots {
    DeviceSlots(if d.dev.None? then None else Some(d.dev.value), Some(d.bus),
                if d.addr.None? then None else Some(d.addr.value),
                Some(d.product), Some(d.dialect), Some(d.role),
                if d.parent.None? then None else Some(d.parent.value),
                if d.options == NO_OPTIONS then None else Some(RawOptions(d.options)))
  }

  function DeviceArrives(d: DeviceEntry): DeviceRecord { Taken(RawDevice(d)) }

  predicate FillsDevice(key: nat, call: Call, slots: DeviceSlots, filled: DeviceSlots) {
    if key == 3 then call.PutBytes? && slots.addr.None? && filled == slots.(addr := Some(call.raw))
    else
      && call.PutU64? && call.number <= DeviceMost(key)
      && match key
         case 1 => slots.dev.None? && filled == slots.(dev := Some(call.number))
         case 2 => slots.bus.None? && filled == slots.(bus := Some(call.number))
         case 4 => slots.product.None? && filled == slots.(product := Some(call.number))
         case 5 => slots.dialect.None? && filled == slots.(dialect := Some(call.number))
         case 6 => slots.role.None? && filled == slots.(role := Some(call.number))
         case 7 => slots.parent.None? && filled == slots.(parent := Some(call.number))
         case _ => false
  }

  function DeviceMost(key: nat): u64 { if key == 2 then 0xFF else 0xFFFF }

  predicate DeviceGoes(b: seq<byte>, start: ReaderState, count: nat, s: ReaderState, pairs: KeyedItems,
                       slots: DeviceSlots, rest: seq<Call>) {
    && Within(b, start) && Within(b, s) && ShapedPairs(pairs) && Due(b, s, PairCalls(pairs) + rest)
    && DeviceFields(b, start, count, NO_DEVICE) == DeviceFields(b, s, PairCount(pairs), slots)
  }

  lemma DeviceFills(b: seq<byte>, s: ReaderState, key: nat, call: Call, after: ReaderState, slots: DeviceSlots,
                    filled: DeviceSlots)
    requires Within(b, s) && FillsDevice(key, call, slots, filled)
    requires call.PutU64? ==> GetUnsigned(b, s, DeviceMost(key)) == Success((call.number as nat, after))
    requires call.PutBytes? ==> Get(b, s, AsBytes) == Success((call.raw, after))
    ensures DeviceField(b, s, key, slots) == Success((filled, after))
  {
    hide GetUnsigned, Get, ParseOptions;
  }

  lemma DeviceGoesOn(b: seq<byte>, start: ReaderState, count: nat, s: ReaderState, key: nat, value: Option<Call>,
                     others: KeyedItems,
                     slots: DeviceSlots, filled: DeviceSlots, rest: seq<Call>) returns (after: ReaderState)
    requires DeviceGoes(b, start, count, s, IfSet(key, value, others), slots, rest) && ShapedPairs(others)
    requires if value.None? then filled == slots else FillsDevice(key, value.value, slots, filled)
    ensures DeviceGoes(b, start, count, after, others, filled, rest)
  {
    hide Due, DeviceField, GetUnsigned, Get, PairCalls, ShapedPairs;
    if value.None? {
      after := s;
    } else {
      var call := value.value;
      var keyed := PairDue(b, s, key, call, others, rest);
      if call.PutU64? {
        after := NumberRead(b, keyed, call.number, DeviceMost(key), PairCalls(others) + rest);
      } else {
        after := BytesRead(b, keyed, call.raw, PairCalls(others) + rest);
      }
      DeviceFills(b, keyed, key, call, after, slots, filled);
      DueWithin(b, after, PairCalls(others) + rest);
    }
  }

  lemma DeviceBegins(b: seq<byte>, start: ReaderState, pairs: KeyedItems, rest: seq<Call>)
    requires ShapedPairs(pairs) && Due(b, start, PairCalls(pairs) + rest)
    ensures DeviceGoes(b, start, PairCount(pairs), start, pairs, NO_DEVICE, rest)
  {
    hide DeviceFields, ReadsBack;
  }

  /** The options come last: nothing for none set, and otherwise a map of their own. */
  lemma DeviceEnds(b: seq<byte>, start: ReaderState, count: nat, s: ReaderState, o: DeviceOptions, slots: DeviceSlots,
                   rest: seq<Call>)
    returns (after: ReaderState)
    requires DeviceGoes(b, start, count, s, OptionsPair(o), slots, rest) && slots.options.None?
    ensures Within(b, start) && Due(b, after, rest)
    ensures DeviceFields(b, start, count, NO_DEVICE)
         == Success((slots.(options := if o == NO_OPTIONS then None else Some(RawOptions(o))), after))
  {
    hide Due, Get, GetUnsigned, ParseOptions, OptionsTree;
    if o == NO_OPTIONS {
      after := s;
      assert [] + rest == rest;
      assert slots.(options := None) == slots;
    } else {
      var tree := OptionsTree(o);
      assert PairCalls(OptionsPair(o)) + rest == [PutKey(8)] + (TreeCalls(tree) + rest);
      var keyed := KeyRead(b, s, 8, TreeCalls(tree) + rest);
      after := OptionsRead(b, keyed, o, rest);
      var filled := slots.(options := Some(RawOptions(o)));
      assert DeviceField(b, keyed, 8, slots) == Success((filled, after));
      assert PairCount(OptionsPair(o)) == 1;
      assert DeviceFields(b, s, 1, slots) == DeviceFields(b, after, 0, filled) == Success((filled, after));
    }
  }

  lemma DeviceRead(b: seq<byte>, s: ReaderState, d: DeviceEntry, answer: bool, rest: seq<Call>)
      returns (after: ReaderState)
    requires (answer ==> d.dev.Some?) && Shaped(DeviceTree(d)) && Due(b, s, TreeCalls(DeviceTree(d)) + rest)
    ensures Within(b, s) && ParseDevice(b, s, answer) == Success((DeviceArrives(d), after)) && Due(b, after, rest)
  {
    hide Due, Get, DeviceFields, PairCalls, IfSet, DeviceGoes, OptionsPair, Number, TreeCalls;
    var p7 := IfSet(7, DevCall(d.parent), OptionsPair(d.options));
    var p6 := APair(6, Number(d.role), p7);
    var p5 := APair(5, Number(d.dialect), p6);
    var p4 := APair(4, Number(d.product), p5);
    var p3 := IfSet(3, AddrCall(d.addr), p4);
    var p2 := APair(2, Number(d.bus), p3);
    var pairs := IfSet(1, DevCall(d.dev), p2);
    var count := PairCount(pairs);
    DictCalls(pairs, rest);
    var start := MapRead(b, s, count, PairCalls(pairs) + rest);
    ShapedRest(1, DevCall(d.dev), p2);
    ShapedRest(3, AddrCall(d.addr), p4);
    ShapedRest(7, DevCall(d.parent), OptionsPair(d.options));
    Always(2, d.bus, p3);
    Always(4, d.product, p5);
    Always(5, d.dialect, p6);
    Always(6, d.role, p7);
    var raw := RawDevice(d);
    var f1 := NO_DEVICE.(dev := raw.dev);
    var f2 := f1.(bus := raw.bus);
    var f3 := f2.(addr := raw.addr);
    var f4 := f3.(product := raw.product);
    var f5 := f4.(dialect := raw.dialect);
    var f6 := f5.(role := raw.role);
    var f7 := f6.(parent := raw.parent);
    DeviceBegins(b, start, pairs, rest);
    var s1 := DeviceGoesOn(b, start, count, start, 1, DevCall(d.dev), p2, NO_DEVICE, f1, rest);
    var s2 := DeviceGoesOn(b, start, count, s1, 2, Some(PutU64(d.bus)), p3, f1, f2, rest);
    var s3 := DeviceGoesOn(b, start, count, s2, 3, AddrCall(d.addr), p4, f2, f3, rest);
    var s4 := DeviceGoesOn(b, start, count, s3, 4, Some(PutU64(d.product)), p5, f3, f4, rest);
    var s5 := DeviceGoesOn(b, start, count, s4, 5, Some(PutU64(d.dialect)), p6, f4, f5, rest);
    var s6 := DeviceGoesOn(b, start, count, s5, 6, Some(PutU64(d.role)), p7, f5, f6, rest);
    var s7 := DeviceGoesOn(b, start, count, s6, 7, DevCall(d.parent), OptionsPair(d.options), f6, f7, rest);
    after := DeviceEnds(b, start, count, s7, d.options, f7, rest);
  }

  lemma Always(key: nat, n: u64, others: KeyedItems)
    ensures APair(key, Number(n), others) == IfSet(key, Some(PutU64(n)), others)
    ensures ShapedPairs(APair(key, Number(n), others)) ==> ShapedPairs(others)
  {}

  // ---------------------------------------------------------------------------
  // The lists, and the body.

  predicate EachSets(buses: seq<BusEntry>) { forall e :: e in buses ==> SetsSomething(e) }

  predicate EachNamed(devices: seq<DeviceEntry>, answer: bool) { answer ==> forall d :: d in devices ==> d.dev.Some? }

  function RawBuses(buses: seq<BusEntry>): seq<Row> {
    if buses == [] then [] else RawBuses(buses[..|buses| - 1]) + [BusRow(BusArrives(buses[|buses| - 1]))]
  }

  function RawDevices(devices: seq<DeviceEntry>): seq<Row> {
    if devices == [] then []
      else RawDevices(devices[..|devices| - 1]) + [DeviceRow(DeviceArrives(devices[|devices| - 1]))]
  }

  lemma RawNext(buses: seq<BusEntry>, devices: seq<DeviceEntry>, i: nat)
    ensures i < |buses| ==> RawBuses(buses[..i + 1]) == RawBuses(buses[..i]) + [BusRow(BusArrives(buses[i]))]
    ensures i < |devices|
            ==> RawDevices(devices[..i + 1]) == RawDevices(devices[..i]) + [DeviceRow(DeviceArrives(devices[i]))]
  {
    hide BusArrives, DeviceArrives;
    if i < |buses| { assert buses[..i + 1][..i] == buses[..i]; }
    if i < |devices| { assert devices[..i + 1][..i] == devices[..i]; }
  }

  lemma {:induction false} BusesRead(b: seq<byte>, s: ReaderState, buses: seq<BusEntry>, i: nat, base: seq<Row>,
                                     rest: seq<Call>)
    returns (after: ReaderState)
    requires i <= |buses| && EachSets(buses) && ShapedItems(BusItems(buses[i..]))
    requires Due(b, s, ItemCalls(BusItems(buses[i..])) + rest)
    ensures Within(b, s) && Due(b, after, rest)
    ensures BusRows(b, s, |buses| - i, base + RawBuses(buses[..i])) == Success((base + RawBuses(buses), after))
    decreases |buses| - i
  {
    hide Due, ParseBus, TreeCalls, BusTree, BusArrives, RawBuses, SetsSomething;
    DueWithin(b, s, ItemCalls(BusItems(buses[i..])) + rest);
    if i == |buses| {
      after := s;
      assert [] + rest == rest && buses[..i] == buses;
    } else {
      assert buses[i..][0] == buses[i] && buses[i..][1..] == buses[i + 1..];
      var more := ItemCalls(BusItems(buses[i + 1..]));
      assert ItemCalls(BusItems(buses[i..])) + rest == TreeCalls(BusTree(buses[i])) + (more + rest);
      var next := BusRead(b, s, buses[i], more + rest);
      RawNext(buses, [], i);
      var row := BusRow(BusArrives(buses[i]));
      assert base + RawBuses(buses[..i]) + [row] == base + RawBuses(buses[..i + 1]);
      after := BusesRead(b, next, buses, i + 1, base, rest);
    }
  }

  lemma {:induction false} DevicesRead(b: seq<byte>, s: ReaderState, answer: bool, devices: seq<DeviceEntry>, i: nat,
                                       base: seq<Row>, rest: seq<Call>)
    returns (after: ReaderState)
    requires i <= |devices| && EachNamed(devices, answer) && ShapedItems(DeviceItems(devices[i..]))
    requires Due(b, s, ItemCalls(DeviceItems(devices[i..])) + rest)
    ensures Within(b, s) && Due(b, after, rest)
    ensures DeviceRows(b, s, answer, |devices| - i, base + RawDevices(devices[..i]))
            == Success((base + RawDevices(devices), after))
    decreases |devices| - i
  {
    hide Due, ParseDevice, TreeCalls, DeviceTree, DeviceArrives, RawDevices;
    DueWithin(b, s, ItemCalls(DeviceItems(devices[i..])) + rest);
    if i == |devices| {
      after := s;
      assert [] + rest == rest && devices[..i] == devices;
    } else {
      assert devices[i..][0] == devices[i] && devices[i..][1..] == devices[i + 1..];
      var more := ItemCalls(DeviceItems(devices[i + 1..]));
      assert ItemCalls(DeviceItems(devices[i..])) + rest == TreeCalls(DeviceTree(devices[i])) + (more + rest);
      var next := DeviceRead(b, s, devices[i], answer, more + rest);
      RawNext([], devices, i);
      var row := DeviceRow(DeviceArrives(devices[i]));
      assert base + RawDevices(devices[..i]) + [row] == base + RawDevices(devices[..i + 1]);
      after := DevicesRead(b, next, answer, devices, i + 1, base, rest);
    }
  }

  lemma {:induction false} ItemCounts(buses: seq<BusEntry>, devices: seq<DeviceEntry>)
    ensures ItemCount(BusItems(buses)) == |buses| && ItemCount(DeviceItems(devices)) == |devices|
    decreases |buses| + |devices|
  {
    if buses != [] { ItemCounts(buses[1..], devices); }
    if devices != [] { ItemCounts(buses, devices[1..]); }
  }

  /** The rows a written section arrives as. */
  function RawRows(s: Section): seq<Row> { RawBuses(s.buses) + RawDevices(s.devices) }

  /** Every row of a written section is parsed back, and nothing else. */
  lemma BodyRead(b: seq<byte>, section: Section, answer: bool)
    requires Fits(section) && EachSets(section.buses) && EachNamed(section.devices, answer)
             && Shaped(SectionTree(section))
    requires Due(b, START, TreeCalls(SectionTree(section)))
    ensures ParseBody(b, answer) == Success(RawRows(section))
  {
    hide Due, Get, BusRows, DeviceRows, BusItems, DeviceItems, EachSets, EachNamed, RawBuses, RawDevices, Skipped,
         Finished;
    SectionShaped(section);
    ItemCounts(section.buses, section.devices);
    var n, m := |section.buses|, |section.devices|;
    var buses, devices := ItemCalls(BusItems(section.buses)), ItemCalls(DeviceItems(section.devices));
    BodyCalls(section);
    var entered :=
        MapRead(b, START, 2,
                [PutKey(1)] + ([PutArray(n)] + (buses + ([PutKey(2)] + ([PutArray(m)] + (devices + []))))));
    var keyed := KeyRead(b, entered, 1, [PutArray(n)] + (buses + ([PutKey(2)] + ([PutArray(m)] + (devices + [])))));
    var listed := ArrayRead(b, keyed, n, buses + ([PutKey(2)] + ([PutArray(m)] + (devices + []))));
    FromFirst(section);
    var first := BusesRead(b, listed, section.buses, 0, [], [PutKey(2)] + ([PutArray(m)] + (devices + [])));
    var keyed2 := KeyRead(b, first, 2, [PutArray(m)] + (devices + []));
    var listed2 := ArrayRead(b, keyed2, m, devices + []);
    var last := DevicesRead(b, listed2, answer, section.devices, 0, RawBuses(section.buses), []);
    assert [] + RawBuses(section.buses) == RawBuses(section.buses);
    var half := BodySlots(Some(()), None, RawBuses(section.buses));
    var full := BodySlots(Some(()), Some(()), RawRows(section));
    assert BodyField(b, keyed, answer, 1, NO_BODY) == Success((half, first));
    assert BodyField(b, keyed2, answer, 2, half) == Success((full, last));
    TwoFields(b, entered, answer, keyed, half, first, keyed2, full, last);
    DueNothing(b, last);
  }

  lemma FromFirst(section: Section)
    ensures section.buses[0..] == section.buses && section.devices[0..] == section.devices
    ensures [] + RawBuses(section.buses[..0]) == []
            && forall rows: seq<Row> :: rows + RawDevices(section.devices[..0]) == rows
  {}

  lemma SectionShaped(section: Section)
    requires Shaped(SectionTree(section))
    ensures ItemCount(BusItems(section.buses)) <= USIZE_MAX && ShapedItems(BusItems(section.buses))
    ensures ItemCount(DeviceItems(section.devices)) <= USIZE_MAX && ShapedItems(DeviceItems(section.devices))
  {
    hide ItemCount, ShapedItems, BusItems, DeviceItems;
    var inner := APair(2, List(DeviceItems(section.devices)), NoPair);
    var outer := APair(1, List(BusItems(section.buses)), inner);
    assert SectionTree(section) == Dict(outer) && ShapedPairs(outer);
    assert Shaped(outer.value) && ShapedPairs(inner);
    assert Shaped(inner.value);
  }

  lemma BodyCalls(section: Section)
    requires Shaped(SectionTree(section))
    requires ItemCount(BusItems(section.buses)) <= USIZE_MAX && ShapedItems(BusItems(section.buses))
    requires ItemCount(DeviceItems(section.devices)) <= USIZE_MAX && ShapedItems(DeviceItems(section.devices))
    ensures TreeCalls(SectionTree(section)) ==
            [PutMap(2)] +
            ([PutKey(1)] + ([PutArray(ItemCount(BusItems(section.buses)))] + (ItemCalls(BusItems(section.buses)) +
            ([PutKey(2)] + ([PutArray(ItemCount(DeviceItems(section.devices)))] +
                            (ItemCalls(DeviceItems(section.devices)) + []))))))
  {
    hide BusItems, DeviceItems, PairCalls, PairCount, TreeCalls, ItemCalls, ItemCount, ShapedItems;
    var buses, devices := List(BusItems(section.buses)), List(DeviceItems(section.devices));
    TwoLists(buses, devices);
    ListCalls(BusItems(section.buses));
    ListCalls(DeviceItems(section.devices));
  }

  lemma ListCalls(items: Items)
    requires Shaped(List(items))
    ensures TreeCalls(List(items)) == [PutArray(ItemCount(items))] + ItemCalls(items)
  {}

  lemma TwoLists(first: Tree, second: Tree)
    requires Shaped(Dict(APair(1, first, APair(2, second, NoPair))))
    ensures Shaped(first) && Shaped(second)
    ensures TreeCalls(Dict(APair(1, first, APair(2, second, NoPair)))) ==
            [PutMap(2)] + ([PutKey(1)] + TreeCalls(first) + ([PutKey(2)] + TreeCalls(second) + []))
  {
    var inner := APair(2, second, NoPair);
    var outer := APair(1, first, inner);
    assert ShapedPairs(outer) && ShapedPairs(inner) && PairCount(inner) == 1 && PairCount(outer) == 2;
    assert PairCalls(inner) == [PutKey(2)] + TreeCalls(second) + PairCalls(NoPair);
    assert PairCalls(outer) == [PutKey(1)] + TreeCalls(first) + PairCalls(inner);
  }

  lemma TwoFields(b: seq<byte>, s: ReaderState, answer: bool, keyed: ReaderState, half: BodySlots, first: ReaderState,
                  keyed2: ReaderState, full: BodySlots, last: ReaderState)
    requires Within(b, s) && Get(b, s, AsKey) == Success((1, keyed))
    requires BodyField(b, keyed, answer, 1, NO_BODY) == Success((half, first))
    requires Get(b, first, AsKey) == Success((2, keyed2))
    requires BodyField(b, keyed2, answer, 2, half) == Success((full, last))
    ensures BodyFields(b, s, answer, 2, NO_BODY) == Success((full, last))
  {
    hide Get, BodyField;
    assert BodyFields(b, last, answer, 0, full) == Success((full, last));
    assert BodyFields(b, first, answer, 1, half) == BodyFields(b, last, answer, 0, full);
  }

  lemma DueNothing(b: seq<byte>, s: ReaderState)
    requires Due(b, s, [])
    ensures Within(b, s) && Finished(b, s) == Success(())
  {}

  // ---------------------------------------------------------------------------
  // Values.

  lemma BusSame(e: BusEntry)
    ensures BusValueFault(BusArrives(e)).None? && BusValue(BusArrives(e)) == e
  {}

  lemma DeviceSame(d: DeviceEntry)
    ensures DeviceValueFault(DeviceArrives(d)).None? && DeviceValue(DeviceArrives(d)) == d
  {
    OptionsSame(d.options);
    hide OptionsValueFault, OptionsValue, RawOptions;
  }

  lemma OptionsSame(o: DeviceOptions)
    ensures OptionsValueFault(RawOptions(o)).None? && OptionsValue(RawOptions(o)) == o
  {}

  /** The rows of a section spell it, with no fault in them. */
  lemma {:induction false} RowsSpell(s: Section)
    requires Fits(s)
    ensures FirstFault(RawRows(s)).None? && Spelled(RawRows(s)) == s
    decreases |s.buses| + |s.devices|
  {
    hide BusValueFault, DeviceValueFault, BusValue, DeviceValue, BusArrives, DeviceArrives, FirstFault, Spelled;
    if s.devices != [] {
      var d, fewer := s.devices[|s.devices| - 1], s.devices[..|s.devices| - 1];
      RowsSpell(Section(s.buses, fewer));
      DeviceSame(d);
      var earlier := RawRows(Section(s.buses, fewer));
      OneRowMore(earlier, DeviceRow(DeviceArrives(d)));
      assert RawRows(s) == earlier + [DeviceRow(DeviceArrives(d))];
      assert s.devices == fewer + [d];
    } else if s.buses != [] {
      var e, fewer := s.buses[|s.buses| - 1], s.buses[..|s.buses| - 1];
      RowsSpell(Section(fewer, []));
      BusSame(e);
      var earlier := RawRows(Section(fewer, []));
      OneRowMore(earlier, BusRow(BusArrives(e)));
      assert RawRows(s) == earlier + [BusRow(BusArrives(e))];
      assert s.buses == fewer + [e];
    } else {
      NoRows();
      assert RawRows(s) == [];
    }
  }

  // ---------------------------------------------------------------------------
  // The round trip.

  /** The body a section encodes to, and why not. */
  function EncodeBody(s: Section, answer: bool, capacity: nat): Result<seq<byte>, ConfigError>
    requires Fits(s)
  {
    if answer && AscentFault(s).Some? then Failure(AscentFault(s).value)
    else
      SectionCosts(s);
      match WriteThrough(EMPTY, capacity, TreeCalls(SectionTree(s)))
      case Failure(why) => Failure(Cbor(why))
      case Success(written) => Success(written.out)
  }

  /**
   A section whose bus entries each set something, and which for an answer names
   every device and ascends, encodes wherever it fits, in 901 bytes at most, and
   decodes back to itself.
   */
  lemma SectionReadsBack(s: Section, answer: bool, capacity: nat)
    requires Fits(s) && EachSets(s.buses)
    requires answer ==> Answer(s) && AscentFault(s).None?
    ensures CborTrees.Sound(SectionTree(s)) && TreeSize(SectionTree(s)) <= MAX_SECTION_BYTES
    ensures var body := EncodeBody(s, answer, capacity);
            && (body.Success? <==> TreeSize(SectionTree(s)) <= capacity)
            && (body.Success?
                ==> |body.value| == TreeSize(SectionTree(s)) && DecodeBody(body.value, answer) == Success(s))
  {
    hide SectionTree, TreeSize, TreeCalls, ParseBody, FirstFault, Spelled, RawRows, WriteThrough, ReadsBack;
    SectionCosts(s);
    TreeRoundTrip(SectionTree(s), capacity);
    RowsSpell(s);
    var body := EncodeBody(s, answer, capacity);
    if body.Success? {
      BodyRead(body.value, s, answer);
    }
  }

}
