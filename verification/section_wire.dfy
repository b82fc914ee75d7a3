/**
 The section's bytes: what an encoder writes, and a decoder that reads a body's
 whole structure before it judges any value.
 */
module SectionWire {
  import opened Bytes
  import opened Wrappers
  import opened CborHeads
  import opened CborWriters
  import opened CborTrees
  import opened Sections

  // ---------------------------------------------------------------------------
  // Wire numbers.

  datatype Direction = PositiveIn | PositiveOut | MagnitudeOnly

  function DataBitsWire(bits: DataBits): u64 { if bits.Seven? then 7 else 8 }

  function DataBitsOf(wire: nat): Option<DataBits> {
    if wire == 7 then Some(Seven) else if wire == 8 then Some(Eight) else None
  }

  function StopBitsWire(bits: StopBits): u64 { if bits.One? then 1 else 2 }

  function StopBitsOf(wire: nat): Option<StopBits> {
    if wire == 1 then Some(One) else if wire == 2 then Some(Two) else None
  }

  function ParityWire(parity: Parity): u64 {
    match parity
    case NoParity => 1
    case Even => 2
    case Odd => 3
  }

  function ParityOf(wire: nat): Option<Parity> {
    if wire == 1 then Some(NoParity) else if wire == 2 then Some(Even) else if wire == 3 then Some(Odd) else None
  }

  function DirectionWire(direction: CurrentDirection): u64 { if direction.PositiveIsIn? then 1 else 2 }

  function DirectionOf(wire: nat): Option<Direction> {
    if wire == 1 then Some(PositiveIn) else if wire == 2 then Some(PositiveOut)
    else if wire == 3 then Some(MagnitudeOnly) else None
  }

  function VersionWire(version: PylontechVersion): u64 { if version.V12? then 1 else 2 }

  function VersionOf(wire: nat): Option<PylontechVersion> {
    if wire == 1 then Some(V12) else if wire == 2 then Some(V13) else None
  }

  // ---------------------------------------------------------------------------
  // Writing.

  function Number(n: u64): Tree { Leaf(PutU64(n)) }

  /** A pair left out when there is nothing to say. */
  function IfSet(key: nat, value: Option<Call>, others: KeyedItems): KeyedItems {
    if value.None? then others else APair(key, Leaf(value.value), others)
  }

  function RateCall(rate: Option<NonZeroU32>): Option<Call> { if rate.None? then None else Some(PutU64(rate.value)) }

  function DataBitsCall(bits: Option<DataBits>): Option<Call> {
    if bits.None? then None else Some(PutU64(DataBitsWire(bits.value)))
  }

  function ParityCall(parity: Option<Parity>): Option<Call> {
    if parity.None? then None else Some(PutU64(ParityWire(parity.value)))
  }

  function StopBitsCall(bits: Option<StopBits>): Option<Call> {
    if bits.None? then None else Some(PutU64(StopBitsWire(bits.value)))
  }

  function BusTree(b: BusEntry): Tree {
    Dict(APair(1, Number(b.bus),
               IfSet(2, RateCall(b.rate),
                     IfSet(3, DataBitsCall(b.dataBits),
                           IfSet(4, ParityCall(b.parity),
                                 IfSet(5, StopBitsCall(b.stopBits), NoPair))))))
  }

  function DirectionCall(direction: Option<CurrentDirection>): Option<Call> {
    if direction.None? then None else Some(PutU64(DirectionWire(direction.value)))
  }

  function VersionCall(version: Option<PylontechVersion>): Option<Call> {
    if version.None? then None else Some(PutU64(VersionWire(version.value)))
  }

  function LowVoltageCall(low: Option<bool>): Option<Call> { if low.None? then None else Some(PutBool(low.value)) }

  function PollCall(period: Option<u32>): Option<Call> { if period.None? then None else Some(PutU64(period.value)) }

  function OptionsTree(o: DeviceOptions): Tree {
    Dict(IfSet(1, DirectionCall(o.currentDirection),
               IfSet(2, VersionCall(o.pylontechVersion),
                     IfSet(3, LowVoltageCall(o.veDirect3v3),
                           IfSet(4, PollCall(o.pollPeriod), NoPair)))))
  }

  function DevCall(dev: Option<DevId>): Option<Call> { if dev.None? then None else Some(PutU64(dev.value)) }

  function AddrCall(addr: Option<Addr>): Option<Call> { if addr.None? then None else Some(PutBytes(addr.value)) }

  function OptionsPair(o: DeviceOptions): KeyedItems {
    if o == NO_OPTIONS then NoPair else APair(8, OptionsTree(o), NoPair)
  }

  function DeviceTree(d: DeviceEntry): Tree {
    Dict(IfSet(1, DevCall(d.dev),
               APair(2, Number(d.bus),
                     IfSet(3, AddrCall(d.addr),
                           APair(4, Number(d.product),
                                 APair(5, Number(d.dialect),
                                       APair(6, Number(d.role),
                                             IfSet(7, DevCall(d.parent), OptionsPair(d.options)))))))))
  }

  function BusItems(buses: seq<BusEntry>): Items {
    if buses == [] then NoItem else AnItem(BusTree(buses[0]), BusItems(buses[1..]))
  }

  function DeviceItems(devices: seq<DeviceEntry>): Items {
    if devices == [] then NoItem else AnItem(DeviceTree(devices[0]), DeviceItems(devices[1..]))
  }

  function SectionTree(s: Section): Tree {
    Dict(APair(1, List(BusItems(s.buses)), APair(2, List(DeviceItems(s.devices)), NoPair)))
  }

  // ---------------------------------------------------------------------------
  // What it costs.

  /** A map's pairs: how many at most, how deep, and how many bytes. */
  predicate Costs(pairs: KeyedItems, last: int, height: nat, count: nat, size: nat) {
    && ShapedPairs(pairs) && OrderedPairs(pairs, last)
    && PairsHeight(pairs) <= height && PairCount(pairs) <= count && PairsSize(pairs) <= size
  }

  predicate TreeCosts(t: Tree, height: nat, size: nat) {
    Shaped(t) && Ordered(t) && Height(t) <= height && TreeSize(t) <= size
  }

  lemma NoPairCosts(last: int)
    ensures Costs(NoPair, last, 0, 0, 0)
  {}

  lemma PairCosts(key: nat, value: Tree, others: KeyedItems, last: int, height: nat, count: nat, size: nat, cost: nat)
    requires last < key < 24 && Costs(others, key, height, count, size) && TreeCosts(value, height, cost)
    ensures Costs(APair(key, value, others), last, height, count + 1, size + 1 + cost)
  {}

  lemma IfSetCosts(key: nat, value: Option<Call>, others: KeyedItems, last: int, height: nat, count: nat, size: nat,
                   cost: nat)
    requires last < key < 24 && Costs(others, key, height, count, size)
    requires value.Some? ==> TreeCosts(Leaf(value.value), 0, cost)
    ensures Costs(IfSet(key, value, others), last, height, count + 1, size + 1 + cost)
  {
    if value.Some? {
      PairCosts(key, Leaf(value.value), others, last, height, count, size, cost);
    }
  }

  lemma DictCosts(pairs: KeyedItems, height: nat, count: nat, size: nat)
    requires Costs(pairs, -1, height, count, size) && count < 24
    ensures TreeCosts(Dict(pairs), height + 1, size + 1)
  {}

  lemma NumberCosts(n: u64, most: u64)
    requires n <= most
    ensures TreeCosts(Number(n), 0, 1 + Width(most))
  {}

  lemma BoolCosts(value: bool)
    ensures TreeCosts(Leaf(PutBool(value)), 0, 1)
  {}

  lemma AddrCosts(addr: Addr)
    ensures TreeCosts(Leaf(PutBytes(addr)), 0, 9)
  {
    hide HeadBytes;
    var raw: seq<byte> := addr;
    assert |HeadBytes(ByteString, |raw|) + raw| == |HeadBytes(ByteString, |raw|)| + |raw|;
  }

  lemma SettingCosts(value: Option<Call>)
    requires value.Some? ==> value.value.PutBool? || (value.value.PutU64? && value.value.number < 24)
    ensures value.Some? ==> TreeCosts(Leaf(value.value), 0, 1)
  {
    hide TreeCosts;
    if value.Some? {
      if value.value.PutBool? { BoolCosts(value.value.flag); } else { NumberCosts(value.value.number, 23); }
    }
  }

  lemma WideCosts(value: Option<Call>, most: u64)
    requires value.Some? ==> value.value.PutU64? && value.value.number <= most
    ensures value.Some? ==> TreeCosts(Leaf(value.value), 0, 1 + Width(most))
  {
    hide TreeCosts, Width;
    if value.Some? { NumberCosts(value.value.number, most); }
  }

  /** A bus entry costs sixteen bytes at the most. */
  lemma BusCosts(b: BusEntry)
    ensures TreeCosts(BusTree(b), 1, 16)
  {
    hide Costs, TreeCosts, IfSet;
    var stop := IfSet(5, StopBitsCall(b.stopBits), NoPair);
    var parity := IfSet(4, ParityCall(b.parity), stop);
    var bits := IfSet(3, DataBitsCall(b.dataBits), parity);
    var rate := IfSet(2, RateCall(b.rate), bits);
    NoPairCosts(5);
    SettingCosts(StopBitsCall(b.stopBits));
    IfSetCosts(5, StopBitsCall(b.stopBits), NoPair, 4, 0, 0, 0, 1);
    SettingCosts(ParityCall(b.parity));
    IfSetCosts(4, ParityCall(b.parity), stop, 3, 0, 1, 2, 1);
    SettingCosts(DataBitsCall(b.dataBits));
    IfSetCosts(3, DataBitsCall(b.dataBits), parity, 2, 0, 2, 4, 1);
    WideCosts(RateCall(b.rate), 0xFFFF_FFFF);
    IfSetCosts(2, RateCall(b.rate), bits, 1, 0, 3, 6, 5);
    NumberCosts(b.bus, 0xFF);
    PairCosts(1, Number(b.bus), rate, -1, 0, 4, 12, 2);
    DictCosts(APair(1, Number(b.bus), rate), 0, 5, 15);
  }

  lemma OptionsCosts(o: DeviceOptions)
    ensures TreeCosts(OptionsTree(o), 1, 13)
  {
    hide Costs, TreeCosts, IfSet;
    var poll := IfSet(4, PollCall(o.pollPeriod), NoPair);
    var low := IfSet(3, LowVoltageCall(o.veDirect3v3), poll);
    var version := IfSet(2, VersionCall(o.pylontechVersion), low);
    NoPairCosts(4);
    WideCosts(PollCall(o.pollPeriod), 0xFFFF_FFFF);
    IfSetCosts(4, PollCall(o.pollPeriod), NoPair, 3, 0, 0, 0, 5);
    SettingCosts(LowVoltageCall(o.veDirect3v3));
    IfSetCosts(3, LowVoltageCall(o.veDirect3v3), poll, 2, 0, 1, 6, 1);
    SettingCosts(VersionCall(o.pylontechVersion));
    IfSetCosts(2, VersionCall(o.pylontechVersion), low, 1, 0, 2, 8, 1);
    SettingCosts(DirectionCall(o.currentDirection));
    IfSetCosts(1, DirectionCall(o.currentDirection), version, -1, 0, 3, 10, 1);
    DictCosts(IfSet(1, DirectionCall(o.currentDirection), version), 0, 4, 12);
  }

  lemma OptionsPairCosts(o: DeviceOptions)
    ensures Costs(OptionsPair(o), 7, 1, 1, 14)
  {
    hide OptionsTree;
    if o != NO_OPTIONS {
      OptionsCosts(o);
      NoPairCosts(8);
      PairCosts(8, OptionsTree(o), NoPair, 7, 1, 0, 0, 13);
    }
  }

  /** A device entry costs forty-eight bytes at the most. */
  lemma DeviceCosts(d: DeviceEntry)
    ensures TreeCosts(DeviceTree(d), 2, 48)
  {
    hide Costs, TreeCosts, IfSet, OptionsPair, Number;
    var parent := IfSet(7, DevCall(d.parent), OptionsPair(d.options));
    OptionsPairCosts(d.options);
    WideCosts(DevCall(d.parent), 0xFFFF);
    IfSetCosts(7, DevCall(d.parent), OptionsPair(d.options), 6, 1, 1, 14, 3);
    var role := APair(6, Number(d.role), parent);
    NumberCosts(d.role, 0xFFFF);
    PairCosts(6, Number(d.role), parent, 5, 1, 2, 18, 3);
    var dialect := APair(5, Number(d.dialect), role);
    NumberCosts(d.dialect, 0xFFFF);
    PairCosts(5, Number(d.dialect), role, 4, 1, 3, 22, 3);
    var product := APair(4, Number(d.product), dialect);
    NumberCosts(d.product, 0xFFFF);
    PairCosts(4, Number(d.product), dialect, 3, 1, 4, 26, 3);
    var addr := IfSet(3, AddrCall(d.addr), product);
    if d.addr.Some? { AddrCosts(d.addr.value); }
    IfSetCosts(3, AddrCall(d.addr), product, 2, 1, 5, 30, 9);
    var bus := APair(2, Number(d.bus), addr);
    NumberCosts(d.bus, 0xFF);
    PairCosts(2, Number(d.bus), addr, 1, 1, 6, 40, 2);
    WideCosts(DevCall(d.dev), 0xFFFF);
    IfSetCosts(1, DevCall(d.dev), bus, -1, 1, 7, 43, 3);
    DictCosts(IfSet(1, DevCall(d.dev), bus), 1, 8, 47);
  }

  predicate ItemsCost(items: Items, height: nat, count: nat, size: nat) {
    && ShapedItems(items) && OrderedItems(items) && ItemsHeight(items) <= height
    && ItemCount(items) == count && ItemsSize(items) <= size
  }

  lemma {:induction false} BusItemsCost(buses: seq<BusEntry>)
    ensures ItemsCost(BusItems(buses), 1, |buses|, 16 * |buses|)
  {
    hide BusTree;
    if buses != [] {
      BusCosts(buses[0]);
      BusItemsCost(buses[1..]);
    }
  }

  lemma {:induction false} DeviceItemsCost(devices: seq<DeviceEntry>)
    ensures ItemsCost(DeviceItems(devices), 2, |devices|, 48 * |devices|)
  {
    hide DeviceTree;
    if devices != [] {
      DeviceCosts(devices[0]);
      DeviceItemsCost(devices[1..]);
    }
  }

  lemma ListCosts(items: Items, height: nat, count: nat, size: nat)
    requires ItemsCost(items, height, count, size) && count < 24
    ensures TreeCosts(List(items), height + 1, size + 1)
  {}

  const MAX_SECTION_BYTES: nat := 901

  /** Every section is a tree the writer takes, of at most 901 bytes. */
  lemma SectionCosts(s: Section)
    requires Fits(s)
    ensures CborTrees.Sound(SectionTree(s)) && Height(SectionTree(s)) <= 4
    ensures TreeSize(SectionTree(s)) <= 5 + 16 * |s.buses| + 48 * |s.devices| <= MAX_SECTION_BYTES
  {
    hide Costs, ItemsCost;
    BusItemsCost(s.buses);
    DeviceItemsCost(s.devices);
    var buses, devices := List(BusItems(s.buses)), List(DeviceItems(s.devices));
    ListCosts(BusItems(s.buses), 1, |s.buses|, 16 * |s.buses|);
    ListCosts(DeviceItems(s.devices), 2, |s.devices|, 48 * |s.devices|);
    NoPairCosts(2);
    PairsAt(buses, devices, 16 * |s.buses| + 1, 48 * |s.devices| + 1);
  }

  lemma PairsAt(buses: Tree, devices: Tree, first: nat, second: nat)
    requires TreeCosts(buses, 2, first) && TreeCosts(devices, 3, second)
    ensures TreeCosts(Dict(APair(1, buses, APair(2, devices, NoPair))), 4, first + second + 3)
  {
    hide Costs, TreeCosts;
    NoPairCosts(2);
    PairCosts(2, devices, NoPair, 1, 3, 0, 0, second);
    Taller(buses, first);
    PairCosts(1, buses, APair(2, devices, NoPair), -1, 3, 1, 1 + second, first);
    DictCosts(APair(1, buses, APair(2, devices, NoPair)), 3, 2, 2 + first + second);
  }

  lemma Taller(t: Tree, size: nat)
    requires TreeCosts(t, 2, size)
    ensures TreeCosts(t, 3, size)
  {}
}
