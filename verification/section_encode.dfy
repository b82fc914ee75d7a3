/** The encoder as it runs: a writer driven call by call, stopping at its first refusal. */
module SectionEncode {
  import opened Bytes
  import opened Wrappers
  import opened CborHeads
  import opened CborWriters
  import opened CborTrees
  import opened CborDriving
  import opened Sections
  import opened SectionWire
  import opened SectionParse
  import opened SectionRoundTrip

  /** Some of `before` was written and `after` is left, or a refusal ended it. */
  twostate predicate Continues(cbor: CborWriter, new r: Result<(), CborError>, before: seq<Call>, after: seq<Call>)
    requires old(cbor.Valid())
    reads cbor, cbor.dst
  {
    && cbor.Valid()
    && WriteThrough(old(cbor.State()), cbor.dst.Length, before) ==
       if r.Failure? then Failure(r.error) else WriteThrough(cbor.State(), cbor.dst.Length, after)
  }

  method EncodeIfSet(cbor: CborWriter, key: nat, value: Option<Call>, ghost others: KeyedItems)
      returns (r: Result<(), CborError>)
    requires cbor.Valid() && key < 24 && ShapedPairs(others)
    requires value.Some? ==> value.value.PutU64? || value.value.PutBool? || value.value.PutBytes?
    modifies cbor, cbor.dst
    ensures ShapedPairs(IfSet(key, value, others))
    ensures Continues(cbor, r, PairCalls(IfSet(key, value, others)), PairCalls(others))
  {
    hide WriteThrough;
    if value.None? {
      return Success(());
    }
    ghost var start, pair := cbor.State(), [PutKey(key), value.value];
    assert PairCalls(IfSet(key, value, others)) == pair + PairCalls(others);
    ThroughBoth(start, cbor.dst.Length, pair, PairCalls(others));
    r := PutPair(cbor, key, value.value);
  }

  lemma NothingLeft(s: WriterState, capacity: nat)
    ensures WriteThrough(s, capacity, []) == Success(s) && PairCalls(NoPair) == [] && ItemCalls(NoItem) == []
  {}

  lemma IfSetCount(key: nat, value: Option<Call>, others: KeyedItems)
    ensures PairCount(IfSet(key, value, others)) == PairCount(others) + if value.Some? then 1 else 0
  {}

  lemma BusCount(e: BusEntry)
    ensures PairCount(BusTree(e).pairs) == 1 + (if e.rate.Some? then 1 else 0) + (if e.dataBits.Some? then 1 else 0)
                                             + (if e.parity.Some? then 1 else 0) + (if e.stopBits.Some? then 1 else 0)
  {
    hide IfSet;
    var p5 := IfSet(5, StopBitsCall(e.stopBits), NoPair);
    var p4 := IfSet(4, ParityCall(e.parity), p5);
    IfSetCount(5, StopBitsCall(e.stopBits), NoPair);
    IfSetCount(4, ParityCall(e.parity), p5);
    IfSetCount(3, DataBitsCall(e.dataBits), p4);
    IfSetCount(2, RateCall(e.rate), IfSet(3, DataBitsCall(e.dataBits), p4));
  }

  /** The pairs an entry's map announces are the pairs it writes. */
  function BusPairs(e: BusEntry): (pairs: nat)
    ensures pairs == PairCount(BusTree(e).pairs)
  {
    BusCount(e);
    1 + (if e.rate.Some? then 1 else 0) + (if e.dataBits.Some? then 1 else 0)
      + (if e.parity.Some? then 1 else 0) + (if e.stopBits.Some? then 1 else 0)
  }

  method EncodeBus(cbor: CborWriter, e: BusEntry) returns (r: Result<(), CborError>)
    requires cbor.Valid() && Shaped(BusTree(e))
    modifies cbor, cbor.dst
    ensures Ran(cbor, r, TreeCalls(BusTree(e)))
  {
    hide WriteThrough, IfSet, PairCalls, Write, Emission;
    ghost var start, capacity := cbor.State(), cbor.dst.Length;
    BusPartsShaped(e);
    ghost var p5 := IfSet(5, StopBitsCall(e.stopBits), NoPair);
    ghost var p4 := IfSet(4, ParityCall(e.parity), p5);
    ghost var p3 := IfSet(3, DataBitsCall(e.dataBits), p4);
    ghost var p2 := IfSet(2, RateCall(e.rate), p3);
    ghost var pairs := APair(1, Number(e.bus), p2);
    ThroughBoth(start, capacity, [PutMap(BusPairs(e))], PairCalls(pairs));
    RanOne(start, capacity, PutMap(BusPairs(e)));
    r := cbor.Map(BusPairs(e));
    if r.Failure? {
      return;
    }
    Always(1, e.bus, p2);
    r := EncodeIfSet(cbor, 1, Some(PutU64(e.bus)), p2);
    if r.Failure? {
      return;
    }
    r := EncodeIfSet(cbor, 2, RateCall(e.rate), p3);
    if r.Failure? {
      return;
    }
    r := EncodeIfSet(cbor, 3, DataBitsCall(e.dataBits), p4);
    if r.Failure? {
      return;
    }
    r := EncodeIfSet(cbor, 4, ParityCall(e.parity), p5);
    if r.Failure? {
      return;
    }
    r := EncodeIfSet(cbor, 5, StopBitsCall(e.stopBits), NoPair);
    NothingLeft(cbor.State(), capacity);
  }

  lemma OptionCount(o: DeviceOptions)
    ensures |OptionsSet(o)| == PairCount(OptionsTree(o).pairs)
  {
    hide IfSet;
    var p4 := IfSet(4, PollCall(o.pollPeriod), NoPair);
    var p3 := IfSet(3, LowVoltageCall(o.veDirect3v3), p4);
    IfSetCount(4, PollCall(o.pollPeriod), NoPair);
    IfSetCount(3, LowVoltageCall(o.veDirect3v3), p4);
    IfSetCount(2, VersionCall(o.pylontechVersion), p3);
    IfSetCount(1, DirectionCall(o.currentDirection), IfSet(2, VersionCall(o.pylontechVersion), p3));
  }

  function OptionPairs(o: DeviceOptions): (pairs: nat)
    ensures pairs == PairCount(OptionsTree(o).pairs)
  {
    OptionCount(o);
    |OptionsSet(o)|
  }

  method EncodeOptions(cbor: CborWriter, o: DeviceOptions) returns (r: Result<(), CborError>)
    requires cbor.Valid() && Shaped(OptionsTree(o))
    modifies cbor, cbor.dst
    ensures Ran(cbor, r, TreeCalls(OptionsTree(o)))
  {
    hide WriteThrough, IfSet, PairCalls, Write, Emission, OptionsSet;
    ghost var start, capacity := cbor.State(), cbor.dst.Length;
    ghost var p4 := IfSet(4, PollCall(o.pollPeriod), NoPair);
    ghost var p3 := IfSet(3, LowVoltageCall(o.veDirect3v3), p4);
    ghost var p2 := IfSet(2, VersionCall(o.pylontechVersion), p3);
    ghost var pairs := IfSet(1, DirectionCall(o.currentDirection), p2);
    ShapedRest(1, DirectionCall(o.currentDirection), p2);
    ShapedRest(2, VersionCall(o.pylontechVersion), p3);
    ShapedRest(3, LowVoltageCall(o.veDirect3v3), p4);
    ThroughBoth(start, capacity, [PutMap(OptionPairs(o))], PairCalls(pairs));
    RanOne(start, capacity, PutMap(OptionPairs(o)));
    r := cbor.Map(OptionPairs(o));
    if r.Failure? {
      return;
    }
    r := EncodeIfSet(cbor, 1, DirectionCall(o.currentDirection), p2);
    if r.Failure? {
      return;
    }
    r := EncodeIfSet(cbor, 2, VersionCall(o.pylontechVersion), p3);
    if r.Failure? {
      return;
    }
    r := EncodeIfSet(cbor, 3, LowVoltageCall(o.veDirect3v3), p4);
    if r.Failure? {
      return;
    }
    r := EncodeIfSet(cbor, 4, PollCall(o.pollPeriod), NoPair);
    NothingLeft(cbor.State(), capacity);
  }

  lemma DeviceCount(d: DeviceEntry)
    ensures PairCount(DeviceTree(d).pairs) == 4 + (if d.dev.Some? then 1 else 0) + (if d.addr.Some? then 1 else 0)
                                                + (if d.parent.Some? then 1 else 0)
                                                + (if d.options != NO_OPTIONS then 1 else 0)
  {
    hide IfSet, OptionsTree;
    var p7 := IfSet(7, DevCall(d.parent), OptionsPair(d.options));
    var p6 := APair(6, Number(d.role), p7);
    var p5 := APair(5, Number(d.dialect), p6);
    var p4 := APair(4, Number(d.product), p5);
    var p3 := IfSet(3, AddrCall(d.addr), p4);
    var p2 := APair(2, Number(d.bus), p3);
    IfSetCount(7, DevCall(d.parent), OptionsPair(d.options));
    assert PairCount(p6) == 1 + PairCount(p7) && PairCount(p5) == 1 + PairCount(p6)
           && PairCount(p4) == 1 + PairCount(p5);
    IfSetCount(3, AddrCall(d.addr), p4);
    assert PairCount(p2) == 1 + PairCount(p3);
    IfSetCount(1, DevCall(d.dev), p2);
  }

  function DevicePairs(d: DeviceEntry): (pairs: nat)
    ensures pairs == PairCount(DeviceTree(d).pairs)
  {
    DeviceCount(d);
    4 + (if d.dev.Some? then 1 else 0) + (if d.addr.Some? then 1 else 0)
      + (if d.parent.Some? then 1 else 0) + (if d.options != NO_OPTIONS then 1 else 0)
  }

  /** The options under their key, or nothing when none is set. */
  method EncodeOptionsIfSet(cbor: CborWriter, o: DeviceOptions) returns (r: Result<(), CborError>)
    requires cbor.Valid() && ShapedPairs(OptionsPair(o))
    modifies cbor, cbor.dst
    ensures Ran(cbor, r, PairCalls(OptionsPair(o)))
  {
    hide WriteThrough, Write, Emission, OptionsTree;
    ghost var start, capacity := cbor.State(), cbor.dst.Length;
    if o == NO_OPTIONS {
      NothingLeft(start, capacity);
      return Success(());
    }
    assert PairCalls(OptionsPair(o)) == [PutKey(8)] + TreeCalls(OptionsTree(o));
    ThroughBoth(start, capacity, [PutKey(8)], TreeCalls(OptionsTree(o)));
    RanOne(start, capacity, PutKey(8));
    r := cbor.Key(8);
    if r.Failure? {
      return;
    }
    r := EncodeOptions(cbor, o);
  }

  method EncodeDevice(cbor: CborWriter, d: DeviceEntry) returns (r: Result<(), CborError>)
    requires cbor.Valid() && Shaped(DeviceTree(d))
    modifies cbor, cbor.dst
    ensures Ran(cbor, r, TreeCalls(DeviceTree(d)))
  {
    hide WriteThrough, IfSet, PairCalls, Write, Emission, OptionsPair, Number;
    ghost var start, capacity := cbor.State(), cbor.dst.Length;
    ghost var p7 := IfSet(7, DevCall(d.parent), OptionsPair(d.options));
    ghost var p6 := APair(6, Number(d.role), p7);
    ghost var p5 := APair(5, Number(d.dialect), p6);
    ghost var p4 := APair(4, Number(d.product), p5);
    ghost var p3 := IfSet(3, AddrCall(d.addr), p4);
    ghost var p2 := APair(2, Number(d.bus), p3);
    ghost var pairs := IfSet(1, DevCall(d.dev), p2);
    ShapedRest(1, DevCall(d.dev), p2);
    Always(2, d.bus, p3);
    ShapedRest(3, AddrCall(d.addr), p4);
    Always(4, d.product, p5);
    Always(5, d.dialect, p6);
    Always(6, d.role, p7);
    ShapedRest(7, DevCall(d.parent), OptionsPair(d.options));
    ThroughBoth(start, capacity, [PutMap(DevicePairs(d))], PairCalls(pairs));
    RanOne(start, capacity, PutMap(DevicePairs(d)));
    r := cbor.Map(DevicePairs(d));
    if r.Failure? {
      return;
    }
    r := EncodeIfSet(cbor, 1, DevCall(d.dev), p2);
    if r.Failure? {
      return;
    }
    r := EncodeIfSet(cbor, 2, Some(PutU64(d.bus)), p3);
    if r.Failure? {
      return;
    }
    r := EncodeIfSet(cbor, 3, AddrCall(d.addr), p4);
    if r.Failure? {
      return;
    }
    r := EncodeIfSet(cbor, 4, Some(PutU64(d.product)), p5);
    if r.Failure? {
      return;
    }
    r := EncodeIfSet(cbor, 5, Some(PutU64(d.dialect)), p6);
    if r.Failure? {
      return;
    }
    r := EncodeIfSet(cbor, 6, Some(PutU64(d.role)), p7);
    if r.Failure? {
      return;
    }
    r := EncodeIfSet(cbor, 7, DevCall(d.parent), OptionsPair(d.options));
    if r.Failure? {
      return;
    }
    r := EncodeOptionsIfSet(cbor, d.options);
  }

  lemma BusItemsFrom(buses: seq<BusEntry>, i: nat)
    requires i < |buses|
    ensures BusItems(buses[i..]) == AnItem(BusTree(buses[i]), BusItems(buses[i + 1..]))
  {
    assert buses[i..][1..] == buses[i + 1..];
  }

  lemma DeviceItemsFrom(devices: seq<DeviceEntry>, i: nat)
    requires i < |devices|
    ensures DeviceItems(devices[i..]) == AnItem(DeviceTree(devices[i]), DeviceItems(devices[i + 1..]))
  {
    assert devices[i..][1..] == devices[i + 1..];
  }

  method EncodeBuses(cbor: CborWriter, buses: seq<BusEntry>) returns (r: Result<(), CborError>)
    requires cbor.Valid() && ShapedItems(BusItems(buses))
    modifies cbor, cbor.dst
    ensures Ran(cbor, r, ItemCalls(BusItems(buses)))
  {
    hide WriteThrough, BusTree, BusItems, TreeCalls;
    ghost var start, capacity := cbor.State(), cbor.dst.Length;
    assert buses[0..] == buses;
    for i := 0 to |buses|
      invariant cbor.Valid() && ShapedItems(BusItems(buses[i..]))
      invariant WriteThrough(start, capacity, ItemCalls(BusItems(buses)))
             == WriteThrough(cbor.State(), capacity, ItemCalls(BusItems(buses[i..])))
    {
      BusItemsFrom(buses, i);
      ThroughBoth(cbor.State(), capacity, TreeCalls(BusTree(buses[i])), ItemCalls(BusItems(buses[i + 1..])));
      r := EncodeBus(cbor, buses[i]);
      if r.Failure? {
        return;
      }
    }
    NoItems();
    assert buses[|buses|..] == [];
    NothingLeft(cbor.State(), capacity);
    return Success(());
  }

  method EncodeDevices(cbor: CborWriter, devices: seq<DeviceEntry>) returns (r: Result<(), CborError>)
    requires cbor.Valid() && ShapedItems(DeviceItems(devices))
    modifies cbor, cbor.dst
    ensures Ran(cbor, r, ItemCalls(DeviceItems(devices)))
  {
    hide WriteThrough, DeviceTree, DeviceItems, TreeCalls;
    ghost var start, capacity := cbor.State(), cbor.dst.Length;
    assert devices[0..] == devices;
    for i := 0 to |devices|
      invariant cbor.Valid() && ShapedItems(DeviceItems(devices[i..]))
      invariant WriteThrough(start, capacity, ItemCalls(DeviceItems(devices)))
             == WriteThrough(cbor.State(), capacity, ItemCalls(DeviceItems(devices[i..])))
    {
      DeviceItemsFrom(devices, i);
      ThroughBoth(cbor.State(), capacity, TreeCalls(DeviceTree(devices[i])), ItemCalls(DeviceItems(devices[i + 1..])));
      r := EncodeDevice(cbor, devices[i]);
      if r.Failure? {
        return;
      }
    }
    NoItems();
    assert devices[|devices|..] == [];
    NothingLeft(cbor.State(), capacity);
    return Success(());
  }

  lemma NoItems()
    ensures BusItems([]) == NoItem && DeviceItems([]) == NoItem
  {}

  method EncodeListHead(cbor: CborWriter, key: i64, count: usize) returns (r: Result<(), CborError>)
    requires cbor.Valid()
    modifies cbor, cbor.dst
    ensures Ran(cbor, r, [PutKey(key)] + [PutArray(count)])
  {
    hide WriteThrough, Write;
    ghost var start, capacity := cbor.State(), cbor.dst.Length;
    ThroughBoth(start, capacity, [PutKey(key)], [PutArray(count)]);
    RanOne(start, capacity, PutKey(key));
    r := cbor.Key(key);
    if r.Failure? {
      return;
    }
    RanOne(cbor.State(), capacity, PutArray(count));
    r := cbor.Array(count);
  }

  /** The body's calls, a list at a time. */
  lemma BodyInParts(section: Section)
    requires Fits(section)
    ensures Shaped(SectionTree(section)) && ShapedItems(BusItems(section.buses))
            && ShapedItems(DeviceItems(section.devices))
    ensures |section.buses| <= USIZE_MAX && |section.devices| <= USIZE_MAX
    ensures TreeCalls(SectionTree(section)) ==
            [PutMap(2)] + ([PutKey(1)] + [PutArray(|section.buses|)] + (ItemCalls(BusItems(section.buses)) +
            ([PutKey(2)] + [PutArray(|section.devices|)] + ItemCalls(DeviceItems(section.devices)))))
  {
    hide SectionTree, TreeCalls, ItemCalls, BusItems, DeviceItems, Shaped, ShapedItems;
    SectionCosts(section);
    SectionShaped(section);
    BodyCalls(section);
    ItemCounts(section.buses, section.devices);
    var n, m := |section.buses|, |section.devices|;
    var buses, devices := ItemCalls(BusItems(section.buses)), ItemCalls(DeviceItems(section.devices));
    assert devices + [] == devices;
    assert [PutKey(2)] + ([PutArray(m)] + devices) == [PutKey(2)] + [PutArray(m)] + devices;
    var second := [PutKey(2)] + [PutArray(m)] + devices;
    assert [PutKey(1)] + ([PutArray(n)] + (buses + second)) == [PutKey(1)] + [PutArray(n)] + (buses + second);
  }

  /**
   Fills `dst` with the specified body and gives its length, or gives the specified
   refusal, an answer out of order among them.
   */
  method Encode(section: Section, answer: bool, dst: array<byte>) returns (r: Result<nat, ConfigError>)
    requires Fits(section)
    modifies dst
    ensures match EncodeBody(section, answer, dst.Length) {
              case Failure(why) => r == Failure(why)
              case Success(body) => r == Success(|body|) && |body| <= dst.Length && dst[..|body|] == body
            }
  {
    hide WriteThrough, Write, AscentFault, BusItems, DeviceItems, ItemCalls, SectionTree, TreeCalls, CborTrees.Sound,
         TreeSize;
    if answer {
      var ascending := AscentFault(section);
      if ascending.Some? {
        return Failure(ascending.value);
      }
    }
    BodyInParts(section);
    SectionCosts(section);
    TreeRoundTrip(SectionTree(section), dst.Length);
    var cbor := new CborWriter(dst);
    var written := EncodeLists(cbor, section);
    if written.Failure? {
      return Failure(Cbor(written.error));
    }
    var finished := cbor.Finish();
    return Success(finished.value);
  }

  method EncodeLists(cbor: CborWriter, section: Section) returns (r: Result<(), CborError>)
    requires cbor.Valid() && Fits(section) && Shaped(SectionTree(section))
    modifies cbor, cbor.dst
    ensures Ran(cbor, r, TreeCalls(SectionTree(section)))
  {
    hide WriteThrough, Write, BusItems, DeviceItems, ItemCalls, SectionTree, TreeCalls;
    BodyInParts(section);
    ghost var start, capacity := cbor.State(), cbor.dst.Length;
    ghost var buses, devices := ItemCalls(BusItems(section.buses)), ItemCalls(DeviceItems(section.devices));
    ghost var second := [PutKey(2)] + [PutArray(|section.devices|)] + devices;
    ghost var first := [PutKey(1)] + [PutArray(|section.buses|)] + (buses + second);
    ThroughBoth(start, capacity, [PutMap(2)], first);
    RanOne(start, capacity, PutMap(2));
    r := cbor.Map(2);
    if r.Failure? {
      return;
    }
    ThroughBoth(cbor.State(), capacity, [PutKey(1)] + [PutArray(|section.buses|)], buses + second);
    r := EncodeListHead(cbor, 1, |section.buses|);
    if r.Failure? {
      return;
    }
    ThroughBoth(cbor.State(), capacity, buses, second);
    r := EncodeBuses(cbor, section.buses);
    if r.Failure? {
      return;
    }
    ThroughBoth(cbor.State(), capacity, [PutKey(2)] + [PutArray(|section.devices|)], devices);
    r := EncodeListHead(cbor, 2, |section.devices|);
    if r.Failure? {
      return;
    }
    r := EncodeDevices(cbor, section.devices);
  }
}
