/**
 What a controller answers with: the section an accepted write left is always in
 order, always fits a body, and is what the client reads.
 */
module SectionAnswers {
  import opened Bytes
  import opened Wrappers
  import opened Limits
  import opened CborHeads
  import opened CborReaders
  import opened CborWriters
  import opened CborTrees
  import opened Sections
  import opened Chains
  import opened SectionChecks
  import opened SectionAccept
  import opened SectionRuns
  import opened SectionWire
  import opened SectionParse
  import opened SectionRoundTrip

  /** Neighbours in order are everything in order. */
  lemma {:induction false} NeighboursAscend<T(!new)>(key: T -> int, s: seq<T>, i: nat, j: nat)
    requires (forall k :: 0 <= k < |s| - 1 ==> key(s[k]) < key(s[k + 1])) && i < j < |s|
    ensures key(s[i]) < key(s[j])
    decreases j
  {
    if i < j - 1 { NeighboursAscend(key, s, i, j - 1); }
    assert key(s[j - 1]) < key(s[j - 1 + 1]);
  }

  /** The encoder's and decoder's order check passes exactly a strictly ascending section. */
  lemma AscentExactly(s: Section)
    ensures AscentFault(s).None? <==> Ascends(s)
  {
    if AscentFault(s).None? {
      forall i, j | 0 <= i < j < |s.buses| ensures BusNumber(s.buses[i]) < BusNumber(s.buses[j]) {
        NeighboursAscend(BusNumber, s.buses, i, j);
      }
      forall i, j | 0 <= i < j < |s.devices| ensures DevNumber(s.devices[i]) < DevNumber(s.devices[j]) {
        NeighboursAscend(DevNumber, s.devices, i, j);
      }
    }
  }

  /** An accepted write's section is never refused by the encoder for its order, fits 901 bytes, and reads back. */
  lemma AcceptedAnswers(write: Section, rules: SiteRules, held: Section, next: Option<DevId>)
    requires Fits(write) && Accept(write, rules, held, next).Success?
    ensures var section := Accept(write, rules, held, next).value.0;
            && Fits(section) && EncodeBody(section, true, MAX_SECTION_BYTES).Success?
            && DecodeBody(EncodeBody(section, true, MAX_SECTION_BYTES).value, true) == Success(section)
  {
    hide Accept, CheckFault, Ascends, EncodeBody, DecodeBody, BusAllowed, AscentFault;
    AcceptedPasses(write, rules, held, next);
    var section := Accept(write, rules, held, next).value.0;
    CheckExactly(section, rules);
    AscentExactly(section);
    AllowedSet(section, rules);
    SectionReadsBack(section, true, MAX_SECTION_BYTES);
  }

  lemma AllowedSet(s: Section, rules: SiteRules)
    requires Admissible(s, rules)
    ensures EachSets(s.buses)
  {
    hide TransportOf, SetsSomething, Forest, DeviceAllowed, Clash;
    forall e | e in s.buses ensures SetsSomething(e) {
      assert BusAllowed(e, rules.buses);
    }
  }

  // ---------------------------------------------------------------------------
  // Exactly what reads back.

  /** A parsed row says something, and names its device in an answer. */
  predicate Told(row: Row, answer: bool) {
    match row
    case BusRow(bus) => bus.rate.Some? || bus.dataBits.Some? || bus.parity.Some? || bus.stopBits.Some?
    case DeviceRow(device) => answer ==> device.dev.Some?
  }

  predicate AllTold(rows: seq<Row>, answer: bool) { forall row :: row in rows ==> Told(row, answer) }

  lemma {:induction false} BusRowsTold(b: seq<byte>, s: ReaderState, left: nat, rows: seq<Row>, answer: bool)
    requires Within(b, s) && AllTold(rows, answer) && BusRows(b, s, left, rows).Success?
    ensures AllTold(BusRows(b, s, left, rows).value.0, answer)
    decreases left
  {
    hide BusFields, Get;
    if left > 0 {
      var (bus, after) := ParseBus(b, s).value;
      BusRowsTold(b, after, left - 1, rows + [BusRow(bus)], answer);
    }
  }

  lemma {:induction false} DeviceRowsTold(b: seq<byte>, s: ReaderState, left: nat, rows: seq<Row>, answer: bool)
    requires Within(b, s) && AllTold(rows, answer) && DeviceRows(b, s, answer, left, rows).Success?
    ensures AllTold(DeviceRows(b, s, answer, left, rows).value.0, answer)
    decreases left
  {
    hide ParseDevice;
    if left > 0 {
      var (device, after) := ParseDevice(b, s, answer).value;
      DeviceRowsTold(b, after, left - 1, rows + [DeviceRow(device)], answer);
    }
  }

  lemma BodyFieldTold(b: seq<byte>, s: ReaderState, answer: bool, key: int, slots: BodySlots)
    requires Within(b, s) && AllTold(slots.rows, answer) && BodyField(b, s, answer, key, slots).Success?
    ensures AllTold(BodyField(b, s, answer, key, slots).value.0.rows, answer)
  {
    hide Get, BusRows, DeviceRows, AllTold, Skipped;
    if key == 1 {
      var (count, entered) := Get(b, s, AsArray).value;
      BusRowsTold(b, entered, count, slots.rows, answer);
    } else if key == 2 {
      var (count, entered) := Get(b, s, AsArray).value;
      DeviceRowsTold(b, entered, count, slots.rows, answer);
    }
  }

  lemma {:induction false} BodyFieldsTold(b: seq<byte>, s: ReaderState, answer: bool, left: nat, slots: BodySlots)
    requires Within(b, s) && AllTold(slots.rows, answer) && BodyFields(b, s, answer, left, slots).Success?
    ensures AllTold(BodyFields(b, s, answer, left, slots).value.0.rows, answer)
    decreases left
  {
    hide Get, BodyField, AllTold;
    if left > 0 {
      var (key, keyed) := Get(b, s, AsKey).value;
      var (filled, after) := BodyField(b, keyed, answer, key, slots).value;
      BodyFieldTold(b, keyed, answer, key, slots);
      BodyFieldsTold(b, after, answer, left - 1, filled);
    }
  }

  lemma ParsedTold(b: seq<byte>, answer: bool)
    requires ParseBody(b, answer).Success?
    ensures AllTold(ParseBody(b, answer).value, answer)
  {
    hide Get, BodyFields, Finished;
    var (pairs, entered) := Get(b, START, AsMap).value;
    BodyFieldsTold(b, entered, answer, pairs, NO_BODY);
  }

  lemma BusKeepsSaying(bus: BusRecord)
    requires Told(BusRow(bus), false) && BusValueFault(bus).None?
    ensures SetsSomething(BusValue(bus))
  {}

  lemma {:induction false} ToldSpells(rows: seq<Row>, answer: bool)
    requires AllTold(rows, answer) && FirstFault(rows).None?
    ensures EachSets(Spelled(rows).buses) && EachNamed(Spelled(rows).devices, answer)
    decreases |rows|
  {
    hide FirstFault, Spelled, BusValueFault, BusValue, SetsSomething, DeviceValueFault;
    if rows == [] {
      NoRows();
    } else {
      var earlier, last := rows[..|rows| - 1], rows[|rows| - 1];
      assert rows == earlier + [last];
      OneRowMore(earlier, last);
      ToldSpells(earlier, answer);
      assert Told(last, answer);
      if last.BusRow? { BusKeepsSaying(last.bus); }
    }
  }

  /**
   Whatever decodes could have been sent: every bus entry sets something, and an
   answer names and orders its entries.
   */
  lemma DecodedIsSendable(b: seq<byte>, answer: bool)
    requires DecodeBody(b, answer).Success?
    ensures var s := DecodeBody(b, answer).value;
            Fits(s) && EachSets(s.buses) && EachNamed(s.devices, answer) && (answer ==> AscentFault(s).None?)
  {
    hide ParseBody, FirstFault, Spelled, AscentFault, AllTold;
    ParsedTold(b, answer);
    ToldSpells(ParseBody(b, answer).value, answer);
  }

  /** Exactly which sections survive the wire. */
  lemma ReadsBackExactly(s: Section, answer: bool)
    requires Fits(s)
    ensures var body := EncodeBody(s, answer, MAX_SECTION_BYTES);
            body.Success? && DecodeBody(body.value, answer) == Success(s)
            <==> EachSets(s.buses) && (answer ==> Answer(s) && AscentFault(s).None?)
  {
    hide EncodeBody, DecodeBody, AscentFault, EachSets;
    var body := EncodeBody(s, answer, MAX_SECTION_BYTES);
    if body.Success? && DecodeBody(body.value, answer) == Success(s) { DecodedIsSendable(body.value, answer); }
    if EachSets(s.buses) && (answer ==> Answer(s) && AscentFault(s).None?) {
      SectionReadsBack(s, answer, MAX_SECTION_BYTES);
    }
  }

  // ---------------------------------------------------------------------------
  // The bound is reached.

  const WIDE_BUS: BusEntry := BusEntry(255, Some(0xFFFF_FFFF), Some(Eight), Some(Odd), Some(Two))

  const WIDE_ADDR: Addr := [1, 2, 3, 4, 5, 6, 7, 8]

  const WIDE_OPTIONS: DeviceOptions := DeviceOptions(Some(PositiveIsOut), Some(V13), Some(true), Some(0xFFFF_FFFF))

  const WIDE_DEVICE: DeviceEntry :=
    DeviceEntry(Some(0xFFFF), 255, Some(WIDE_ADDR), 0xFFFF, 0xFFFF, 0xFFFF, Some(0xFFFF), WIDE_OPTIONS)

  function Copies<T>(x: T, n: nat): (s: seq<T>)
    ensures |s| == n
  {
    if n == 0 then [] else [x] + Copies(x, n - 1)
  }

  const WIDEST: Section := Section(Copies(WIDE_BUS, MAX_CONFIG_BUSES), Copies(WIDE_DEVICE, MAX_CONFIG_DEVICES))

  lemma IfSetSize(key: nat, value: Option<Call>, others: KeyedItems)
    requires ShapedPairs(others) && key < 24
             && (value.Some? ==> value.value.PutU64? || value.value.PutBool? || value.value.PutBytes?)
    ensures ShapedPairs(IfSet(key, value, others))
    ensures PairsSize(IfSet(key, value, others))
            == PairsSize(others) + if value.None? then 0 else 1 + |Emission(value.value)|
    ensures PairCount(IfSet(key, value, others)) == PairCount(others) + if value.None? then 0 else 1
  {
    hide Emission;
  }

  lemma NumberEmission(n: u64)
    ensures |Emission(PutU64(n))| == 1 + Width(n) && Shaped(Number(n)) && TreeSize(Number(n)) == 1 + Width(n)
  {}

  lemma WideBusSize()
    ensures Shaped(BusTree(WIDE_BUS)) && TreeSize(BusTree(WIDE_BUS)) == 16
  {
    hide Emission, IfSet;
    var p5 := IfSet(5, Some(PutU64(2)), NoPair);
    var p4 := IfSet(4, Some(PutU64(3)), p5);
    var p3 := IfSet(3, Some(PutU64(8)), p4);
    var p2 := IfSet(2, Some(PutU64(0xFFFF_FFFF)), p3);
    IfSetSize(5, Some(PutU64(2)), NoPair);
    IfSetSize(4, Some(PutU64(3)), p5);
    IfSetSize(3, Some(PutU64(8)), p4);
    IfSetSize(2, Some(PutU64(0xFFFF_FFFF)), p3);
    NumberEmission(2);
    NumberEmission(3);
    NumberEmission(8);
    NumberEmission(0xFFFF_FFFF);
    NumberEmission(255);
    assert BusTree(WIDE_BUS) == Dict(APair(1, Number(255), p2));
  }

  lemma WideOptionsSize()
    ensures Shaped(OptionsTree(WIDE_OPTIONS)) && TreeSize(OptionsTree(WIDE_OPTIONS)) == 13
  {
    hide Emission, IfSet;
    var p4 := IfSet(4, Some(PutU64(0xFFFF_FFFF)), NoPair);
    var p3 := IfSet(3, Some(PutBool(true)), p4);
    var p2 := IfSet(2, Some(PutU64(2)), p3);
    var p1 := IfSet(1, Some(PutU64(2)), p2);
    IfSetSize(4, Some(PutU64(0xFFFF_FFFF)), NoPair);
    IfSetSize(3, Some(PutBool(true)), p4);
    IfSetSize(2, Some(PutU64(2)), p3);
    IfSetSize(1, Some(PutU64(2)), p2);
    NumberEmission(0xFFFF_FFFF);
    NumberEmission(2);
    BoolEmission();
    assert OptionsTree(WIDE_OPTIONS) == Dict(p1);
  }

  lemma BoolEmission()
    ensures |Emission(PutBool(true))| == 1
  {}

  lemma AddrEmission(addr: Addr)
    ensures |Emission(PutBytes(addr))| == 1 + |addr|
  {
    hide HeadBytes;
    var raw: seq<byte> := addr;
    assert |HeadBytes(ByteString, |raw|) + raw| == 1 + |raw|;
  }

  lemma WideDeviceSize()
    ensures Shaped(DeviceTree(WIDE_DEVICE)) && TreeSize(DeviceTree(WIDE_DEVICE)) == 48
  {
    hide Emission, IfSet, OptionsTree, PairsSize, PairCount, ShapedPairs, Number;
    NothingSize();
    WideOptionsSize();
    var wide: Option<Call> := Some(PutU64(0xFFFF));
    var p8 := APair(8, OptionsTree(WIDE_OPTIONS), NoPair);
    var p7 := IfSet(7, wide, p8);
    var p6 := APair(6, Number(0xFFFF), p7);
    var p5 := APair(5, Number(0xFFFF), p6);
    var p4 := APair(4, Number(0xFFFF), p5);
    var p3 := IfSet(3, Some(PutBytes(WIDE_ADDR)), p4);
    var p2 := APair(2, Number(255), p3);
    var p1 := IfSet(1, wide, p2);
    NumberEmission(0xFFFF);
    NumberEmission(255);
    AddrEmission(WIDE_ADDR);
    PairSize(8, OptionsTree(WIDE_OPTIONS), NoPair);
    IfSetSize(7, wide, p8);
    PairSize(6, Number(0xFFFF), p7);
    PairSize(5, Number(0xFFFF), p6);
    PairSize(4, Number(0xFFFF), p5);
    IfSetSize(3, Some(PutBytes(WIDE_ADDR)), p4);
    PairSize(2, Number(255), p3);
    IfSetSize(1, wide, p2);
    assert OptionsPair(WIDE_OPTIONS) == p8;
    assert DeviceTree(WIDE_DEVICE) == Dict(p1);
  }

  lemma {:induction false} CopiesSize(n: nat, m: nat)
    ensures var buses, devices := BusItems(Copies(WIDE_BUS, n)), DeviceItems(Copies(WIDE_DEVICE, m));
            && ShapedItems(buses) && ItemsSize(buses) == 16 * n && ItemCount(buses) == n
            && ShapedItems(devices) && ItemsSize(devices) == 48 * m && ItemCount(devices) == m
    decreases n + m
  {
    hide BusTree, DeviceTree;
    WideBusSize();
    WideDeviceSize();
    if n > 0 {
      CopiesSize(n - 1, m);
      assert Copies(WIDE_BUS, n)[1..] == Copies(WIDE_BUS, n - 1);
    }
    if m > 0 {
      CopiesSize(n, m - 1);
      assert Copies(WIDE_DEVICE, m)[1..] == Copies(WIDE_DEVICE, m - 1);
    }
  }

  /** 901 bytes is not a margin: eight buses and sixteen devices at their widest take every one of them. */
  lemma BoundReached()
    ensures Fits(WIDEST) && Shaped(SectionTree(WIDEST)) && TreeSize(SectionTree(WIDEST)) == MAX_SECTION_BYTES
  {
    hide BusItems, DeviceItems, Copies;
    CopiesSize(8, 16);
    var inner := APair(2, List(DeviceItems(WIDEST.devices)), NoPair);
    var outer := APair(1, List(BusItems(WIDEST.buses)), inner);
    assert Shaped(inner.value) && TreeSize(inner.value) == 1 + 48 * 16;
    assert Shaped(outer.value) && TreeSize(outer.value) == 1 + 16 * 8;
    NothingSize();
    PairSize(2, inner.value, NoPair);
    PairSize(1, outer.value, inner);
    assert SectionTree(WIDEST) == Dict(outer);
  }
}
