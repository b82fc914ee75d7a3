/**
 Reading a section's body in two phases: its whole structure first, then its values.
 A body that is malformed anywhere is error 1, whatever its values say.
 */
module SectionParse {
  import opened Bytes
  import opened Wrappers
  import opened Limits
  import opened CborHeads
  import opened CborReaders
  import opened Sections
  import SectionAccept
  import opened SectionWire

  // ---------------------------------------------------------------------------
  // Structure.

  type Read<T> = Result<(T, ReaderState), ConfigError>

  /** A reader's answer carried over: its refusals are the body's. */
  function Get<T>(b: seq<byte>, s: ReaderState, field: Head -> Result<T, CborError>): (r: Read<T>)
    requires Within(b, s)
    ensures r.Success? ==> Within(b, r.value.1)
    ensures r.Failure? ==> r.error.Cbor?
  {
    match ReadAs(b, s, field)
    case Failure(why) => Failure(Cbor(why))
    case Success(read) => Success(read)
  }

  /** An unsigned integer no greater than `max`. */
  function GetUnsigned(b: seq<byte>, s: ReaderState, max: nat): (r: Read<nat>)
    requires Within(b, s)
    ensures r.Success? ==> Within(b, r.value.1) && r.value.0 <= max
    ensures r.Failure? ==> r.error.Cbor?
  {
    match ReadNumber(b, s, max)
    case Failure(why) => Failure(Cbor(why))
    case Success(read) => Success(read)
  }

  function Skipped(b: seq<byte>, s: ReaderState): (r: Result<ReaderState, ConfigError>)
    requires Within(b, s)
    ensures r.Success? ==> Within(b, r.value)
    ensures r.Failure? ==> r.error.Cbor?
  {
    match SkipItem(b, s, true)
    case Failure(why) => Failure(Cbor(why))
    case Success(after) => Success(after)
  }

  /** A key's value taken once. */
  function Once<T>(slot: Option<T>, key: SectionKey, value: T): (r: Result<Option<T>, ConfigError>)
    ensures r.Failure? ==> Malformed(r.error)
  {
    if slot.Some? then Failure(Duplicate(key)) else Success(Some(value))
  }

  /** A discriminant the registry allocates. */
  function Allocated<T>(value: Option<T>, key: SectionKey): (r: Result<T, ConfigError>)
    ensures r.Failure? ==> Malformed(r.error)
  {
    if value.None? then Failure(UnknownValue(key)) else Success(value.value)
  }

  datatype BusSlots = BusSlots(bus: Option<byte>, rate: Option<u32>, dataBits: Option<byte>,
                               parity: Option<Parity>, stopBits: Option<byte>)

  const NO_BUS: BusSlots := BusSlots(None, None, None, None, None)

  function BusField(b: seq<byte>, s: ReaderState, key: int, slots: BusSlots): (r: Read<BusSlots>)
    requires Within(b, s)
    ensures r.Success? ==> Within(b, r.value.1)
    ensures r.Failure? ==> Malformed(r.error)
  {
    if key == 1 then
      var (value, after) :- GetUnsigned(b, s, 0xFF);
      var slot :- Once(slots.bus, BusKey, value as byte);
      Success((slots.(bus := slot), after))
    else if key == 2 then
      var (value, after) :- GetUnsigned(b, s, 0xFFFF_FFFF);
      var slot :- Once(slots.rate, RateKey, value as u32);
      Success((slots.(rate := slot), after))
    else if key == 3 then
      var (value, after) :- GetUnsigned(b, s, 0xFF);
      var slot :- Once(slots.dataBits, DataBitsKey, value as byte);
      Success((slots.(dataBits := slot), after))
    else if key == 4 then
      var (value, after) :- GetUnsigned(b, s, 0xFF);
      var parity :- Allocated(ParityOf(value), ParityKey);
      var slot :- Once(slots.parity, ParityKey, parity);
      Success((slots.(parity := slot), after))
    else if key == 5 then
      var (value, after) :- GetUnsigned(b, s, 0xFF);
      var slot :- Once(slots.stopBits, StopBitsKey, value as byte);
      Success((slots.(stopBits := slot), after))
    else
      var after :- Skipped(b, s);
      Success((slots, after))
  }

  function BusFields(b: seq<byte>, s: ReaderState, left: nat, slots: BusSlots): (r: Read<BusSlots>)
    requires Within(b, s)
    ensures r.Success? ==> Within(b, r.value.1)
    ensures r.Failure? ==> Malformed(r.error)
    decreases left
  {
    if left == 0 then Success((slots, s))
    else
      var (key, keyed) :- Get(b, s, AsKey);
      var (filled, after) :- BusField(b, keyed, key, slots);
      BusFields(b, after, left - 1, filled)
  }

  /** A bus entry as it arrived, its bus named. */
  datatype BusRecord = BusRecord(bus: byte, rate: Option<u32>, dataBits: Option<byte>, parity: Option<Parity>,
                                 stopBits: Option<byte>)

  /** A bus entry's structure: its bus named, and something set. */
  function ParseBus(b: seq<byte>, s: ReaderState): (r: Read<BusRecord>)
    requires Within(b, s)
    ensures r.Success? ==> Within(b, r.value.1)
    ensures r.Failure? ==> Malformed(r.error)
  {
    var (pairs, entered) :- Get(b, s, AsMap);
    var (slots, after) :- BusFields(b, entered, pairs, NO_BUS);
    if slots.bus.None? then Failure(Missing(BusKey))
    else if slots.rate.None? && slots.dataBits.None? && slots.parity.None? && slots.stopBits.None?
      then Failure(NothingSet(BusKey))
    else Success((BusRecord(slots.bus.value, slots.rate, slots.dataBits, slots.parity, slots.stopBits), after))
  }

  /** Options as they arrived, the option numbers nobody allocated in order. */
  datatype OptionSlots = OptionSlots(unknown: seq<int>, direction: Option<Direction>, version: Option<PylontechVersion>,
                                     lowVoltage: Option<bool>, poll: Option<u32>)

  const NO_OPTION_SLOTS: OptionSlots := OptionSlots([], None, None, None, None)

  function OptionField(b: seq<byte>, s: ReaderState, key: int, slots: OptionSlots): (r: Read<OptionSlots>)
    requires Within(b, s)
    ensures r.Success? ==> Within(b, r.value.1)
    ensures r.Failure? ==> Malformed(r.error)
  {
    if key == 1 then
      var (value, after) :- GetUnsigned(b, s, 0xFF);
      var direction :- Allocated(DirectionOf(value), OptionKey(CurrentDirectionOption));
      var slot :- Once(slots.direction, OptionKey(CurrentDirectionOption), direction);
      Success((slots.(direction := slot), after))
    else if key == 2 then
      var (value, after) :- GetUnsigned(b, s, 0xFF);
      var version :- Allocated(VersionOf(value), OptionKey(PylontechVersionOption));
      var slot :- Once(slots.version, OptionKey(PylontechVersionOption), version);
      Success((slots.(version := slot), after))
    else if key == 3 then
      var (value, after) :- Get(b, s, AsBool);
      var slot :- Once(slots.lowVoltage, OptionKey(VeDirect3v3Option), value);
      Success((slots.(lowVoltage := slot), after))
    else if key == 4 then
      var (value, after) :- GetUnsigned(b, s, 0xFFFF_FFFF);
      var slot :- Once(slots.poll, OptionKey(PollPeriodOption), value as u32);
      Success((slots.(poll := slot), after))
    else
      var after :- Skipped(b, s);
      Success((slots.(unknown := slots.unknown + [key]), after))
  }

  function OptionFields(b: seq<byte>, s: ReaderState, left: nat, slots: OptionSlots): (r: Read<OptionSlots>)
    requires Within(b, s)
    ensures r.Success? ==> Within(b, r.value.1)
    ensures r.Failure? ==> Malformed(r.error)
    decreases left
  {
    if left == 0 then Success((slots, s))
    else
      var (key, keyed) :- Get(b, s, AsKey);
      var (filled, after) :- OptionField(b, keyed, key, slots);
      OptionFields(b, after, left - 1, filled)
  }

  function ParseOptions(b: seq<byte>, s: ReaderState): (r: Read<OptionSlots>)
    requires Within(b, s)
    ensures r.Success? ==> Within(b, r.value.1)
    ensures r.Failure? ==> Malformed(r.error)
  {
    var (pairs, entered) :- Get(b, s, AsMap);
    if pairs == 0 then Failure(NothingSet(OptionsKey)) else OptionFields(b, entered, pairs, NO_OPTION_SLOTS)
  }

  datatype DeviceSlots = DeviceSlots(dev: Option<u16>, bus: Option<byte>, addr: Option<seq<byte>>, product: Option<u16>,
                                     dialect: Option<u16>, role: Option<u16>, parent: Option<u16>,
                                     options: Option<OptionSlots>)

  const NO_DEVICE: DeviceSlots := DeviceSlots(None, None, None, None, None, None, None, None)

  function DeviceField(b: seq<byte>, s: ReaderState, key: int, slots: DeviceSlots): (r: Read<DeviceSlots>)
    requires Within(b, s)
    ensures r.Success? ==> Within(b, r.value.1)
    ensures r.Failure? ==> Malformed(r.error)
  {
    if key == 1 then
      var (value, after) :- GetUnsigned(b, s, 0xFFFF);
      var slot :- Once(slots.dev, DevKey, value as u16);
      Success((slots.(dev := slot), after))
    else if key == 2 then
      var (value, after) :- GetUnsigned(b, s, 0xFF);
      var slot :- Once(slots.bus, DeviceBusKey, value as byte);
      Success((slots.(bus := slot), after))
    else if key == 3 then
      var (value, after) :- Get(b, s, AsBytes);
      var slot :- Once(slots.addr, AddrKey, value);
      Success((slots.(addr := slot), after))
    else if key == 4 then
      var (value, after) :- GetUnsigned(b, s, 0xFFFF);
      var slot :- Once(slots.product, ProductKey, value as u16);
      Success((slots.(product := slot), after))
    else if key == 5 then
      var (value, after) :- GetUnsigned(b, s, 0xFFFF);
      var slot :- Once(slots.dialect, DialectKey, value as u16);
      Success((slots.(dialect := slot), after))
    else if key == 6 then
      var (value, after) :- GetUnsigned(b, s, 0xFFFF);
      var slot :- Once(slots.role, RoleKey, value as u16);
      Success((slots.(role := slot), after))
    else if key == 7 then
      var (value, after) :- GetUnsigned(b, s, 0xFFFF);
      var slot :- Once(slots.parent, ParentKey, value as u16);
      Success((slots.(parent := slot), after))
    else if key == 8 then
      var (value, after) :- ParseOptions(b, s);
      var slot :- Once(slots.options, OptionsKey, value);
      Success((slots.(options := slot), after))
    else
      var after :- Skipped(b, s);
      Success((slots, after))
  }

  function DeviceFields(b: seq<byte>, s: ReaderState, left: nat, slots: DeviceSlots): (r: Read<DeviceSlots>)
    requires Within(b, s)
    ensures r.Success? ==> Within(b, r.value.1)
    ensures r.Failure? ==> Malformed(r.error)
    decreases left
  {
    if left == 0 then Success((slots, s))
    else
      var (key, keyed) :- Get(b, s, AsKey);
      var (filled, after) :- DeviceField(b, keyed, key, slots);
      DeviceFields(b, after, left - 1, filled)
  }

  /** The keys every device entry carries; an answer's carries its `dev` too. */
  predicate Complete(slots: DeviceSlots) {
    slots.product.Some? && slots.dialect.Some? && slots.role.Some? && slots.bus.Some?
  }

  function DeviceMissing(slots: DeviceSlots, answer: bool): (missing: Option<ConfigError>)
    ensures missing.Some? ==> Malformed(missing.value)
    ensures missing.None? <==> Complete(slots) && (answer ==> slots.dev.Some?)
  {
    if slots.product.None? then Some(Missing(ProductKey))
    else if slots.dialect.None? then Some(Missing(DialectKey))
    else if slots.role.None? then Some(Missing(RoleKey))
    else if slots.bus.None? then Some(Missing(DeviceBusKey))
    else if answer && slots.dev.None? then Some(Missing(DevKey))
    else None
  }

  /** A device entry as it arrived, every key it must carry there. */
  datatype DeviceRecord = DeviceRecord(dev: Option<u16>, bus: byte, addr: Option<seq<byte>>, product: u16, dialect: u16,
                                       role: u16, parent: Option<u16>, options: Option<OptionSlots>)

  function Taken(slots: DeviceSlots): DeviceRecord
    requires Complete(slots)
  {
    DeviceRecord(slots.dev, slots.bus.value, slots.addr, slots.product.value, slots.dialect.value, slots.role.value,
                 slots.parent, slots.options)
  }

  function ParseDevice(b: seq<byte>, s: ReaderState, answer: bool): (r: Read<DeviceRecord>)
    requires Within(b, s)
    ensures r.Success? ==> Within(b, r.value.1) && (answer ==> r.value.0.dev.Some?)
    ensures r.Failure? ==> Malformed(r.error)
  {
    var (pairs, entered) :- Get(b, s, AsMap);
    var (slots, after) :- DeviceFields(b, entered, pairs, NO_DEVICE);
    if DeviceMissing(slots, answer).Some? then Failure(DeviceMissing(slots, answer).value)
      else Success((Taken(slots), after))
  }

  /** An entry as it arrived, whichever list it was in. */
  datatype Row = BusRow(bus: BusRecord) | DeviceRow(device: DeviceRecord)

  function BusRows(b: seq<byte>, s: ReaderState, left: nat, rows: seq<Row>): (r: Read<seq<Row>>)
    requires Within(b, s)
    ensures r.Success? ==> Within(b, r.value.1)
    ensures r.Failure? ==> Malformed(r.error)
    decreases left
  {
    if left == 0 then Success((rows, s))
    else
      var (bus, after) :- ParseBus(b, s);
      BusRows(b, after, left - 1, rows + [BusRow(bus)])
  }

  function DeviceRows(b: seq<byte>, s: ReaderState, answer: bool, left: nat, rows: seq<Row>): (r: Read<seq<Row>>)
    requires Within(b, s)
    ensures r.Success? ==> Within(b, r.value.1)
    ensures r.Failure? ==> Malformed(r.error)
    decreases left
  {
    if left == 0 then Success((rows, s))
    else
      var (device, after) :- ParseDevice(b, s, answer);
      DeviceRows(b, after, answer, left - 1, rows + [DeviceRow(device)])
  }

  /** A whole list: its count, and as many entries. */
  function BusList(b: seq<byte>, s: ReaderState, rows: seq<Row>): (r: Read<seq<Row>>)
    requires Within(b, s)
    ensures r.Success? ==> Within(b, r.value.1)
    ensures r.Failure? ==> Malformed(r.error)
  {
    var (count, entered) :- Get(b, s, AsArray);
    BusRows(b, entered, count, rows)
  }

  function DeviceList(b: seq<byte>, s: ReaderState, answer: bool, rows: seq<Row>): (r: Read<seq<Row>>)
    requires Within(b, s)
    ensures r.Success? ==> Within(b, r.value.1)
    ensures r.Failure? ==> Malformed(r.error)
  {
    var (count, entered) :- Get(b, s, AsArray);
    DeviceRows(b, entered, answer, count, rows)
  }

  datatype BodySlots = BodySlots(buses: Option<()>, devices: Option<()>, rows: seq<Row>)

  const NO_BODY: BodySlots := BodySlots(None, None, [])

  function BodyField(b: seq<byte>, s: ReaderState, answer: bool, key: int, slots: BodySlots): (r: Read<BodySlots>)
    requires Within(b, s)
    ensures r.Success? ==> Within(b, r.value.1)
    ensures r.Failure? ==> Malformed(r.error)
  {
    if key == 1 then
      var slot :- Once(slots.buses, BusesKey, ());
      var (rows, after) :- BusList(b, s, slots.rows);
      Success((BodySlots(slot, slots.devices, rows), after))
    else if key == 2 then
      var slot :- Once(slots.devices, DevicesKey, ());
      var (rows, after) :- DeviceList(b, s, answer, slots.rows);
      Success((BodySlots(slots.buses, slot, rows), after))
    else
      var after :- Skipped(b, s);
      Success((slots, after))
  }

  function BodyFields(b: seq<byte>, s: ReaderState, answer: bool, left: nat, slots: BodySlots): (r: Read<BodySlots>)
    requires Within(b, s)
    ensures r.Success? ==> Within(b, r.value.1)
    ensures r.Failure? ==> Malformed(r.error)
    decreases left
  {
    if left == 0 then Success((slots, s))
    else
      var (key, keyed) :- Get(b, s, AsKey);
      var (filled, after) :- BodyField(b, keyed, answer, key, slots);
      BodyFields(b, after, answer, left - 1, filled)
  }

  /** The body's whole structure: every entry as it arrived, both lists present, nothing left over. */
  function ParseBody(b: seq<byte>, answer: bool): (r: Result<seq<Row>, ConfigError>)
    ensures r.Failure? ==> Malformed(r.error)
  {
    var (pairs, entered) :- Get(b, START, AsMap);
    var (slots, after) :- BodyFields(b, entered, answer, pairs, NO_BODY);
    if Finished(b, after).Failure? then Failure(Cbor(Finished(b, after).error))
    else if slots.buses.None? then Failure(Missing(BusesKey))
    else if slots.devices.None? then Failure(Missing(DevicesKey))
    else Success(slots.rows)
  }

  // ---------------------------------------------------------------------------
  // Values.

  function FirstOf(a: Option<ConfigError>, b: Option<ConfigError>): Option<ConfigError> { if a.Some? then a else b }

  function Fault(bad: bool, why: ConfigError): Option<ConfigError> { if bad then Some(why) else None }

  function BusValueFault(bus: BusRecord): (fault: Option<ConfigError>)
    ensures fault.Some? ==> !Malformed(fault.value)
  {
    FirstOf(Fault(bus.rate == Some(0), OutOfSchema(RateKey)),
            FirstOf(Fault(bus.dataBits.Some? && DataBitsOf(bus.dataBits.value).None?, OutOfSchema(DataBitsKey)),
                    Fault(bus.stopBits.Some? && StopBitsOf(bus.stopBits.value).None?, OutOfSchema(StopBitsKey))))
  }

  function NonZero32(n: Option<u32>): Option<NonZeroU32> { if n.None? || n.value == 0 then None else Some(n.value) }

  function BusValue(bus: BusRecord): BusEntry {
    BusEntry(bus.bus, NonZero32(bus.rate),
             if bus.dataBits.None? then None else DataBitsOf(bus.dataBits.value),
             bus.parity,
             if bus.stopBits.None? then None else StopBitsOf(bus.stopBits.value))
  }

  function OptionsValueFault(slots: OptionSlots): (fault: Option<ConfigError>)
    ensures fault.Some? ==> !Malformed(fault.value)
  {
    if slots.unknown != [] then Some(UnknownOption(slots.unknown[0]))
    else Fault(slots.direction == Some(MagnitudeOnly), OutOfSchema(OptionKey(CurrentDirectionOption)))
  }

  function CurrentOf(direction: Option<Direction>): Option<CurrentDirection> {
    match direction
    case Some(PositiveIn) => Some(PositiveIsIn)
    case Some(PositiveOut) => Some(PositiveIsOut)
    case _ => None
  }

  function OptionsValue(slots: OptionSlots): DeviceOptions {
    DeviceOptions(CurrentOf(slots.direction), slots.version, slots.lowVoltage, slots.poll)
  }

  predicate AddrFits(addr: seq<byte>) { 1 <= |addr| <= MAX_ADDR }

  function EntryFault(d: DeviceRecord): (fault: Option<ConfigError>)
    ensures fault.Some? ==> !Malformed(fault.value)
  {
    FirstOf(Fault(d.dev == Some(0), OutOfSchema(DevKey)),
            FirstOf(if d.addr.Some? && !AddrFits(d.addr.value) then Some(Length(AddrKey, |d.addr.value|)) else None,
                    Fault(d.parent == Some(0), OutOfSchema(ParentKey))))
  }

  function OptionsFaultIn(options: Option<OptionSlots>): (fault: Option<ConfigError>)
    ensures fault.Some? ==> !Malformed(fault.value)
  {
    if options.None? then None else OptionsValueFault(options.value)
  }

  function DeviceValueFault(d: DeviceRecord): (fault: Option<ConfigError>)
    ensures fault.Some? ==> !Malformed(fault.value)
  {
    FirstOf(OptionsFaultIn(d.options), EntryFault(d))
  }

  /** The id a faulty row spells; the fault beside it means no section is answered. */
  const PLACEHOLDER: DevId := 0xFFFF

  function DeviceValue(d: DeviceRecord): DeviceEntry {
    DeviceEntry(if d.dev.None? then None else if d.dev.value == 0 then Some(PLACEHOLDER) else Some(d.dev.value),
                d.bus, if d.addr.Some? && AddrFits(d.addr.value) then Some(d.addr.value) else None,
                d.product, d.dialect, d.role,
                if d.parent.None? || d.parent.value == 0 then None else Some(d.parent.value),
                if d.options.None? then NO_OPTIONS else OptionsValue(d.options.value))
  }

  /** The section with one more entry in its slots, if there is one free. */
  function WithRow(s: Section, row: Row): (t: Section)
    requires Fits(s)
    ensures Fits(t)
  {
    match row
    case BusRow(bus) => if |s.buses| == MAX_CONFIG_BUSES then s else s.(buses := s.buses + [BusValue(bus)])
    case DeviceRow(device) =>
      if |s.devices| == MAX_CONFIG_DEVICES then s else s.(devices := s.devices + [DeviceValue(device)])
  }

  /** What is wrong with one entry's values, or with there being no slot for it. */
  function RowFault(s: Section, row: Row): (fault: Option<ConfigError>)
    ensures fault.Some? ==> !Malformed(fault.value)
  {
    match row
    case BusRow(bus) => FirstOf(BusValueFault(bus), Fault(|s.buses| == MAX_CONFIG_BUSES, TooMany(BusesKey)))
    case DeviceRow(device) =>
      FirstOf(DeviceValueFault(device), Fault(|s.devices| == MAX_CONFIG_DEVICES, TooMany(DevicesKey)))
  }

  /** The section the rows spell, slots permitting. */
  function Spelled(rows: seq<Row>): (s: Section)
    ensures Fits(s)
  {
    if rows == [] then EMPTY_SECTION else WithRow(Spelled(rows[..|rows| - 1]), rows[|rows| - 1])
  }

  /** The first value the schema forbids, entries past the slots counted as such. */
  function FirstFault(rows: seq<Row>): (fault: Option<ConfigError>)
    ensures fault.Some? ==> !Malformed(fault.value)
  {
    if rows == [] then None
    else
      var earlier := rows[..|rows| - 1];
      FirstOf(FirstFault(earlier), RowFault(Spelled(earlier), rows[|rows| - 1]))
  }

  /** Spelling goes a row at a time, and so does finding the first fault. */
  lemma OneRowMore(rows: seq<Row>, row: Row)
    ensures FirstFault(rows + [row]) == FirstOf(FirstFault(rows), RowFault(Spelled(rows), row))
    ensures Spelled(rows + [row]) == WithRow(Spelled(rows), row)
  {
    assert (rows + [row])[..|rows|] == rows;
  }

  lemma NoRows()
    ensures FirstFault([]).None? && Spelled([]) == EMPTY_SECTION
  {}

  /** The first list with two neighbours that do not ascend, buses looked at before devices. */
  function AscentFault(s: Section): (fault: Option<ConfigError>)
    ensures fault.Some? ==> Malformed(fault.value)
  {
    if exists i :: 0 <= i < |s.buses| - 1 && s.buses[i].bus >= s.buses[i + 1].bus then Some(OutOfOrder(BusKey))
    else if exists i :: 0 <= i < |s.devices| - 1 &&
                        SectionAccept.DevNumber(s.devices[i]) >= SectionAccept.DevNumber(s.devices[i + 1])
    then Some(OutOfOrder(DevKey))
    else None
  }

  /** Structure before values: a body is judged only once all of it is read. */
  function DecodeBody(b: seq<byte>, answer: bool): Result<Section, ConfigError> {
    var rows :- ParseBody(b, answer);
    if FirstFault(rows).Some? then Failure(FirstFault(rows).value)
    else if answer && AscentFault(Spelled(rows)).Some? then Failure(AscentFault(Spelled(rows)).value)
    else Success(Spelled(rows))
  }

  /** A bus entry's values the schema forbids. */
  predicate BusBad(bus: BusRecord) {
    || bus.rate == Some(0)
    || (bus.dataBits.Some? && bus.dataBits.value != 7 && bus.dataBits.value != 8)
    || (bus.stopBits.Some? && bus.stopBits.value != 1 && bus.stopBits.value != 2)
  }

  /** A device entry's: no id is 0, an address is one to eight bytes, and options are allocated and say which way. */
  predicate DeviceBad(d: DeviceRecord) {
    || d.dev == Some(0) || d.parent == Some(0)
    || (d.addr.Some? && (|d.addr.value| == 0 || |d.addr.value| > 8))
    || (d.options.Some? && (d.options.value.direction == Some(MagnitudeOnly) || d.options.value.unknown != []))
  }

  /** A value the schema forbids, in one entry taken alone. */
  predicate ValueBad(row: Row) {
    match row
    case BusRow(bus) => BusBad(bus)
    case DeviceRow(device) => DeviceBad(device)
  }

  /** What is wrong with one entry alone is noted exactly when one of its values is bad. */
  lemma BadExactly(row: Row)
    ensures ValueBad(row) <==>
            match row case BusRow(bus) => BusValueFault(bus).Some? case DeviceRow(device) =>
            DeviceValueFault(device).Some?
  {}

  function BusCount(rows: seq<Row>): nat {
    if rows == [] then 0 else BusCount(rows[..|rows| - 1]) + if rows[|rows| - 1].BusRow? then 1 else 0
  }

  ghost predicate SomeBad(rows: seq<Row>) { exists i :: 0 <= i < |rows| && ValueBad(rows[i]) }

  /** What makes a whole body unacceptable: one bad value, or more entries than slots. */
  ghost predicate OutOfBounds(rows: seq<Row>) {
    SomeBad(rows) || BusCount(rows) > MAX_CONFIG_BUSES || |rows| - BusCount(rows) > MAX_CONFIG_DEVICES
  }

  lemma OneMoreBad(rows: seq<Row>)
    requires rows != []
    ensures SomeBad(rows) <==> SomeBad(rows[..|rows| - 1]) || ValueBad(rows[|rows| - 1])
  {
    hide ValueBad;
    var earlier := rows[..|rows| - 1];
    assert forall i :: 0 <= i < |earlier| ==> rows[i] == earlier[i];
  }

  /** A body's values are refused exactly for a bad value or for an entry past the slots, wherever either stands. */
  lemma {:induction false} FaultExactly(rows: seq<Row>)
    ensures FirstFault(rows).Some? <==> OutOfBounds(rows)
    ensures FirstFault(rows).None?
            ==> |Spelled(rows).buses| == BusCount(rows) && |Spelled(rows).devices| == |rows| - BusCount(rows)
    ensures BusCount(rows) <= |rows|
  {
    hide SomeBad, BusValueFault, DeviceValueFault, BusValue, DeviceValue, ValueBad;
    if rows == [] {
      NothingBad();
    } else {
      OneMoreBad(rows);
      BadExactly(rows[|rows| - 1]);
      FaultExactly(rows[..|rows| - 1]);
    }
  }

  lemma NothingBad()
    ensures !SomeBad([])
  {}

  /**
   A write is answered outcome 3 exactly when its whole body parses and some value
   in it is out of schema or some entry has no slot, and error 1 exactly when it
   does not parse: no number of bad values hides a malformed item behind them.
   */
  lemma StructureBeforeValues(b: seq<byte>)
    ensures var r, rows := DecodeBody(b, false), ParseBody(b, false);
            && (r.Failure? && !Malformed(r.error) <==> rows.Success? && OutOfBounds(rows.value))
            && (r.Failure? && Malformed(r.error) <==> rows.Failure?)
            && (rows.Failure? ==> r == Failure(rows.error))
  {
    hide ParseBody, Malformed, FirstFault, Spelled, OutOfBounds;
    var rows := ParseBody(b, false);
    if rows.Success? {
      FaultExactly(rows.value);
    }
  }
}
