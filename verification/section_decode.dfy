/**
 The decoder as it runs: one pass over the body, judging values as it goes and
 holding the first bad one back until the structure is known to be whole.
 */
module SectionDecode {
  import opened Bytes
  import opened Wrappers
  import opened CborReaders
  import opened Sections
  import opened SectionAccept
  import opened SectionWire
  import opened SectionParse

  /** Keeps the first fault noted in it, and ignores every later one. */
  class Invalid {
    var first: Option<ConfigError>

    constructor ()
      ensures first == None
    {
      first := None;
    }

    method Note(why: ConfigError)
      modifies this
      ensures first == FirstOf(old(first), Some(why))
    {
      if first.None? {
        first := Some(why);
      }
    }

    /** Note a fault where there is one. */
    method NoteIf(bad: bool, why: ConfigError)
      modifies this
      ensures first == FirstOf(old(first), Fault(bad, why))
    {
      if bad {
        Note(why);
      }
    }
  }

  /** A read's answer: what the structure gives there, and a reader past it. */
  ghost predicate Gave<T>(cbor: CborReader, spec: Read<T>, r: Result<T, ConfigError>)
    reads cbor
  {
    match spec
    case Failure(why) => r == Failure(why)
    case Success((value, state)) => r == Success(value) && cbor.Ready() && cbor.State() == state
  }

  method TakeNumber(cbor: CborReader, max: nat) returns (r: Result<nat, ConfigError>)
    requires cbor.Ready()
    modifies cbor
    ensures Gave(cbor, GetUnsigned(cbor.bytes, old(cbor.State()), max), r)
  {
    hide ReadNumber;
    var read := cbor.ReadUnsigned(max);
    return if read.Failure? then Failure(Cbor(read.error)) else Success(read.value);
  }

  method TakeKey(cbor: CborReader) returns (r: Result<int, ConfigError>)
    requires cbor.Ready()
    modifies cbor
    ensures Gave(cbor, Get(cbor.bytes, old(cbor.State()), AsKey), r)
  {
    hide ReadAs;
    var read := cbor.ReadKey();
    return if read.Failure? then Failure(Cbor(read.error)) else Success(read.value);
  }

  method TakeMap(cbor: CborReader) returns (r: Result<nat, ConfigError>)
    requires cbor.Ready()
    modifies cbor
    ensures Gave(cbor, Get(cbor.bytes, old(cbor.State()), AsMap), r)
  {
    hide ReadAs;
    var read := cbor.ReadMap();
    return if read.Failure? then Failure(Cbor(read.error)) else Success(read.value);
  }

  method TakeArray(cbor: CborReader) returns (r: Result<nat, ConfigError>)
    requires cbor.Ready()
    modifies cbor
    ensures Gave(cbor, Get(cbor.bytes, old(cbor.State()), AsArray), r)
  {
    hide ReadAs;
    var read := cbor.ReadArray();
    return if read.Failure? then Failure(Cbor(read.error)) else Success(read.value);
  }

  method TakeBool(cbor: CborReader) returns (r: Result<bool, ConfigError>)
    requires cbor.Ready()
    modifies cbor
    ensures Gave(cbor, Get(cbor.bytes, old(cbor.State()), AsBool), r)
  {
    hide ReadAs;
    var read := cbor.ReadBool();
    return if read.Failure? then Failure(Cbor(read.error)) else Success(read.value);
  }

  method TakeBytes(cbor: CborReader) returns (r: Result<seq<byte>, ConfigError>)
    requires cbor.Ready()
    modifies cbor
    ensures Gave(cbor, Get(cbor.bytes, old(cbor.State()), AsBytes), r)
  {
    hide ReadAs;
    var read := cbor.ReadBytes();
    return if read.Failure? then Failure(Cbor(read.error)) else Success(read.value);
  }

  /** One value read past, as the specification skips it. */
  method SkipValue(cbor: CborReader) returns (r: Result<(), ConfigError>)
    requires cbor.Ready()
    modifies cbor
    ensures match Skipped(cbor.bytes, old(cbor.State())) {
              case Failure(why) => r == Failure(why)
              case Success(state) => r.Success? && cbor.Ready() && cbor.State() == state
            }
  {
    hide SkipItem;
    var read := cbor.Skip();
    return if read.Failure? then Failure(Cbor(read.error)) else Success(());
  }

  method DecodeBusField(cbor: CborReader, key: int, slots: BusSlots) returns (r: Result<BusSlots, ConfigError>)
    requires cbor.Ready()
    modifies cbor
    ensures Gave(cbor, BusField(cbor.bytes, old(cbor.State()), key, slots), r)
  {
    hide GetUnsigned, Skipped;
    if key == 1 {
      var value :- TakeNumber(cbor, 0xFF);
      var slot :- Once(slots.bus, BusKey, value as byte);
      return Success(slots.(bus := slot));
    } else if key == 2 {
      var value :- TakeNumber(cbor, 0xFFFF_FFFF);
      var slot :- Once(slots.rate, RateKey, value as u32);
      return Success(slots.(rate := slot));
    } else if key == 3 {
      var value :- TakeNumber(cbor, 0xFF);
      var slot :- Once(slots.dataBits, DataBitsKey, value as byte);
      return Success(slots.(dataBits := slot));
    } else if key == 4 {
      var value :- TakeNumber(cbor, 0xFF);
      var parity :- Allocated(ParityOf(value), ParityKey);
      var slot :- Once(slots.parity, ParityKey, parity);
      return Success(slots.(parity := slot));
    } else if key == 5 {
      var value :- TakeNumber(cbor, 0xFF);
      var slot :- Once(slots.stopBits, StopBitsKey, value as byte);
      return Success(slots.(stopBits := slot));
    } else {
      var _ :- SkipValue(cbor);
      return Success(slots);
    }
  }

  /** One bus entry, its values judged once its pairs are read. */
  method DecodeBus(cbor: CborReader, invalid: Invalid) returns (r: Result<BusEntry, ConfigError>)
    requires cbor.Ready()
    modifies cbor, invalid
    ensures match ParseBus(cbor.bytes, old(cbor.State())) {
              case Failure(why) => r == Failure(why)
              case Success((bus, state)) =>
                && r == Success(BusValue(bus)) && cbor.Ready() && cbor.State() == state
                && invalid.first == FirstOf(old(invalid.first), BusValueFault(bus))
            }
  {
    hide Get, BusField;
    var pairs :- TakeMap(cbor);
    var slots := NO_BUS;
    ghost var entered := cbor.State();
    for i := 0 to pairs
      invariant cbor.Ready() && invalid.first == old(invalid.first)
      invariant BusFields(cbor.bytes, entered, pairs, NO_BUS) == BusFields(cbor.bytes, cbor.State(), pairs - i, slots)
    {
      var key :- TakeKey(cbor);
      slots :- DecodeBusField(cbor, key, slots);
    }
    if slots.bus.None? {
      return Failure(Missing(BusKey));
    }
    if slots.rate.None? && slots.dataBits.None? && slots.parity.None? && slots.stopBits.None? {
      return Failure(NothingSet(BusKey));
    }
    invalid.NoteIf(slots.rate == Some(0), OutOfSchema(RateKey));
    invalid.NoteIf(slots.dataBits.Some? && DataBitsOf(slots.dataBits.value).None?, OutOfSchema(DataBitsKey));
    invalid.NoteIf(slots.stopBits.Some? && StopBitsOf(slots.stopBits.value).None?, OutOfSchema(StopBitsKey));
    return Success(BusValue(BusRecord(slots.bus.value, slots.rate, slots.dataBits, slots.parity, slots.stopBits)));
  }

  method DecodeOptionField(cbor: CborReader, key: int, slots: OptionSlots) returns (r: Result<OptionSlots, ConfigError>)
    requires cbor.Ready() && 1 <= key <= 4
    modifies cbor
    ensures Gave(cbor, OptionField(cbor.bytes, old(cbor.State()), key, slots), r)
  {
    hide GetUnsigned, Get;
    if key == 1 {
      var value :- TakeNumber(cbor, 0xFF);
      var direction :- Allocated(DirectionOf(value), OptionKey(CurrentDirectionOption));
      var slot :- Once(slots.direction, OptionKey(CurrentDirectionOption), direction);
      return Success(slots.(direction := slot));
    } else if key == 2 {
      var value :- TakeNumber(cbor, 0xFF);
      var version :- Allocated(VersionOf(value), OptionKey(PylontechVersionOption));
      var slot :- Once(slots.version, OptionKey(PylontechVersionOption), version);
      return Success(slots.(version := slot));
    } else if key == 3 {
      var value :- TakeBool(cbor);
      var slot :- Once(slots.lowVoltage, OptionKey(VeDirect3v3Option), value);
      return Success(slots.(lowVoltage := slot));
    } else {
      var value :- TakeNumber(cbor, 0xFFFF_FFFF);
      var slot :- Once(slots.poll, OptionKey(PollPeriodOption), value as u32);
      return Success(slots.(poll := slot));
    }
  }

  /** The refusal an unallocated option leaves behind, the first of them. */
  function UnknownFault(unknown: seq<int>): Option<ConfigError> {
    if unknown != [] then Some(UnknownOption(unknown[0])) else None
  }

  lemma FieldIgnoresUnknown(b: seq<byte>, s: ReaderState, key: int, slots: OptionSlots, unknown: seq<int>)
    requires Within(b, s) && 1 <= key <= 4
    ensures OptionField(b, s, key, slots.(unknown := unknown)) ==
            match OptionField(b, s, key, slots) {
              case Failure(why) => Failure(why)
              case Success((filled, after)) => Success((filled.(unknown := unknown), after))
            }
    ensures OptionField(b, s, key, slots).Success? ==> OptionField(b, s, key, slots).value.0.unknown == slots.unknown
  {
    hide GetUnsigned, Get;
  }

  /** Options, an unallocated one noted and read past rather than skipped in silence. */
  method DecodeOptions(cbor: CborReader, invalid: Invalid)
      returns (r: Result<DeviceOptions, ConfigError>, ghost raw: OptionSlots)
    requires cbor.Ready()
    modifies cbor, invalid
    ensures match ParseOptions(cbor.bytes, old(cbor.State())) {
              case Failure(why) => r == Failure(why)
              case Success((options, state)) =>
                && r == Success(OptionsValue(options)) && raw == options && cbor.Ready() && cbor.State() == state
                && invalid.first == FirstOf(old(invalid.first), OptionsValueFault(options))
            }
  {
    hide Get, OptionField, Skipped;
    raw := NO_OPTION_SLOTS;
    var pairs :- TakeMap(cbor);
    if pairs == 0 {
      r := Failure(NothingSet(OptionsKey));
      return;
    }
    var slots := NO_OPTION_SLOTS;
    ghost var entered, unknown := cbor.State(), [];
    for i := 0 to pairs
      invariant cbor.Ready() && slots.unknown == []
      invariant invalid.first == FirstOf(old(invalid.first), UnknownFault(unknown))
      invariant OptionFields(cbor.bytes, entered, pairs, NO_OPTION_SLOTS)
             == OptionFields(cbor.bytes, cbor.State(), pairs - i, slots.(unknown := unknown))
    {
      var key :- TakeKey(cbor);
      ghost var keyed := cbor.State();
      if 1 <= key <= 4 {
        FieldIgnoresUnknown(cbor.bytes, keyed, key, slots, unknown);
        slots :- DecodeOptionField(cbor, key, slots);
      } else {
        UnknownField(cbor.bytes, keyed, key, slots.(unknown := unknown));
        invalid.Note(UnknownOption(key));
        var _ :- SkipValue(cbor);
        unknown := unknown + [key];
      }
    }
    raw := slots.(unknown := unknown);
    invalid.NoteIf(slots.direction == Some(MagnitudeOnly), OutOfSchema(OptionKey(CurrentDirectionOption)));
    r := Success(OptionsValue(slots));
  }

  lemma UnknownField(b: seq<byte>, s: ReaderState, key: int, slots: OptionSlots)
    requires Within(b, s) && !(1 <= key <= 4)
    ensures OptionField(b, s, key, slots) ==
            match Skipped(b, s) {
              case Failure(why) => Failure(why)
              case Success(after) => Success((slots.(unknown := slots.unknown + [key]), after))
            }
  {
    hide Skipped;
  }

  method DecodeDeviceField(cbor: CborReader, key: int, slots: DeviceSlots) returns (r: Result<DeviceSlots, ConfigError>)
    requires cbor.Ready() && key != 8
    modifies cbor
    ensures Gave(cbor, DeviceField(cbor.bytes, old(cbor.State()), key, slots), r)
  {
    hide GetUnsigned, Get, Skipped, ParseOptions;
    if key == 1 {
      var value :- TakeNumber(cbor, 0xFFFF);
      var slot :- Once(slots.dev, DevKey, value as u16);
      return Success(slots.(dev := slot));
    } else if key == 2 {
      var value :- TakeNumber(cbor, 0xFF);
      var slot :- Once(slots.bus, DeviceBusKey, value as byte);
      return Success(slots.(bus := slot));
    } else if key == 3 {
      var value :- TakeBytes(cbor);
      var slot :- Once(slots.addr, AddrKey, value);
      return Success(slots.(addr := slot));
    } else if key == 4 {
      var value :- TakeNumber(cbor, 0xFFFF);
      var slot :- Once(slots.product, ProductKey, value as u16);
      return Success(slots.(product := slot));
    } else if key == 5 {
      var value :- TakeNumber(cbor, 0xFFFF);
      var slot :- Once(slots.dialect, DialectKey, value as u16);
      return Success(slots.(dialect := slot));
    } else if key == 6 {
      var value :- TakeNumber(cbor, 0xFFFF);
      var slot :- Once(slots.role, RoleKey, value as u16);
      return Success(slots.(role := slot));
    } else if key == 7 {
      var value :- TakeNumber(cbor, 0xFFFF);
      var slot :- Once(slots.parent, ParentKey, value as u16);
      return Success(slots.(parent := slot));
    } else {
      var _ :- SkipValue(cbor);
      return Success(slots);
    }
  }

  lemma OptionsField(b: seq<byte>, s: ReaderState, slots: DeviceSlots)
    requires Within(b, s)
    ensures DeviceField(b, s, 8, slots) ==
            match ParseOptions(b, s) {
              case Failure(why) => Failure(why)
              case Success((options, after)) =>
                if slots.options.Some? then Failure(Duplicate(OptionsKey))
                else Success((slots.(options := Some(options)), after))
            }
  {
    hide ParseOptions;
  }

  lemma FieldIgnoresOptions(b: seq<byte>, s: ReaderState, key: int, slots: DeviceSlots, options: Option<OptionSlots>)
    requires Within(b, s) && key != 8
    ensures DeviceField(b, s, key, slots.(options := options)) ==
            match DeviceField(b, s, key, slots) {
              case Failure(why) => Failure(why)
              case Success((filled, after)) => Success((filled.(options := options), after))
            }
    ensures DeviceField(b, s, key, slots).Success? ==> DeviceField(b, s, key, slots).value.0.options == slots.options
  {
    hide GetUnsigned, Get, Skipped, ParseOptions;
  }

  /** One device entry, its options judged as they are read and the rest at its end. */
  method DecodeDevice(cbor: CborReader, invalid: Invalid, answer: bool) returns (r: Result<DeviceEntry, ConfigError>)
    requires cbor.Ready()
    modifies cbor, invalid
    ensures match ParseDevice(cbor.bytes, old(cbor.State()), answer) {
              case Failure(why) => r == Failure(why)
              case Success((device, state)) =>
                && r == Success(DeviceValue(device)) && cbor.Ready() && cbor.State() == state
                && invalid.first == FirstOf(old(invalid.first), DeviceValueFault(device))
            }
  {
    hide Get, DeviceField, ParseOptions, OptionsValue, OptionsValueFault;
    var pairs :- TakeMap(cbor);
    var slots, options: Option<DeviceOptions> := NO_DEVICE, None;
    ghost var entered, raw: Option<OptionSlots> := cbor.State(), None;
    for i := 0 to pairs
      invariant cbor.Ready() && slots.options.None?
      invariant options == if raw.None? then None else Some(OptionsValue(raw.value))
      invariant invalid.first == FirstOf(old(invalid.first), OptionsFaultIn(raw))
      invariant DeviceFields(cbor.bytes, entered, pairs, NO_DEVICE)
             == DeviceFields(cbor.bytes, cbor.State(), pairs - i, slots.(options := raw))
    {
      var key :- TakeKey(cbor);
      if key == 8 {
        OptionsField(cbor.bytes, cbor.State(), slots.(options := raw));
        var read, arrived := DecodeOptions(cbor, invalid);
        if read.Failure? {
          return Failure(read.error);
        }
        options :- Once(options, OptionsKey, read.value);
        raw := Some(arrived);
      } else {
        FieldIgnoresOptions(cbor.bytes, cbor.State(), key, slots, raw);
        slots :- DecodeDeviceField(cbor, key, slots);
      }
    }
    var missing := DeviceMissing(slots, answer);
    if missing.Some? {
      return Failure(missing.value);
    }
    JudgeEntry(invalid, slots);
    var device := DeviceValue(Taken(slots));
    return Success(device.(options := if options.None? then NO_OPTIONS else options.value));
  }

  /** The values of an entry itself, its options aside. */
  method JudgeEntry(invalid: Invalid, slots: DeviceSlots)
    requires Complete(slots)
    modifies invalid
    ensures invalid.first == FirstOf(old(invalid.first), EntryFault(Taken(slots)))
  {
    invalid.NoteIf(slots.dev == Some(0), OutOfSchema(DevKey));
    if slots.addr.Some? && !AddrFits(slots.addr.value) {
      invalid.Note(Length(AddrKey, |slots.addr.value|));
    }
    invalid.NoteIf(slots.parent == Some(0), OutOfSchema(ParentKey));
  }

  /** The list of buses: each entry becomes a row, and each row without a slot a fault. */
  method DecodeBuses(cbor: CborReader, invalid: Invalid, section: BusesAndDevices, ghost rows: seq<Row>)
    returns (r: Result<(), ConfigError>, ghost after: seq<Row>)
    requires cbor.Ready() && section.Valid()
    requires invalid.first == FirstFault(rows) && section.Contents() == Spelled(rows)
    modifies cbor, invalid, section.buses
    ensures section.Valid()
    ensures match BusList(cbor.bytes, old(cbor.State()), rows) {
              case Failure(why) => r == Failure(why)
              case Success((read, state)) =>
                && r.Success? && after == read && cbor.Ready() && cbor.State() == state
                && invalid.first == FirstFault(read) && section.Contents() == Spelled(read)
            }
  {
    hide Get, ParseBus, FirstFault, Spelled, BusValueFault, BusValue;
    after := rows;
    var count :- TakeArray(cbor);
    ghost var entered := cbor.State();
    for i := 0 to count
      invariant cbor.Ready() && section.Valid()
      invariant invalid.first == FirstFault(after) && section.Contents() == Spelled(after)
      invariant BusRows(cbor.bytes, entered, count, rows) == BusRows(cbor.bytes, cbor.State(), count - i, after)
    {
      ghost var at := cbor.State();
      var entry :- DecodeBus(cbor, invalid);
      ghost var bus := ParseBus(cbor.bytes, at).value.0;
      OneRowMore(after, BusRow(bus));
      var pushed := section.PushBus(entry);
      invalid.NoteIf(pushed.Failure?, TooMany(BusesKey));
      after := after + [BusRow(bus)];
    }
    r := Success(());
  }

  method DecodeDevices(cbor: CborReader, invalid: Invalid, section: BusesAndDevices, answer: bool, ghost rows: seq<Row>)
    returns (r: Result<(), ConfigError>, ghost after: seq<Row>)
    requires cbor.Ready() && section.Valid()
    requires invalid.first == FirstFault(rows) && section.Contents() == Spelled(rows)
    modifies cbor, invalid, section.devices
    ensures section.Valid()
    ensures match DeviceList(cbor.bytes, old(cbor.State()), answer, rows) {
              case Failure(why) => r == Failure(why)
              case Success((read, state)) =>
                && r.Success? && after == read && cbor.Ready() && cbor.State() == state
                && invalid.first == FirstFault(read) && section.Contents() == Spelled(read)
            }
  {
    hide Get, ParseDevice, FirstFault, Spelled, DeviceValueFault, DeviceValue;
    after := rows;
    var count :- TakeArray(cbor);
    ghost var entered := cbor.State();
    for i := 0 to count
      invariant cbor.Ready() && section.Valid()
      invariant invalid.first == FirstFault(after) && section.Contents() == Spelled(after)
      invariant DeviceRows(cbor.bytes, entered, answer, count, rows)
                == DeviceRows(cbor.bytes, cbor.State(), answer, count - i, after)
    {
      ghost var at := cbor.State();
      var entry :- DecodeDevice(cbor, invalid, answer);
      ghost var device := ParseDevice(cbor.bytes, at, answer).value.0;
      OneRowMore(after, DeviceRow(device));
      var pushed := section.PushDevice(entry);
      invalid.NoteIf(pushed.Failure?, TooMany(DevicesKey));
      after := after + [DeviceRow(device)];
    }
    r := Success(());
  }

  lemma ListField(b: seq<byte>, s: ReaderState, answer: bool, slots: BodySlots)
    requires Within(b, s)
    ensures BodyField(b, s, answer, 1, slots) ==
            match BusList(b, s, slots.rows) {
              case Failure(why) => if slots.buses.Some? then Failure(Duplicate(BusesKey)) else Failure(why)
              case Success((rows, after)) =>
                if slots.buses.Some? then Failure(Duplicate(BusesKey))
                  else Success((BodySlots(Some(()), slots.devices, rows), after))
            }
    ensures BodyField(b, s, answer, 2, slots) ==
            match DeviceList(b, s, answer, slots.rows) {
              case Failure(why) => if slots.devices.Some? then Failure(Duplicate(DevicesKey)) else Failure(why)
              case Success((rows, after)) =>
                if slots.devices.Some? then Failure(Duplicate(DevicesKey))
                  else Success((BodySlots(slots.buses, Some(()), rows), after))
            }
  {
    hide BusList, DeviceList;
  }

  lemma OtherField(b: seq<byte>, s: ReaderState, answer: bool, key: int, slots: BodySlots)
    requires Within(b, s) && key != 1 && key != 2
    ensures BodyField(b, s, answer, key, slots) ==
            match Skipped(b, s) {
              case Failure(why) => Failure(why)
              case Success(after) => Success((slots, after))
            }
  {
    hide Skipped;
  }

  lemma NoFieldsLeft(b: seq<byte>, s: ReaderState, answer: bool, slots: BodySlots)
    requires Within(b, s)
    ensures BodyFields(b, s, answer, 0, slots) == Success((slots, s))
  {}

  lemma FieldsStep(b: seq<byte>, s: ReaderState, answer: bool, left: nat, slots: BodySlots)
    requires Within(b, s) && left > 0
    ensures BodyFields(b, s, answer, left, slots) ==
            match Get(b, s, AsKey) {
              case Failure(why) => Failure(why)
              case Success((key, keyed)) =>
                match BodyField(b, keyed, answer, key, slots)
                case Failure(why) => Failure(why)
                case Success((filled, after)) => BodyFields(b, after, answer, left - 1, filled)
            }
  {
    hide Get, BodyField;
  }

  /** One key of the body and what is under it. */
  method DecodeField(cbor: CborReader, invalid: Invalid, section: BusesAndDevices, answer: bool, key: int,
                     buses: bool, devices: bool, ghost rows: seq<Row>)
    returns (r: Result<(bool, bool), ConfigError>, ghost after: seq<Row>)
    requires cbor.Ready() && section.Valid()
    requires invalid.first == FirstFault(rows) && section.Contents() == Spelled(rows)
    modifies cbor, invalid, section.buses, section.devices
    ensures section.Valid()
    ensures match BodyField(cbor.bytes, old(cbor.State()), answer, key, Slots(buses, devices, rows)) {
              case Failure(why) => r == Failure(why)
              case Success((slots, state)) =>
                && r.Success? && slots == Slots(r.value.0, r.value.1, after) && cbor.Ready() && cbor.State() == state
                && invalid.first == FirstFault(after) && section.Contents() == Spelled(after)
            }
  {
    hide BodyField, BusList, DeviceList, Skipped, FirstFault, Spelled;
    after := rows;
    ListField(cbor.bytes, cbor.State(), answer, Slots(buses, devices, rows));
    if key == 1 {
      if buses {
        r := Failure(Duplicate(BusesKey));
        return;
      }
      var read, list := DecodeBuses(cbor, invalid, section, rows);
      after := list;
      r := if read.Failure? then Failure(read.error) else Success((true, devices));
    } else if key == 2 {
      if devices {
        r := Failure(Duplicate(DevicesKey));
        return;
      }
      var read, list := DecodeDevices(cbor, invalid, section, answer, rows);
      after := list;
      r := if read.Failure? then Failure(read.error) else Success((buses, true));
    } else {
      OtherField(cbor.bytes, cbor.State(), answer, key, Slots(buses, devices, rows));
      var read := SkipValue(cbor);
      r := if read.Failure? then Failure(read.error) else Success((buses, devices));
    }
  }

  /** Which lists have been read, and what was in them. */
  function Slots(buses: bool, devices: bool, rows: seq<Row>): BodySlots {
    BodySlots(if buses then Some(()) else None, if devices then Some(()) else None, rows)
  }

  /** What a body is answered once its pairs have been read, or have not been. */
  function Judged(b: seq<byte>, answer: bool, fields: Read<BodySlots>): Result<Section, ConfigError>
    requires fields.Success? ==> Within(b, fields.value.1)
  {
    match fields
    case Failure(why) => Failure(why)
    case Success((slots, after)) =>
      if Finished(b, after).Failure? then Failure(Cbor(Finished(b, after).error))
      else if slots.buses.None? then Failure(Missing(BusesKey))
      else if slots.devices.None? then Failure(Missing(DevicesKey))
      else if FirstFault(slots.rows).Some? then Failure(FirstFault(slots.rows).value)
      else if answer && AscentFault(Spelled(slots.rows)).Some? then Failure(AscentFault(Spelled(slots.rows)).value)
      else Success(Spelled(slots.rows))
  }

  lemma BodyJudged(b: seq<byte>, answer: bool)
    ensures Get(b, START, AsMap).Failure? ==> DecodeBody(b, answer) == Failure(Get(b, START, AsMap).error)
    ensures Get(b, START, AsMap).Success? ==>
              var pairs := Get(b, START, AsMap).value;
              DecodeBody(b, answer) == Judged(b, answer, BodyFields(b, pairs.1, answer, pairs.0, NO_BODY))
  {
    hide Get, BodyFields, Finished, FirstFault, Spelled, AscentFault, Malformed;
  }

  /**
   Decode a body in one pass. What it answers is what reading the whole structure
   first and judging the values after would: the first malformed item anywhere, and
   only failing that the first bad value.
   */
  method Decode(body: seq<byte>, answer: bool) returns (r: Result<BusesAndDevices, ConfigError>)
    ensures match DecodeBody(body, answer) {
              case Failure(why) => r == Failure(why)
              case Success(section) => r.Success? && r.value.Valid() && fresh(r.value) && r.value.Contents() == section
            }
  {
    hide DecodeBody, Get, BodyField, BodyFields, Finished, FirstFault, Spelled, AscentFault;
    BodyJudged(body, answer);
    var invalid := new Invalid();
    var section := new BusesAndDevices();
    var cbor := new CborReader(body, true);
    NoRows();
    var pairs :- TakeMap(cbor);
    var buses, devices := false, false;
    ghost var entered, rows := cbor.State(), [];
    assert Slots(false, false, []) == NO_BODY;
    for i := 0 to pairs
      invariant fresh(invalid) && fresh(section) && fresh(section.buses) && fresh(section.devices) && fresh(cbor)
      invariant cbor.Ready() && cbor.bytes == body && section.Valid()
      invariant invalid.first == FirstFault(rows) && section.Contents() == Spelled(rows)
      invariant BodyFields(body, entered, answer, pairs, NO_BODY)
             == BodyFields(body, cbor.State(), answer, pairs - i, Slots(buses, devices, rows))
    {
      FieldsStep(body, cbor.State(), answer, pairs - i, Slots(buses, devices, rows));
      var key :- TakeKey(cbor);
      var field, after := DecodeField(cbor, invalid, section, answer, key, buses, devices, rows);
      if field.Failure? {
        return Failure(field.error);
      }
      buses, devices, rows := field.value.0, field.value.1, after;
    }
    NoFieldsLeft(body, cbor.State(), answer, Slots(buses, devices, rows));
    var finished := cbor.Finish();
    if finished.Failure? {
      return Failure(Cbor(finished.error));
    }
    if !buses {
      return Failure(Missing(BusesKey));
    }
    if !devices {
      return Failure(Missing(DevicesKey));
    }
    if invalid.first.Some? {
      return Failure(invalid.first.value);
    }
    if answer {
      var ascending := AscentFault(Section(Held(section.buses[..]), Held(section.devices[..])));
      if ascending.Some? {
        return Failure(ascending.value);
      }
    }
    return Success(section);
  }
}
