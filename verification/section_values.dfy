/**
 What an accepted body keeps of what arrived: every value of every entry, in its
 place, and what a refusal of a value says of the entry it stands in.
 */
module SectionValues {
  import opened Bytes
  import opened Wrappers
  import opened Limits
  import opened Sections
  import opened SectionWire
  import opened SectionParse

  /** The entry says everything that arrived, number for number, and nothing else. */
  predicate BusCarries(entry: BusEntry, raw: BusRecord) {
    && entry.bus == raw.bus && entry.parity == raw.parity
    && raw.rate == (match entry.rate case None => None case Some(rate) => Some(rate))
    && raw.dataBits == (match entry.dataBits case None => None case Some(Seven) => Some(7) case Some(Eight) => Some(8))
    && raw.stopBits == (match entry.stopBits case None => None case Some(One) => Some(1) case Some(Two) => Some(2))
  }

  predicate OptionsCarry(options: DeviceOptions, raw: Option<OptionSlots>) {
    match raw
    case None => options == DeviceOptions(None, None, None, None)
    case Some(slots) =>
      && slots.unknown == [] && options.pylontechVersion == slots.version && options.veDirect3v3 == slots.lowVoltage
      && options.pollPeriod == slots.poll
      && slots.direction == (match options.currentDirection
                             case None => None
                             case Some(PositiveIsIn) => Some(PositiveIn)
                             case Some(PositiveIsOut) => Some(PositiveOut))
  }

  predicate DeviceCarries(entry: DeviceEntry, raw: DeviceRecord) {
    && raw.dev == (match entry.dev case None => None case Some(dev) => Some(dev))
    && entry.bus == raw.bus && entry.product == raw.product && entry.dialect == raw.dialect && entry.role == raw.role
    && raw.addr == (match entry.addr case None => None case Some(addr) => Some(addr))
    && raw.parent == (match entry.parent case None => None case Some(parent) => Some(parent))
    && OptionsCarry(entry.options, raw.options)
  }

  /** Row `i` is the entry of its own list at its own place. */
  predicate RowCarried(s: Section, rows: seq<Row>, i: nat)
    requires i < |rows|
  {
    var buses := BusCount(rows[..i]);
    match rows[i]
    case BusRow(raw) => buses < |s.buses| && BusCarries(s.buses[buses], raw)
    case DeviceRow(raw) => buses <= i && i - buses < |s.devices| && DeviceCarries(s.devices[i - buses], raw)
  }

  lemma BusKept(raw: BusRecord)
    requires BusValueFault(raw).None?
    ensures BusCarries(BusValue(raw), raw)
  {}

  lemma DeviceKept(raw: DeviceRecord)
    requires DeviceValueFault(raw).None?
    ensures DeviceCarries(DeviceValue(raw), raw)
  {}

  lemma CountedLast(rows: seq<Row>, row: Row)
    ensures BusCount(rows + [row]) == BusCount(rows) + if row.BusRow? then 1 else 0
  {
    assert (rows + [row])[..|rows|] == rows;
  }

  /** A body with no bad value loses none: each row is an entry that says all of it, in the order of its list. */
  lemma {:induction false} NothingLost(rows: seq<Row>)
    requires FirstFault(rows).None?
    ensures var s := Spelled(rows);
            && |s.buses| == BusCount(rows) && |s.devices| == |rows| - BusCount(rows)
            && forall i :: 0 <= i < |rows| ==> RowCarried(s, rows, i)
  {
    hide BusValueFault, DeviceValueFault, BusValue, DeviceValue, BusCarries, DeviceCarries;
    FaultExactly(rows);
    if rows != [] {
      var earlier, last := rows[..|rows| - 1], rows[|rows| - 1];
      NothingLost(earlier);
      FaultExactly(earlier);
      assert rows == earlier + [last];
      forall i | 0 <= i < |rows| ensures RowCarried(Spelled(rows), rows, i) {
        if i < |earlier| {
          assert RowCarried(Spelled(earlier), earlier, i) && earlier[..i] == rows[..i];
        } else {
          assert rows[..i] == earlier;
          match last
          case BusRow(raw) => BusKept(raw);
          case DeviceRow(raw) => DeviceKept(raw);
        }
      }
    }
  }

  // ---------------------------------------------------------------------------
  // What a refusal says.

  predicate OptionSays(why: ConfigError, slots: OptionSlots) {
    match why
    case UnknownOption(number) => slots.unknown != [] && number == slots.unknown[0]
    case OutOfSchema(key) => key == OptionKey(CurrentDirectionOption) && slots.direction == Some(MagnitudeOnly)
    case _ => false
  }

  predicate RowSays(why: ConfigError, row: Row) {
    match row
    case BusRow(raw) =>
      || (why == OutOfSchema(RateKey) && raw.rate == Some(0))
      || (why == OutOfSchema(DataBitsKey) && raw.dataBits.Some? && raw.dataBits.value !in [7, 8])
      || (why == OutOfSchema(StopBitsKey) && raw.stopBits.Some? && raw.stopBits.value !in [1, 2])
    case DeviceRow(raw) =>
      || (raw.options.Some? && OptionSays(why, raw.options.value))
      || (why == OutOfSchema(DevKey) && raw.dev == Some(0))
      || (why == OutOfSchema(ParentKey) && raw.parent == Some(0))
      || (raw.addr.Some? && why == Length(AddrKey, |raw.addr.value|) && (|raw.addr.value| == 0 || |raw.addr.value| > 8))
  }

  /** The first entry with something wrong, all before it sound and in their slots. */
  ghost predicate FaultAt(rows: seq<Row>, i: nat, why: ConfigError) {
    && i < |rows| && FirstFault(rows[..i]).None?
    && (if ValueBad(rows[i]) then RowSays(why, rows[i])
        else if rows[i].BusRow? then BusCount(rows[..i]) == 8 && why == TooMany(BusesKey)
        else i - BusCount(rows[..i]) == 16 && why == TooMany(DevicesKey))
  }

  lemma RowFaultSays(row: Row)
    ensures match row
            case BusRow(raw) =>
              (match BusValueFault(raw) case Some(why) => ValueBad(row)
               && RowSays(why, row) case None => !ValueBad(row))
            case DeviceRow(raw) =>
              (match DeviceValueFault(raw) case Some(why) => ValueBad(row)
               && RowSays(why, row) case None => !ValueBad(row))
  {}

  /** The refusal is of the first entry that has something wrong, and names it. */
  lemma {:induction false} FaultSays(rows: seq<Row>)
    requires FirstFault(rows).Some?
    ensures exists i :: FaultAt(rows, i, FirstFault(rows).value)
  {
    hide BusValueFault, DeviceValueFault, ValueBad, RowSays;
    var earlier, last := rows[..|rows| - 1], rows[|rows| - 1];
    if FirstFault(earlier).Some? {
      FaultSays(earlier);
      var i: nat :| FaultAt(earlier, i, FirstFault(earlier).value);
      assert earlier[..i] == rows[..i] && earlier[i] == rows[i];
      assert FaultAt(rows, i, FirstFault(rows).value);
    } else {
      FaultExactly(earlier);
      RowFaultSays(last);
      assert rows[..|rows| - 1] == earlier;
      assert FaultAt(rows, |rows| - 1, FirstFault(rows).value);
    }
  }
}
