/** Buses and devices as entries of a section, and the site rules a section is measured against. */
module Sections {
  import opened Bytes
  import opened Wrappers
  import opened Limits
  import opened CborHeads

  // ---------------------------------------------------------------------------
  // Keys and refusals.

  datatype DeviceOption = CurrentDirectionOption | PylontechVersionOption | VeDirect3v3Option | PollPeriodOption

  datatype SectionKey =
    | BusesKey | DevicesKey
    | BusKey | RateKey | DataBitsKey | ParityKey | StopBitsKey
    | DevKey | DeviceBusKey | AddrKey | ProductKey | DialectKey | RoleKey | ParentKey | OptionsKey
    | OptionKey(option: DeviceOption)

  datatype ConfigError =
    | Missing(key: SectionKey)
    | Duplicate(key: SectionKey)
    | Cbor(why: CborError)
    | NothingSet(key: SectionKey)
    | UnknownValue(key: SectionKey)
    | OutOfOrder(key: SectionKey)
    | Length(key: SectionKey, len: nat)
    | OutOfSchema(key: SectionKey)
    | TooMany(key: SectionKey)
    | UnknownOption(number: int)
    | UnknownBus(bus: byte)
    | BusTwice(bus: byte)
    | NotOnTransport(bus: byte, key: SectionKey)
    | AddrRequired(bus: byte)
    | AddrNotAddressed(bus: byte)
    | AddrTwice(bus: byte)
    | DialectNotCarried(dialect: u16, bus: byte)
    | OptionNotInDialect(option: DeviceOption, dialect: u16)
    | PollTooShort(dialect: u16, min: u32)
    | UnknownDev(dev: u16)
    | DevTwice(dev: u16)
    | DeviceChanged(dev: u16)
    | DevsExhausted
    | ParentNotListed(dev: u16)
    | ParentLoop(dev: u16)
    | TooDeep(dev: u16)
    | AllocatorBehind(dev: u16)

  /** Answered as a malformed frame, error 1; every other refusal is outcome 3, invalid. */
  predicate Malformed(why: ConfigError) {
    why.Missing? || why.Duplicate? || why.Cbor? || why.NothingSet? || why.UnknownValue? || why.OutOfOrder?
  }

  // ---------------------------------------------------------------------------
  // Entries.

  datatype Transport = Rs485 | Can | VeDirect | LocalIo | Ip | Onewire | Internal

  predicate Addressed(t: Transport) { t.Rs485? || t.Can? || t.Ip? || t.Onewire? }

  predicate HasRate(t: Transport) { t.Rs485? || t.Can? || t.VeDirect? }

  predicate SerialLine(t: Transport) { t.Rs485? || t.VeDirect? }

  type DevId = x: int | 1 <= x <= 0xFFFF witness 1

  type NonZeroU32 = x: int | 1 <= x < 0x1_0000_0000 witness 1

  datatype DataBits = Seven | Eight

  datatype Parity = NoParity | Even | Odd

  datatype StopBits = One | Two

  datatype BusEntry = BusEntry(bus: byte, rate: Option<NonZeroU32>, dataBits: Option<DataBits>,
                               parity: Option<Parity>, stopBits: Option<StopBits>)

  predicate SetsSomething(entry: BusEntry) {
    entry.rate.Some? || entry.dataBits.Some? || entry.parity.Some? || entry.stopBits.Some?
  }

  type Addr = a: seq<byte> | 1 <= |a| <= MAX_ADDR witness [0]

  datatype CurrentDirection = PositiveIsIn | PositiveIsOut

  datatype PylontechVersion = V12 | V13

  datatype DeviceOptions = DeviceOptions(currentDirection: Option<CurrentDirection>,
                                         pylontechVersion: Option<PylontechVersion>,
                                         veDirect3v3: Option<bool>,
                                         pollPeriod: Option<u32>)

  const NO_OPTIONS: DeviceOptions := DeviceOptions(None, None, None, None)

  /** The options an entry carries, in option order. */
  function OptionsSet(o: DeviceOptions): seq<DeviceOption> {
    (if o.currentDirection.Some? then [CurrentDirectionOption] else []) +
    (if o.pylontechVersion.Some? then [PylontechVersionOption] else []) +
    (if o.veDirect3v3.Some? then [VeDirect3v3Option] else []) +
    (if o.pollPeriod.Some? then [PollPeriodOption] else [])
  }

  /** `dev` is optional in a write, where leaving it out adds a device, and present in every answer. */
  datatype DeviceEntry = DeviceEntry(dev: Option<DevId>, bus: byte, addr: Option<Addr>, product: u16,
                                     dialect: u16, role: u16, parent: Option<DevId>, options: DeviceOptions)

  datatype Section = Section(buses: seq<BusEntry>, devices: seq<DeviceEntry>)

  /** What the slots of a section hold: eight buses and sixteen devices at most. */
  predicate Fits(s: Section) {
    |s.buses| <= MAX_CONFIG_BUSES && |s.devices| <= MAX_CONFIG_DEVICES
  }

  /** A section as the controller answers with it. */
  predicate Answer(s: Section) {
    Fits(s) && forall d :: d in s.devices ==> d.dev.Some?
  }

  const EMPTY_SECTION: Section := Section([], [])

  // ---------------------------------------------------------------------------
  // Rules.

  datatype BoardBus = BoardBus(bus: byte, transport: Transport)

  datatype DialectRule = DialectRule(dialect: u16, transports: seq<Transport>, options: seq<DeviceOption>, minPoll: u32)

  datatype SiteRules = SiteRules(buses: seq<BoardBus>, dialects: seq<DialectRule>, maxDevices: nat, maxDepth: nat)

  function TransportOf(board: seq<BoardBus>, bus: byte): (transport: Option<Transport>) {
    if board == [] then None
    else if board[0].bus == bus then Some(board[0].transport)
    else TransportOf(board[1..], bus)
  }

  /** Of the rows for a dialect, the first whose transports include this one. */
  function RuleFor(table: seq<DialectRule>, dialect: u16, transport: Transport): Option<DialectRule> {
    if table == [] then None
    else if table[0].dialect == dialect && transport in table[0].transports then Some(table[0])
    else RuleFor(table[1..], dialect, transport)
  }
}
