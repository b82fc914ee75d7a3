/**
 When a section fits a site: every fault in the order it is looked for, and the
 condition on the whole section under which there is none.
 */
module SectionChecks {
  import opened Wrappers
  import opened Limits
  import opened Sections
  import opened Chains
  import opened Sorting

  // ---------------------------------------------------------------------------
  // The first fault, in the order faults are looked for.

  function BusEntryFault(entry: BusEntry, transport: Transport): Option<ConfigError> {
    if !SetsSomething(entry) then Some(NothingSet(BusKey))
    else if entry.rate.Some? && !HasRate(transport) then Some(NotOnTransport(entry.bus, RateKey))
    else if !SerialLine(transport) then
      if entry.dataBits.Some? then Some(NotOnTransport(entry.bus, DataBitsKey))
      else if entry.parity.Some? then Some(NotOnTransport(entry.bus, ParityKey))
      else if entry.stopBits.Some? then Some(NotOnTransport(entry.bus, StopBitsKey))
      else None
    else None
  }

  function BusesFault(buses: seq<BusEntry>, board: seq<BoardBus>): (fault: Option<ConfigError>)
    ensures fault.Some? ==> !fault.value.AllocatorBehind?
  {
    if buses == [] then None
    else
      var entry, later := buses[0], buses[1..];
      match TransportOf(board, entry.bus)
      case None => Some(UnknownBus(entry.bus))
      case Some(transport) =>
        if exists other :: other in later && other.bus == entry.bus then Some(BusTwice(entry.bus))
        else if BusEntryFault(entry, transport).Some? then BusEntryFault(entry, transport)
        else BusesFault(later, board)
  }

  function AddrFault(device: DeviceEntry, later: seq<DeviceEntry>, transport: Transport): Option<ConfigError> {
    if device.addr.None? then if Addressed(transport) then Some(AddrRequired(device.bus)) else None
    else if !Addressed(transport) then Some(AddrNotAddressed(device.bus))
    else if exists other :: other in later && other.bus == device.bus && other.addr == device.addr
      then Some(AddrTwice(device.bus))
    else None
  }

  /** The first option carried that the rule does not define. */
  function OptionNotDefined(carried: seq<DeviceOption>, rule: DialectRule): (fault: Option<ConfigError>)
    ensures fault.Some? ==> !fault.value.AllocatorBehind?
  {
    if carried == [] then None
    else if carried[0] !in rule.options then Some(OptionNotInDialect(carried[0], rule.dialect))
    else OptionNotDefined(carried[1..], rule)
  }

  function OptionsFault(options: DeviceOptions, rule: DialectRule): Option<ConfigError> {
    var undefined := OptionNotDefined(OptionsSet(options), rule);
    if undefined.Some? then undefined
    else if options.pollPeriod.Some? && options.pollPeriod.value < rule.minPoll
      then Some(PollTooShort(rule.dialect, rule.minPoll))
    else None
  }

  function DeviceFault(device: DeviceEntry, later: seq<DeviceEntry>, rules: SiteRules): Option<ConfigError> {
    match TransportOf(rules.buses, device.bus)
    case None => Some(UnknownBus(device.bus))
    case Some(transport) =>
      if AddrFault(device, later, transport).Some? then AddrFault(device, later, transport)
      else
        match RuleFor(rules.dialects, device.dialect, transport)
        case None => Some(DialectNotCarried(device.dialect, device.bus))
        case Some(rule) =>
          if OptionsFault(device.options, rule).Some? then OptionsFault(device.options, rule)
          else if device.dev.Some? && exists other :: other in later && other.dev == device.dev
            then Some(DevTwice(device.dev.value))
          else None
  }

  function DevicesFault(devices: seq<DeviceEntry>, rules: SiteRules): (fault: Option<ConfigError>)
    ensures fault.Some? ==> !fault.value.AllocatorBehind?
  {
    if devices == [] then None
    else
      var fault := DeviceFault(devices[0], devices[1..], rules);
      if fault.Some? then fault else DevicesFault(devices[1..], rules)
  }

  function ChainsFault(all: seq<DeviceEntry>, devices: seq<DeviceEntry>, depth: nat): (fault: Option<ConfigError>)
    ensures fault.Some? ==> !fault.value.AllocatorBehind?
  {
    if devices == [] then None
    else
      var fault := ChainFault(all, devices[0], depth);
      if fault.Some? then fault else ChainsFault(all, devices[1..], depth)
  }

  function CheckFault(s: Section, rules: SiteRules): (fault: Option<ConfigError>)
    ensures fault.Some? ==> !fault.value.AllocatorBehind?
  {
    var busesFault := BusesFault(s.buses, rules.buses);
    if busesFault.Some? then busesFault
    else if |s.devices| > rules.maxDevices || |s.devices| > MAX_CONFIG_DEVICES then Some(TooMany(DevicesKey))
    else
      var devicesFault := DevicesFault(s.devices, rules);
      if devicesFault.Some? then devicesFault else ChainsFault(s.devices, s.devices, rules.maxDepth)
  }

  function Refused(fault: Option<ConfigError>): Result<(), ConfigError> {
    match fault
    case None => Success(())
    case Some(why) => Failure(why)
  }

  // ---------------------------------------------------------------------------
  // The checks as they run.

  method CheckBuses(buses: seq<BusEntry>, board: seq<BoardBus>) returns (r: Result<(), ConfigError>)
    ensures r == Refused(BusesFault(buses, board))
  {
    for i := 0 to |buses|
      invariant BusesFault(buses[i..], board) == BusesFault(buses, board)
    {
      var entry := buses[i];
      assert buses[i..][0] == entry && buses[i..][1..] == buses[i + 1..];
      var transport := TransportOf(board, entry.bus);
      if transport.None? {
        return Failure(UnknownBus(entry.bus));
      }
      if exists other :: other in buses[i + 1..] && other.bus == entry.bus {
        return Failure(BusTwice(entry.bus));
      }
      var fault := BusEntryFault(entry, transport.value);
      if fault.Some? {
        return Failure(fault.value);
      }
    }
    return Success(());
  }

  method CheckOptions(options: DeviceOptions, rule: DialectRule) returns (r: Result<(), ConfigError>)
    ensures r == Refused(OptionsFault(options, rule))
  {
    var carried := OptionsSet(options);
    for i := 0 to |carried|
      invariant OptionNotDefined(carried[i..], rule) == OptionNotDefined(carried, rule)
    {
      assert carried[i..][1..] == carried[i + 1..];
      if carried[i] !in rule.options {
        return Failure(OptionNotInDialect(carried[i], rule.dialect));
      }
    }
    if options.pollPeriod.Some? && options.pollPeriod.value < rule.minPoll {
      return Failure(PollTooShort(rule.dialect, rule.minPoll));
    }
    return Success(());
  }

  method CheckDevices(devices: seq<DeviceEntry>, rules: SiteRules) returns (r: Result<(), ConfigError>)
    ensures r == Refused(DevicesFault(devices, rules))
  {
    for i := 0 to |devices|
      invariant DevicesFault(devices[i..], rules) == DevicesFault(devices, rules)
    {
      hide OptionsFault, AddrFault, TransportOf, RuleFor;
      var device, later := devices[i], devices[i + 1..];
      assert devices[i..][0] == device && devices[i..][1..] == later;
      var transport := TransportOf(rules.buses, device.bus);
      if transport.None? {
        return Failure(UnknownBus(device.bus));
      }
      var addr := AddrFault(device, later, transport.value);
      if addr.Some? {
        return Failure(addr.value);
      }
      var rule := RuleFor(rules.dialects, device.dialect, transport.value);
      if rule.None? {
        return Failure(DialectNotCarried(device.dialect, device.bus));
      }
      var options := CheckOptions(device.options, rule.value);
      if options.Failure? {
        return options;
      }
      if device.dev.Some? && exists other :: other in later && other.dev == device.dev {
        return Failure(DevTwice(device.dev.value));
      }
    }
    return Success(());
  }

  method Check(s: Section, rules: SiteRules) returns (r: Result<(), ConfigError>)
    ensures r == Refused(CheckFault(s, rules))
  {
    hide BusesFault, DevicesFault, ChainFault;
    var buses := CheckBuses(s.buses, rules.buses);
    if buses.Failure? {
      return buses;
    }
    var devices := s.devices;
    if |devices| > rules.maxDevices || |devices| > MAX_CONFIG_DEVICES {
      return Failure(TooMany(DevicesKey));
    }
    var each := CheckDevices(devices, rules);
    if each.Failure? {
      return each;
    }
    for i := 0 to |devices|
      invariant ChainsFault(devices, devices[i..], rules.maxDepth) == ChainsFault(devices, devices, rules.maxDepth)
    {
      assert devices[i..][0] == devices[i] && devices[i..][1..] == devices[i + 1..];
      var chain := CheckChain(devices, devices[i], rules.maxDepth);
      if chain.Failure? {
        return chain;
      }
    }
    return Success(());
  }

  // ---------------------------------------------------------------------------
  // What passing means.

  /** Settings the bus's transport has, and at least one of them. */
  predicate BusAllowed(entry: BusEntry, board: seq<BoardBus>) {
    var transport := TransportOf(board, entry.bus);
    && transport.Some? && SetsSomething(entry)
    && (entry.rate.Some? ==> HasRate(transport.value))
    && (entry.dataBits.Some? || entry.parity.Some? || entry.stopBits.Some? ==> SerialLine(transport.value))
  }

  predicate SameBus(a: BusEntry, b: BusEntry) { a.bus == b.bus }

  /** The entry's address and options agree with its bus's transport and its dialect's rule. */
  predicate DeviceAllowed(d: DeviceEntry, rules: SiteRules) {
    var transport := TransportOf(rules.buses, d.bus);
    && transport.Some? && (d.addr.Some? <==> Addressed(transport.value))
    && var rule := RuleFor(rules.dialects, d.dialect, transport.value);
       && rule.Some?
       && (forall option :: option in OptionsSet(d.options) ==> option in rule.value.options)
       && (d.options.pollPeriod.Some? ==> rule.value.minPoll <= d.options.pollPeriod.value)
  }

  /** Entries that cannot both stand: the same `dev`, or the same bus and address. */
  predicate Clash(a: DeviceEntry, b: DeviceEntry) {
    (a.dev.Some? && a.dev == b.dev) || (a.bus == b.bus && a.addr.Some? && a.addr == b.addr)
  }

  ghost predicate Admissible(s: Section, rules: SiteRules) {
    && (forall entry :: entry in s.buses ==> BusAllowed(entry, rules.buses))
    && Apart(SameBus, s.buses)
    && |s.devices| <= rules.maxDevices && |s.devices| <= MAX_CONFIG_DEVICES
    && (forall d :: d in s.devices ==> DeviceAllowed(d, rules))
    && Apart(Clash, s.devices)
    && Forest(s.devices, rules.maxDepth)
  }

  lemma EntryExactly(entry: BusEntry, board: seq<BoardBus>)
    ensures BusAllowed(entry, board) <==>
            var transport := TransportOf(board, entry.bus);
            transport.Some? && BusEntryFault(entry, transport.value).None?
  {}

  lemma {:induction false} BusesExactly(buses: seq<BusEntry>, board: seq<BoardBus>)
    ensures BusesFault(buses, board).None? <==>
            (forall entry :: entry in buses ==> BusAllowed(entry, board)) && Apart(SameBus, buses)
  {
    hide BusAllowed, BusEntryFault, TransportOf, Apart;
    if buses == [] {
      NothingClashes(buses);
    } else {
      var later := buses[1..];
      BusesExactly(later, board);
      ApartFirst(SameBus, buses);
      EntryExactly(buses[0], board);
      assert forall entry :: entry in buses <==> entry == buses[0] || entry in later;
    }
  }

  lemma NothingClashes(buses: seq<BusEntry>)
    requires buses == []
    ensures Apart(SameBus, buses)
  {}

  lemma ApartFirst<T(!new)>(clash: (T, T) -> bool, s: seq<T>)
    requires s != []
    ensures Apart(clash, s) <==> (forall y :: y in s[1..] ==> !clash(s[0], y)) && Apart(clash, s[1..])
  {
    var later := s[1..];
    if Apart(clash, s) {
      forall y | y in later ensures !clash(s[0], y) {
        var j :| 0 <= j < |later| && later[j] == y;
        assert s[j + 1] == y;
      }
    }
    if (forall y :: y in later ==> !clash(s[0], y)) && Apart(clash, later) {
      forall i, j | 0 <= i < j < |s| ensures !clash(s[i], s[j]) {
        assert s[j] == later[j - 1] && s[j] in later;
        if i > 0 { assert s[i] == later[i - 1]; }
      }
    }
  }

  lemma {:induction false} OptionsExactly(carried: seq<DeviceOption>, rule: DialectRule)
    ensures OptionNotDefined(carried, rule).None? <==> forall option :: option in carried ==> option in rule.options
  {
    if carried != [] {
      OptionsExactly(carried[1..], rule);
      assert forall option :: option in carried <==> option == carried[0] || option in carried[1..];
    }
  }

  lemma DeviceExactly(device: DeviceEntry, later: seq<DeviceEntry>, rules: SiteRules)
    ensures DeviceFault(device, later, rules).None? <==>
            DeviceAllowed(device, rules) && forall other :: other in later ==> !Clash(device, other)
  {
    hide OptionNotDefined, OptionsSet, TransportOf, RuleFor;
    var transport := TransportOf(rules.buses, device.bus);
    if transport.Some? {
      var rule := RuleFor(rules.dialects, device.dialect, transport.value);
      if rule.Some? { OptionsExactly(OptionsSet(device.options), rule.value); }
    }
  }

  lemma {:induction false} DevicesExactly(devices: seq<DeviceEntry>, rules: SiteRules)
    ensures DevicesFault(devices, rules).None? <==>
            (forall d :: d in devices ==> DeviceAllowed(d, rules)) && Apart(Clash, devices)
  {
    hide DeviceFault, DeviceAllowed, Clash;
    if devices != [] {
      DevicesExactly(devices[1..], rules);
      DeviceExactly(devices[0], devices[1..], rules);
      ApartFirst(Clash, devices);
      assert forall d :: d in devices <==> d == devices[0] || d in devices[1..];
    }
  }

  lemma {:induction false} ChainsExactly(all: seq<DeviceEntry>, devices: seq<DeviceEntry>, depth: nat)
    ensures ChainsFault(all, devices, depth).None? <==> forall d :: d in devices ==> ChainFault(all, d, depth).None?
  {
    hide ChainFault;
    if devices != [] {
      ChainsExactly(all, devices[1..], depth);
      assert forall d :: d in devices <==> d == devices[0] || d in devices[1..];
    }
  }

  /** A section passes exactly when it is admissible: a forest of distinct devices, each allowed where it stands. */
  lemma CheckExactly(s: Section, rules: SiteRules)
    ensures CheckFault(s, rules).None? <==> Admissible(s, rules)
  {
    hide BusesFault, DevicesFault, ChainsFault, BusAllowed, DeviceAllowed, Forest, Apart;
    BusesExactly(s.buses, rules.buses);
    DevicesExactly(s.devices, rules);
    ChainsExactly(s.devices, s.devices, rules.maxDepth);
    if Apart(Clash, s.devices) {
      ApartDevs(s.devices);
      ChainsAreForest(s.devices, rules.maxDepth);
    }
  }

  lemma ApartDevs(devices: seq<DeviceEntry>)
    requires Apart(Clash, devices)
    ensures DistinctDevs(devices)
  {}
}
