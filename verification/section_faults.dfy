/** What each refusal of a section says is true of that section. */
module SectionFaults {
  import opened Bytes
  import opened Wrappers
  import opened Limits
  import opened Sections
  import opened Chains
  import opened SectionChecks
  import opened SectionAccept
  import opened SectionRuns
  import opened SectionAdmission

  /** The board's first bus of a number is of this transport; none has it when there is none. */
  predicate OnBoard(board: seq<BoardBus>, bus: byte, transport: Transport) {
    exists i :: 0 <= i < |board| && board[i] == BoardBus(bus, transport)
                && forall j :: 0 <= j < i ==> board[j].bus != bus
  }

  predicate OffBoard(board: seq<BoardBus>, bus: byte) { forall row :: row in board ==> row.bus != bus }

  lemma {:induction false} BoardLookup(board: seq<BoardBus>, bus: byte)
    ensures match TransportOf(board, bus) {
              case None => OffBoard(board, bus)
              case Some(transport) => OnBoard(board, bus, transport)
            }
  {
    if board != [] && board[0].bus != bus {
      BoardLookup(board[1..], bus);
      if TransportOf(board, bus).Some? {
        var transport := TransportOf(board, bus).value;
        var i :| 0 <= i < |board[1..]| && board[1..][i] == BoardBus(bus, transport)
                 && forall j :: 0 <= j < i ==> board[1..][j].bus != bus;
        forall j | 0 <= j < i + 1 ensures board[j].bus != bus {
          if j > 0 { assert board[1..][j - 1] == board[j]; }
        }
        assert board[i + 1] == BoardBus(bus, transport);
      } else {
        assert forall row :: row in board ==> row == board[0] || row in board[1..];
      }
    } else if board != [] {
      assert board[0] == BoardBus(bus, board[0].transport);
    }
  }

  /** A dialect is carried on a transport by the first of its rows that lists it. */
  predicate Carries(rule: DialectRule, dialect: u16, transport: Transport) {
    rule.dialect == dialect && transport in rule.transports
  }

  predicate RuledBy(table: seq<DialectRule>, dialect: u16, transport: Transport, rule: DialectRule) {
    exists i :: 0 <= i < |table| && table[i] == rule && Carries(rule, dialect, transport)
                && forall j :: 0 <= j < i ==> !Carries(table[j], dialect, transport)
  }

  lemma {:induction false} RuleLookup(table: seq<DialectRule>, dialect: u16, transport: Transport)
    ensures match RuleFor(table, dialect, transport) {
              case None => forall rule :: rule in table ==> !Carries(rule, dialect, transport)
              case Some(rule) => RuledBy(table, dialect, transport, rule)
            }
  {
    if table != [] && !Carries(table[0], dialect, transport) {
      RuleLookup(table[1..], dialect, transport);
      if RuleFor(table, dialect, transport).Some? {
        var rule := RuleFor(table, dialect, transport).value;
        var i :| 0 <= i < |table[1..]| && table[1..][i] == rule && Carries(rule, dialect, transport)
                 && forall j :: 0 <= j < i ==> !Carries(table[1..][j], dialect, transport);
        forall j | 0 <= j < i + 1 ensures !Carries(table[j], dialect, transport) {
          if j > 0 { assert table[1..][j - 1] == table[j]; }
        }
        assert table[i + 1] == rule;
      } else {
        assert forall rule :: rule in table ==> rule == table[0] || rule in table[1..];
      }
    } else if table != [] {
      assert table[0] == RuleFor(table, dialect, transport).value;
    }
  }

  lemma BoardExactly(board: seq<BoardBus>, bus: byte)
    ensures OffBoard(board, bus) <==> TransportOf(board, bus).None?
    ensures forall t :: OnBoard(board, bus, t) <==> TransportOf(board, bus) == Some(t)
  {
    BoardLookup(board, bus);
    forall t, u | OnBoard(board, bus, t) && OnBoard(board, bus, u) ensures t == u {}
    forall t | OnBoard(board, bus, t) ensures !OffBoard(board, bus) {}
  }

  lemma RuleExactly(table: seq<DialectRule>, dialect: u16, transport: Transport)
    ensures RuleFor(table, dialect, transport).None? <==>
            forall rule :: rule in table ==> !Carries(rule, dialect, transport)
    ensures forall rule :: RuledBy(table, dialect, transport, rule) <==>
              RuleFor(table, dialect, transport) == Some(rule)
  {
    RuleLookup(table, dialect, transport);
    forall r, q | RuledBy(table, dialect, transport, r) && RuledBy(table, dialect, transport, q) ensures r == q {}
    forall r | RuledBy(table, dialect, transport, r) ensures r in table && Carries(r, dialect, transport) {}
  }

  // ---------------------------------------------------------------------------
  // What each refusal means.

  /** The setting a bus entry makes under a key. */
  predicate Sets(entry: BusEntry, key: SectionKey) {
    match key
    case RateKey => entry.rate.Some?
    case DataBitsKey => entry.dataBits.Some?
    case ParityKey => entry.parity.Some?
    case StopBitsKey => entry.stopBits.Some?
    case _ => false
  }

  /** The transports a setting does not exist on. */
  predicate Lacks(transport: Transport, key: SectionKey) {
    match transport
    case Rs485 => false
    case VeDirect => false
    case Can => key != RateKey
    case _ => true
  }

  predicate BusMeans(why: ConfigError, entry: BusEntry, others: seq<BusEntry>, board: seq<BoardBus>) {
    match why
    case UnknownBus(bus) => bus == entry.bus && OffBoard(board, bus)
    case BusTwice(bus) => bus == entry.bus && exists other :: other in others && other.bus == bus
    case NothingSet(key) => key == BusKey && !Sets(entry, RateKey) && !Sets(entry, DataBitsKey)
                            && !Sets(entry, ParityKey) && !Sets(entry, StopBitsKey)
    case NotOnTransport(bus, key) =>
      bus == entry.bus && Sets(entry, key) && exists t :: OnBoard(board, bus, t) && Lacks(t, key)
    case _ => false
  }

  /** `why` is true of entry `i` and those behind it. */
  predicate BusAt(why: ConfigError, buses: seq<BusEntry>, i: nat, board: seq<BoardBus>)
    requires i < |buses|
  {
    BusMeans(why, buses[i], buses[i + 1..], board)
  }

  predicate Carrying(o: DeviceOptions, option: DeviceOption) {
    match option
    case CurrentDirectionOption => o.currentDirection.Some?
    case PylontechVersionOption => o.pylontechVersion.Some?
    case VeDirect3v3Option => o.veDirect3v3.Some?
    case PollPeriodOption => o.pollPeriod.Some?
  }

  /** The rule a device is under where it stands. */
  predicate UnderRule(d: DeviceEntry, rules: SiteRules, rule: DialectRule) {
    exists t :: OnBoard(rules.buses, d.bus, t) && RuledBy(rules.dialects, d.dialect, t, rule)
  }

  predicate DeviceMeans(why: ConfigError, d: DeviceEntry, others: seq<DeviceEntry>, rules: SiteRules) {
    match why
    case UnknownBus(bus) => bus == d.bus && OffBoard(rules.buses, bus)
    case AddrRequired(bus) =>
      bus == d.bus && d.addr.None? && exists t :: OnBoard(rules.buses, bus, t) && t in [Rs485, Can, Ip, Onewire]
    case AddrNotAddressed(bus) =>
      bus == d.bus && d.addr.Some? && exists t :: OnBoard(rules.buses, bus, t) && t in [VeDirect, LocalIo, Internal]
    case AddrTwice(bus) =>
      bus == d.bus && d.addr.Some? && exists other :: other in others && other.bus == bus && other.addr == d.addr
    case DialectNotCarried(dialect, bus) =>
      && dialect == d.dialect && bus == d.bus
      && exists t :: OnBoard(rules.buses, bus, t)
                     && forall rule :: rule in rules.dialects ==> !Carries(rule, dialect, t)
    case OptionNotInDialect(option, dialect) =>
      && dialect == d.dialect && Carrying(d.options, option)
      && exists rule :: rule in rules.dialects && UnderRule(d, rules, rule) && option !in rule.options
    case PollTooShort(dialect, min) =>
      && dialect == d.dialect && d.options.pollPeriod.Some? && d.options.pollPeriod.value < min
      && exists rule :: rule in rules.dialects && UnderRule(d, rules, rule) && rule.minPoll == min
    case DevTwice(dev) => d.dev == Some(dev) && exists other :: other in others && other.dev == d.dev
    case _ => false
  }

  predicate DeviceAt(why: ConfigError, devices: seq<DeviceEntry>, i: nat, rules: SiteRules)
    requires i < |devices|
  {
    DeviceMeans(why, devices[i], devices[i + 1..], rules)
  }

  lemma BusSaysWhy(buses: seq<BusEntry>, board: seq<BoardBus>) returns (first: Option<ConfigError>)
    requires buses != []
    ensures BusesFault(buses, board) == if first.Some? then first else BusesFault(buses[1..], board)
    ensures first.Some? ==> BusAt(first.value, buses, 0, board)
    ensures first.None? ==> forall why :: !BusAt(why, buses, 0, board)
  {
    hide OnBoard, OffBoard;
    BoardExactly(board, buses[0].bus);
    first := if TransportOf(board, buses[0].bus).None?
               || exists other :: other in buses[1..] && other.bus == buses[0].bus then BusesFault(buses, board)
             else BusEntryFault(buses[0], TransportOf(board, buses[0].bus).value);
  }

  /** A bus list is refused exactly when some entry breaks a rule, and the refusal names one it breaks. */
  lemma {:induction false} BusesSayWhy(buses: seq<BusEntry>, board: seq<BoardBus>)
    ensures match BusesFault(buses, board) {
              case Some(why) => exists i :: 0 <= i < |buses| && BusAt(why, buses, i, board)
              case None => forall i, why :: 0 <= i < |buses| ==> !BusAt(why, buses, i, board)
            }
  {
    if buses != [] {
      hide BusesFault, BusMeans;
      var later := buses[1..];
      BusesSayWhy(later, board);
      var first := BusSaysWhy(buses, board);
      assert forall i :: 0 <= i < |later| ==> later[i] == buses[i + 1] && later[i + 1..] == buses[i + 1 + 1..];
      if first.None? && BusesFault(later, board).Some? {
        var why := BusesFault(later, board).value;
        var i :| 0 <= i < |later| && BusAt(why, later, i, board);
        assert BusAt(why, buses, i + 1, board);
      }
      if first.None? && BusesFault(later, board).None? {
        forall i, why | 0 <= i < |buses| ensures !BusAt(why, buses, i, board) {
          if i > 0 { assert !BusAt(why, later, i - 1, board); }
        }
      }
    }
  }

  lemma {:induction false} UndefinedOption(carried: seq<DeviceOption>, rule: DialectRule)
    ensures match OptionNotDefined(carried, rule) {
              case Some(why) =>
                exists o :: o in carried && o !in rule.options && why == OptionNotInDialect(o, rule.dialect)
              case None => forall o :: o in carried ==> o in rule.options
            }
  {
    if carried != [] && carried[0] in rule.options {
      UndefinedOption(carried[1..], rule);
      assert forall o :: o in carried <==> o == carried[0] || o in carried[1..];
    }
  }

  lemma OptionsCarried(o: DeviceOptions)
    ensures forall option :: option in OptionsSet(o) <==> Carrying(o, option)
  {}

  lemma DeviceSaysWhy(d: DeviceEntry, later: seq<DeviceEntry>, rules: SiteRules)
    ensures match DeviceFault(d, later, rules) {
              case Some(why) => DeviceMeans(why, d, later, rules)
              case None => forall why :: !DeviceMeans(why, d, later, rules)
            }
  {
    hide OnBoard, OffBoard, RuledBy, OptionsSet, OptionNotDefined, Carrying;
    BoardExactly(rules.buses, d.bus);
    OptionsCarried(d.options);
    if TransportOf(rules.buses, d.bus).Some? {
      var t := TransportOf(rules.buses, d.bus).value;
      RuleExactly(rules.dialects, d.dialect, t);
      if RuleFor(rules.dialects, d.dialect, t).Some? {
        var rule := RuleFor(rules.dialects, d.dialect, t).value;
        RuledIsCarried(rules.dialects, d.dialect, t, rule);
        UndefinedOption(OptionsSet(d.options), rule);
        assert UnderRule(d, rules, rule);
      }
    }
  }

  lemma RuledIsCarried(table: seq<DialectRule>, dialect: u16, t: Transport, rule: DialectRule)
    requires RuledBy(table, dialect, t, rule)
    ensures rule in table && Carries(rule, dialect, t)
  {}

  lemma DeviceHere(devices: seq<DeviceEntry>, rules: SiteRules)
    requires devices != []
    ensures match DeviceFault(devices[0], devices[1..], rules) {
              case Some(why) => DeviceAt(why, devices, 0, rules)
              case None => forall why :: !DeviceAt(why, devices, 0, rules)
            }
  {
    hide DeviceFault, DeviceMeans;
    DeviceSaysWhy(devices[0], devices[1..], rules);
  }

  lemma DeviceLater(devices: seq<DeviceEntry>, rules: SiteRules)
    requires devices != []
    ensures forall i: nat, why :: i < |devices[1..]| ==>
              DeviceAt(why, devices[1..], i, rules) == DeviceAt(why, devices, i + 1, rules)
  {
    hide DeviceMeans;
    forall i: nat, why | i < |devices[1..]|
      ensures DeviceAt(why, devices[1..], i, rules) == DeviceAt(why, devices, i + 1, rules)
    {
      assert devices[1..][i + 1..] == devices[i + 1 + 1..];
    }
  }

  /** So is a device list. */
  lemma {:induction false} DevicesSayWhy(devices: seq<DeviceEntry>, rules: SiteRules)
    ensures match DevicesFault(devices, rules) {
              case Some(why) => exists i :: 0 <= i < |devices| && DeviceAt(why, devices, i, rules)
              case None => forall i, why :: 0 <= i < |devices| ==> !DeviceAt(why, devices, i, rules)
            }
  {
    if devices != [] {
      hide DeviceFault, DeviceAt;
      var later := devices[1..];
      DevicesSayWhy(later, rules);
      DeviceHere(devices, rules);
      DeviceLater(devices, rules);
      var here, after := DeviceFault(devices[0], later, rules), DevicesFault(later, rules);
      assert DevicesFault(devices, rules) == if here.Some? then here else after;
      if here.Some? {
        assert DeviceAt(here.value, devices, 0, rules);
      } else if after.Some? {
        var i: nat :| i < |later| && DeviceAt(after.value, later, i, rules);
        assert DeviceAt(after.value, devices, i + 1, rules);
      } else {
        forall i, why | 0 <= i < |devices| ensures !DeviceAt(why, devices, i, rules) {
          if i > 0 { assert !DeviceAt(why, later, i - 1, rules); }
        }
      }
    }
  }

  // ---------------------------------------------------------------------------
  // Chains.

  /** Going up from `next` passes the devices of `line` and comes to `at`. */
  predicate Path(devices: seq<DeviceEntry>, next: Option<DevId>, line: seq<DevId>, at: Option<DevId>)
    decreases |line|
  {
    if line == [] then at == next
    else next == Some(line[0]) && Find(devices, line[0]).Some?
         && Path(devices, Find(devices, line[0]).value.parent, line[1..], at)
  }

  /** Where going up stops: nowhere listed, back on itself, or at a root too far away. */
  ghost predicate ChainMeans(why: ConfigError, d: DeviceEntry, devices: seq<DeviceEntry>, depth: nat) {
    match why
    case ParentNotListed(dev) =>
      (forall other :: other in devices ==> DevNumber(other) != dev)
      && exists line: seq<DevId>, at :: Path(devices, d.parent, line, at) && at.Some? && at.value == dev
    case ParentLoop(dev) =>
      exists line: seq<DevId>, at :: Path(devices, d.parent, line, at) && at.Some? && at.value == dev
                                     && (d.dev == at || at.value in line)
    case TooDeep(dev) =>
      dev == DevNumber(d) && exists line :: Path(devices, d.parent, line, None) && 1 + |line| > depth
    case _ => false
  }

  lemma {:induction false} PathOn(devices: seq<DeviceEntry>, next: Option<DevId>, line: seq<DevId>, at: DevId)
    requires Path(devices, next, line, Some(at)) && Find(devices, at).Some?
    ensures Path(devices, next, line + [at], Find(devices, at).value.parent)
    decreases |line|
  {
    if line == [] {
      assert (line + [at])[1..] == [];
    } else {
      assert (line + [at])[1..] == line[1..] + [at];
      PathOn(devices, Find(devices, line[0]).value.parent, line[1..], at);
    }
  }

  lemma {:induction false} ClimbSaysWhy(devices: seq<DeviceEntry>, d: DeviceEntry, next: Option<DevId>,
                                        passed: seq<DevId>, depth: nat)
    requires Path(devices, d.parent, passed, next)
    ensures match Climb(devices, d.dev, next, passed) {
              case Failure(why) => ChainMeans(why, d, devices, depth)
              case Success(held) => held > depth ==> ChainMeans(TooDeep(DevNumber(d)), d, devices, depth)
            }
    decreases |Devs(devices) - Elements(passed)|
  {
    hide Devs, Elements, Path;
    if next.Some? && d.dev != next && next.value !in passed && Find(devices, next.value).Some? {
      Shrinks(devices, passed, next.value);
      PathOn(devices, d.parent, passed, next.value);
      ClimbSaysWhy(devices, d, Find(devices, next.value).value.parent, passed + [next.value], depth);
    }
  }

  lemma {:induction false} ChainsSayWhy(all: seq<DeviceEntry>, devices: seq<DeviceEntry>, depth: nat)
    requires ChainsFault(all, devices, depth).Some?
    ensures exists d :: d in devices && ChainMeans(ChainsFault(all, devices, depth).value, d, all, depth)
  {
    hide ChainMeans, Climb;
    ClimbSaysWhy(all, devices[0], devices[0].parent, [], depth);
    if ChainFault(all, devices[0], depth).None? {
      ChainsSayWhy(all, devices[1..], depth);
    }
  }

  // ---------------------------------------------------------------------------
  // The section.

  /** What a refusal of the whole section says of it. */
  ghost predicate SectionMeans(why: ConfigError, s: Section, rules: SiteRules) {
    || (exists i :: 0 <= i < |s.buses| && BusAt(why, s.buses, i, rules.buses))
    || (why == TooMany(DevicesKey) && (|s.devices| > rules.maxDevices || |s.devices| > 16))
    || (exists i :: 0 <= i < |s.devices| && DeviceAt(why, s.devices, i, rules))
    || (exists d :: d in s.devices && ChainMeans(why, d, s.devices, rules.maxDepth))
  }

  /** Every refusal of a section names something true of it. */
  lemma CheckSaysWhy(s: Section, rules: SiteRules)
    requires CheckFault(s, rules).Some?
    ensures SectionMeans(CheckFault(s, rules).value, s, rules)
  {
    hide BusesFault, DevicesFault, ChainsFault, BusMeans, DeviceMeans, ChainMeans;
    BusesSayWhy(s.buses, rules.buses);
    DevicesSayWhy(s.devices, rules);
    if BusesFault(s.buses, rules.buses).None? && DevicesFault(s.devices, rules).None?
       && |s.devices| <= rules.maxDevices && |s.devices| <= MAX_CONFIG_DEVICES {
      ChainsSayWhy(s.devices, s.devices, rules.maxDepth);
    }
  }

  /**
   A section without a fault breaks no rule an entry can break: the independent
   reading of what each refusal means leaves nothing out.
   */
  lemma PassingBreaksNothing(s: Section, rules: SiteRules)
    requires CheckFault(s, rules).None?
    ensures forall i, why :: 0 <= i < |s.buses| ==> !BusAt(why, s.buses, i, rules.buses)
    ensures forall i, why :: 0 <= i < |s.devices| ==> !DeviceAt(why, s.devices, i, rules)
    ensures |s.devices| <= rules.maxDevices && |s.devices| <= 16 && Forest(s.devices, rules.maxDepth)
  {
    hide BusesFault, DevicesFault, ChainsFault, BusMeans, DeviceMeans, Forest, BusAllowed, DeviceAllowed;
    BusesSayWhy(s.buses, rules.buses);
    DevicesSayWhy(s.devices, rules);
    CheckExactly(s, rules);
  }

  /** A write is told the ids have run out only when it adds more devices than there are ids left. */
  lemma OutOfIds(write: Section, rules: SiteRules, held: Section, next: Option<DevId>)
    requires Accept(write, rules, held, next) == Failure(DevsExhausted)
    ensures AddedBefore(write.devices, |write.devices|) > Left(next)
  {
    hide Accept, CheckFault, Admissible, EditStands;
    AcceptRefuses(write, rules, held, next);
    if !Admissible(write, rules) {
      CheckSaysWhy(write, rules);
    } else {
      var i: nat :| FirstWrong(write.devices, held.devices, next, i, DevsExhausted);
      AddedGrows(write.devices, i + 1, |write.devices|);
    }
  }
}
