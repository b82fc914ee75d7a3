/** A write against what is held: which ids it names, which it is given, and what is held afterwards. */
module SectionAccept {
  import opened Wrappers
  import opened Limits
  import opened Sections
  import opened Chains
  import opened Sorting
  import opened SectionChecks

  // ---------------------------------------------------------------------------
  // Specification.

  /** The next id after `dev`, absent once the last has been given. */
  function Successor(dev: DevId): Option<DevId> {
    if dev == 0xFFFF then None else Some(dev + 1)
  }

  /** The device an entry becomes, and the next id after it. */
  function Admit(entry: DeviceEntry, held: seq<DeviceEntry>, next: Option<DevId>)
    : Result<(DeviceEntry, Option<DevId>), ConfigError>
  {
    match entry.dev
    case Some(dev) =>
      (match Find(held, dev)
       case None => Failure(UnknownDev(dev))
       case Some(was) =>
         if was.product != entry.product || was.dialect != entry.dialect then Failure(DeviceChanged(dev))
         else Success((entry, next)))
    case None =>
      match next
      case None => Failure(DevsExhausted)
      case Some(given) => Success((entry.(dev := Some(given)), Successor(given)))
  }

  function AdmitAll(entries: seq<DeviceEntry>, held: seq<DeviceEntry>, next: Option<DevId>):
    (r: Result<(seq<DeviceEntry>, Option<DevId>), ConfigError>)
    ensures r.Success? ==> |r.value.0| == |entries|
  {
    if entries == [] then Success(([], next))
    else
      var (device, after) :- Admit(entries[0], held, next);
      var (rest, last) :- AdmitAll(entries[1..], held, after);
      Success(([device] + rest, last))
  }

  function BusNumber(entry: BusEntry): int { entry.bus }

  function DevNumber(d: DeviceEntry): int { if d.dev.Some? then d.dev.value else 0 }

  /** The section with both lists sorted by their numbers. */
  function Arranged(s: Section): (arranged: Section)
    ensures |arranged.buses| == |s.buses| && |arranged.devices| == |s.devices|
  {
    Section(Sort(BusNumber, s.buses), Sort(DevNumber, s.devices))
  }

  predicate Behind(held: seq<DeviceEntry>, next: Option<DevId>) {
    next.Some? && exists was :: was in held && was.dev.Some? && was.dev.value >= next.value
  }

  /** A write accepted against what is held: what is held after it and the next id, or why not. */
  function Accept(write: Section, rules: SiteRules, held: Section, next: Option<DevId>)
    : Result<(Section, Option<DevId>), ConfigError>
  {
    if CheckFault(write, rules).Some? then Failure(CheckFault(write, rules).value)
    else if Behind(held.devices, next) then Failure(AllocatorBehind(next.value))
    else
      var (devices, after) :- AdmitAll(write.devices, held.devices, next);
      Success((Arranged(Section(write.buses, devices)), after))
  }

  // ---------------------------------------------------------------------------
  // The implementation.

  class DevAllocator {
    var next: Option<DevId>

    constructor Resume(next: Option<DevId>)
      ensures this.next == next
    {
      this.next := next;
    }

    /** Hand over the id held and move to its successor; once past 0xFFFF there is nothing to hand over. */
    method Allocate() returns (r: Result<DevId, ConfigError>)
      modifies this
      ensures old(next).None? ==> r == Failure(DevsExhausted) && next.None?
      ensures old(next).Some? ==> r == Success(old(next).value) && next == Successor(old(next).value)
    {
      if next.None? {
        return Failure(DevsExhausted);
      }
      var given := next.value;
      next := if given as int + 1 > 0xFFFF then None else Some(given + 1);
      return Success(given);
    }
  }

  /** The values in the slots that hold one, in slot order. */
  function Held<T>(slots: seq<Option<T>>): (held: seq<T>)
    ensures |held| <= |slots|
  {
    if slots == [] then []
    else if slots[0].Some? then [slots[0].value] + Held(slots[1..])
    else Held(slots[1..])
  }

  /** Filled slots first, empty ones after: `n` of them filled. */
  predicate Packed<T>(slots: seq<Option<T>>, n: nat) {
    n <= |slots| && forall i :: 0 <= i < |slots| ==> (slots[i].Some? <==> i < n)
  }

  lemma {:induction false} HeldPacked<T>(slots: seq<Option<T>>, n: nat)
    requires Packed(slots, n)
    ensures |Held(slots)| == n && forall i :: 0 <= i < n ==> Held(slots)[i] == slots[i].value
  {
    if slots != [] {
      if n > 0 { HeldPacked(slots[1..], n - 1); } else { HeldPacked(slots[1..], 0); }
    }
  }

  class BusesAndDevices {
    const buses: array<Option<BusEntry>>
    const devices: array<Option<DeviceEntry>>

    ghost predicate Valid()
      reads this, buses, devices
    {
      && buses as object != devices && buses.Length == MAX_CONFIG_BUSES && devices.Length == MAX_CONFIG_DEVICES
      && (exists n :: Packed(buses[..], n)) && exists n :: Packed(devices[..], n)
    }

    ghost function Contents(): (s: Section)
      reads this, buses, devices
    {
      Section(Held(buses[..]), Held(devices[..]))
    }

    constructor ()
      ensures Valid() && fresh(buses) && fresh(devices) && Contents() == EMPTY_SECTION
    {
      buses := new Option<BusEntry>[MAX_CONFIG_BUSES](_ => None);
      devices := new Option<DeviceEntry>[MAX_CONFIG_DEVICES](_ => None);
      new;
      assert Packed(buses[..], 0) && Packed(devices[..], 0);
      HeldPacked(buses[..], 0);
      HeldPacked(devices[..], 0);
    }

    /** Append to the buses, or leave the section alone when its eight slots are full. */
    method PushBus(entry: BusEntry) returns (r: Result<(), ConfigError>)
      requires Valid()
      modifies buses
      ensures Valid()
      ensures if |old(Contents()).buses| == MAX_CONFIG_BUSES
              then r == Failure(TooMany(BusesKey)) && Contents() == old(Contents())
              else r == Success(()) && Contents() == old(Contents()).(buses := old(Contents()).buses + [entry])
    {
      ghost var n :| Packed(buses[..], n);
      ghost var before := buses[..];
      HeldPacked(before, n);
      var free := FirstFree(buses, n);
      if free == buses.Length {
        return Failure(TooMany(BusesKey));
      }
      buses[free] := Some(entry);
      Filled(before, n, entry, buses[..]);
      return Success(());
    }

    /** Append to the devices, or leave the section alone when its sixteen slots are full. */
    method PushDevice(entry: DeviceEntry) returns (r: Result<(), ConfigError>)
      requires Valid()
      modifies devices
      ensures Valid()
      ensures if |old(Contents()).devices| == MAX_CONFIG_DEVICES
              then r == Failure(TooMany(DevicesKey)) && Contents() == old(Contents())
              else r == Success(()) && Contents() == old(Contents()).(devices := old(Contents()).devices + [entry])
    {
      ghost var n :| Packed(devices[..], n);
      ghost var before := devices[..];
      HeldPacked(before, n);
      var free := FirstFree(devices, n);
      if free == devices.Length {
        return Failure(TooMany(DevicesKey));
      }
      devices[free] := Some(entry);
      Filled(before, n, entry, devices[..]);
      return Success(());
    }

    /** Put the filled slots in order, the empty ones staying behind them. */
    method SortSlots()
      requires Valid()
      modifies buses, devices
      ensures Valid() && Contents() == Arranged(old(Contents()))
    {
      var orderedBuses := Sort(BusNumber, Held(buses[..]));
      var orderedDevices := Sort(DevNumber, Held(devices[..]));
      ghost var n, m :| Packed(buses[..], n) && Packed(devices[..], m);
      ghost var deviceSlots := devices[..];
      Refill(buses, orderedBuses, n);
      assert devices[..] == deviceSlots;
      ghost var busSlots := buses[..];
      Refill(devices, orderedDevices, m);
      assert buses[..] == busSlots;
    }

    /**
     The slot code answers what `Accept` answers for the same contents: a new section
     and next id, or the first refusal, with nothing changed in either case.
     */
    method AcceptWrite(rules: SiteRules, held: BusesAndDevices, allocator: Option<DevId>)
      returns (r: Result<(BusesAndDevices, Option<DevId>), ConfigError>)
      requires Valid() && held.Valid()
      ensures match Accept(Contents(), rules, held.Contents(), allocator) {
                case Failure(why) => r == Failure(why)
                case Success((section, next)) =>
                  r.Success? && r.value.0.Valid() && r.value.0.Contents() == section && r.value.1 == next
              }
    {
      hide CheckFault, AdmitAll, Held, Arranged, Packed;
      var write := Section(Held(buses[..]), Held(devices[..]));
      var was := Held(held.devices[..]);
      var checked := Check(write, rules);
      if checked.Failure? {
        return Failure(checked.error);
      }
      if Behind(was, allocator) {
        return Failure(AllocatorBehind(allocator.value));
      }
      var ids := new DevAllocator.Resume(allocator);
      var section := new BusesAndDevices();
      for i := 0 to |write.buses|
        invariant section.Valid() && fresh(section) && fresh(section.buses) && fresh(section.devices)
        invariant section.Contents() == Section(write.buses[..i], []) && ids.next == allocator
      {
        var pushed := section.PushBus(write.buses[i]);
      }
      assert write.buses[..|write.buses|] == write.buses;
      var taken := section.Take(write.devices, was, ids);
      if taken.Failure? {
        return Failure(taken.error);
      }
      section.SortSlots();
      return Success((section, ids.next));
    }

    /** Take the entries of a checked write in turn, against what was held. */
    method Take(entries: seq<DeviceEntry>, was: seq<DeviceEntry>, ids: DevAllocator)
        returns (r: Result<(), ConfigError>)
      requires Valid() && Contents().devices == [] && |entries| <= MAX_CONFIG_DEVICES
      modifies devices, ids
      ensures Valid() && Contents().buses == old(Contents()).buses
      ensures match AdmitAll(entries, was, old(ids.next)) {
                case Failure(why) => r == Failure(why)
                case Success((taken, next)) => r == Success(()) && Contents().devices == taken && ids.next == next
              }
    {
      hide Find, AdmitAll, Admit, Held, Prefixed, Packed;
      ghost var admitted: seq<DeviceEntry> := [];
      AdmitNothing(entries, was, ids.next);
      for i := 0 to |entries|
        invariant Valid() && |admitted| == i && Contents() == old(Contents()).(devices := admitted)
        invariant AdmitAll(entries, was, old(ids.next)) == Prefixed(admitted, AdmitAll(entries[i..], was, ids.next))
      {
        var entry, dev := entries[i], None;
        AdmitStep(entries, i, was, ids.next, admitted);
        if entry.dev.Some? {
          var holding := Find(was, entry.dev.value);
          if holding.None? {
            return Failure(UnknownDev(entry.dev.value));
          }
          if holding.value.product != entry.product || holding.value.dialect != entry.dialect {
            return Failure(DeviceChanged(entry.dev.value));
          }
          dev := entry.dev;
        } else {
          var given := ids.Allocate();
          if given.Failure? {
            return Failure(given.error);
          }
          dev := Some(given.value);
        }
        var pushed := PushDevice(entry.(dev := dev));
        admitted := admitted + [entry.(dev := dev)];
      }
      AdmitNothing(entries, was, ids.next);
      PrefixedNone(admitted, ids.next);
      return Success(());
    }
  }

  /** The first slot that holds nothing: `n`, when the filled ones come first. */
  method FirstFree<T>(slots: array<Option<T>>, ghost n: nat) returns (free: nat)
    requires Packed(slots[..], n)
    ensures free == n
  {
    free := 0;
    while free < slots.Length && slots[free].Some?
      invariant free <= n
    {
      assert slots[..][free] == slots[free];
      free := free + 1;
    }
  }

  /** Fill the slots in order with as many entries as they held. */
  method Refill<T>(slots: array<Option<T>>, entries: seq<T>, ghost n: nat)
    requires Packed(slots[..], n)
    requires |entries| == |Held(slots[..])|
    modifies slots
    ensures Packed(slots[..], |entries|) && Held(slots[..]) == entries
  {
    HeldPacked(slots[..], n);
    ghost var before := slots[..];
    forall i | 0 <= i < |entries| {
      slots[i] := Some(entries[i]);
    }
    forall i | 0 <= i < slots.Length ensures slots[..][i].Some? <==> i < n {
      assert slots[..][i] == slots[i] && (i >= n ==> slots[i] == before[i]);
    }
    HeldPacked(slots[..], n);
  }

  lemma Filled<T>(before: seq<Option<T>>, n: nat, entry: T, after: seq<Option<T>>)
    requires Packed(before, n) && n < |before| && after == before[n := Some(entry)]
    ensures Packed(after, n + 1) && Held(after) == Held(before) + [entry]
  {
    HeldPacked(before, n);
    HeldPacked(after, n + 1);
  }

  /** What admitting the rest gives, with the devices already admitted in front. */
  function Prefixed(front: seq<DeviceEntry>, rest: Result<(seq<DeviceEntry>, Option<DevId>), ConfigError>):
    Result<(seq<DeviceEntry>, Option<DevId>), ConfigError>
  {
    match rest
    case Failure(why) => Failure(why)
    case Success((devices, next)) => Success((front + devices, next))
  }

  lemma AdmitNothing(entries: seq<DeviceEntry>, held: seq<DeviceEntry>, next: Option<DevId>)
    ensures AdmitAll(entries[|entries|..], held, next) == Success(([], next))
    ensures AdmitAll(entries, held, next) == Prefixed([], AdmitAll(entries[0..], held, next))
  {
    assert entries[0..] == entries;
    match AdmitAll(entries, held, next)
    case Failure(_) =>
    case Success((devices, _)) => assert [] + devices == devices;
  }

  lemma PrefixedNone(front: seq<DeviceEntry>, next: Option<DevId>)
    ensures Prefixed(front, Success(([], next))) == Success((front, next))
  {
    assert front + [] == front;
  }

  lemma AdmitStep(entries: seq<DeviceEntry>, i: nat, held: seq<DeviceEntry>, next: Option<DevId>,
                  front: seq<DeviceEntry>)
    requires i < |entries|
    ensures Prefixed(front, AdmitAll(entries[i..], held, next)) ==
            match Admit(entries[i], held, next) {
              case Failure(why) => Failure(why)
              case Success((device, after)) => Prefixed(front + [device], AdmitAll(entries[i + 1..], held, after))
            }
    ensures match entries[i].dev {
              case Some(dev) =>
                var was := Find(held, dev);
                if was.None? then Admit(entries[i], held, next) == Failure(UnknownDev(dev))
                else if was.value.product != entries[i].product || was.value.dialect != entries[i].dialect
                then Admit(entries[i], held, next) == Failure(DeviceChanged(dev))
                else Admit(entries[i], held, next) == Success((entries[i].(dev := Some(dev)), next))
              case None =>
                if next.None? then Admit(entries[i], held, next) == Failure(DevsExhausted)
                else Admit(entries[i], held, next) ==
                     Success((entries[i].(dev := Some(next.value)), Successor(next.value)))
            }
  {
    hide Find;
    assert entries[i..][0] == entries[i] && entries[i..][1..] == entries[i + 1..];
    match Admit(entries[i], held, next)
    case Failure(_) =>
    case Success((device, after)) =>
      match AdmitAll(entries[i + 1..], held, after)
      case Failure(_) =>
      case Success((rest, last)) => assert front + ([device] + rest) == front + [device] + rest;
  }
}
