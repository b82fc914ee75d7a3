/**
 Exactly when a write is accepted, exactly what it then becomes, and which refusal
 each thing that can be wrong with it gets.
 */
module SectionAdmission {
  import opened Wrappers
  import opened Limits
  import opened Sections
  import opened Chains
  import opened Sorting
  import opened SectionChecks
  import opened SectionAccept
  import opened SectionRuns

  /** Entry `i` of what is held is the first to carry `dev`. */
  predicate FirstWith(held: seq<DeviceEntry>, dev: DevId, i: nat) {
    i < |held| && held[i].dev == Some(dev) && forall j :: 0 <= j < i ==> held[j].dev != Some(dev)
  }

  lemma {:induction false} FoundFirst(held: seq<DeviceEntry>, dev: DevId) returns (i: nat)
    requires Find(held, dev).Some?
    ensures FirstWith(held, dev, i) && Find(held, dev) == Some(held[i])
  {
    if held[0].dev == Some(dev) {
      i := 0;
    } else {
      var k := FoundFirst(held[1..], dev);
      i := k + 1;
      forall j | 0 <= j < i ensures held[j].dev != Some(dev) {
        if j > 0 { assert held[1..][j - 1] == held[j]; }
      }
    }
  }

  lemma OneFirst(held: seq<DeviceEntry>, dev: DevId, i: nat, j: nat)
    requires FirstWith(held, dev, i) && FirstWith(held, dev, j)
    ensures i == j
  {}

  /** An edit names a device held, and leaves its product and dialect as they are; an addition names none. */
  predicate EditStands(entry: DeviceEntry, held: seq<DeviceEntry>) {
    entry.dev.Some? ==>
      exists i :: 0 <= i < |held| && FirstWith(held, entry.dev.value, i) && held[i].product == entry.product
                  && held[i].dialect == entry.dialect
  }

  /** No id held has been overtaken by the next one to be given. */
  predicate AllGivenBelow(held: seq<DeviceEntry>, next: Option<DevId>) {
    next.Some? ==> forall was :: was in held && was.dev.Some? ==> was.dev.value < next.value
  }

  /** The ids that are left to give. */
  function Left(next: Option<DevId>): nat { 0x1_0000 - Ceiling(next) }

  /** What one entry becomes once `before` additions have been given ids ahead of it. */
  function Becomes(entry: DeviceEntry, next: Option<DevId>, before: nat): DeviceEntry
    requires entry.dev.None? ==> before < Left(next)
  {
    if entry.dev.Some? then entry else entry.(dev := Some(next.value + before))
  }

  /** What is wrong with one entry, `before` additions ahead of it. */
  predicate Wrong(entry: DeviceEntry, held: seq<DeviceEntry>, next: Option<DevId>, before: nat, why: ConfigError) {
    match entry.dev
    case None => before >= Left(next) && why == DevsExhausted
    case Some(dev) =>
      if forall was :: was in held ==> was.dev != Some(dev) then why == UnknownDev(dev)
      else !EditStands(entry, held) && why == DeviceChanged(dev)
  }

  lemma AdmitOne(entry: DeviceEntry, held: seq<DeviceEntry>, next: Option<DevId>)
    ensures match Admit(entry, held, next) {
              case Success((device, after)) =>
                && EditStands(entry, held) && (entry.dev.None? ==> Left(next) > 0)
                && device == Becomes(entry, next, 0)
                && Left(after) == Left(next) - (if entry.dev.None? then 1 else 0)
                && (after.Some? && entry.dev.None? ==> after.value == next.value + 1)
                && (entry.dev.Some? ==> after == next)
              case Failure(why) => Wrong(entry, held, next, 0, why)
            }
  {
    if entry.dev.Some? && Find(held, entry.dev.value).Some? {
      var i := FoundFirst(held, entry.dev.value);
      forall j | FirstWith(held, entry.dev.value, j) ensures i == j { OneFirst(held, entry.dev.value, i, j); }
    }
  }

  /** How many additions stand among the first `i` entries. */
  function AddedBefore(entries: seq<DeviceEntry>, i: nat): (n: nat)
    requires i <= |entries|
  {
    if i == 0 then 0 else AddedBefore(entries, i - 1) + if entries[i - 1].dev.None? then 1 else 0
  }

  lemma {:induction false} AddedFromTail(entries: seq<DeviceEntry>, i: nat)
    requires 0 < i <= |entries|
    ensures AddedBefore(entries, i) == AddedBefore(entries[1..], i - 1) + if entries[0].dev.None? then 1 else 0
  {
    if i > 1 { AddedFromTail(entries, i - 1); }
  }

  /** The first entry with something wrong, and what that is. */
  ghost predicate FirstWrong(entries: seq<DeviceEntry>, held: seq<DeviceEntry>, next: Option<DevId>, i: nat,
                             why: ConfigError) {
    && i < |entries| && Wrong(entries[i], held, next, AddedBefore(entries, i), why)
    && (forall j :: 0 <= j < i ==> EditStands(entries[j], held)) && AddedBefore(entries, i) <= Left(next)
  }

  /** Entries all stand, the ids left suffice, and each addition gets the next id in the order it arrived. */
  ghost predicate AllBecome(entries: seq<DeviceEntry>, held: seq<DeviceEntry>, next: Option<DevId>,
                            devices: seq<DeviceEntry>, after: Option<DevId>) {
    && |devices| == |entries| && (forall j :: 0 <= j < |entries| ==> EditStands(entries[j], held))
    && AddedBefore(entries, |entries|) <= Left(next) && Left(after) == Left(next) - AddedBefore(entries, |entries|)
    && forall j :: 0 <= j < |entries| ==>
         (entries[j].dev.None? ==> AddedBefore(entries, j) < Left(next)) &&
         devices[j] == Becomes(entries[j], next, AddedBefore(entries, j))
  }

  lemma {:induction false} AdmittedInTurn(entries: seq<DeviceEntry>, held: seq<DeviceEntry>, next: Option<DevId>)
    ensures match AdmitAll(entries, held, next) {
              case Success((devices, after)) => AllBecome(entries, held, next, devices, after)
              case Failure(why) => exists i :: FirstWrong(entries, held, next, i, why)
            }
  {
    hide Find, EditStands;
    if entries != [] {
      AdmitOne(entries[0], held, next);
      match Admit(entries[0], held, next)
      case Failure(why) => assert FirstWrong(entries, held, next, 0, why);
      case Success((device, after)) =>
        AdmittedInTurn(entries[1..], held, after);
        match AdmitAll(entries[1..], held, after)
        case Failure(why) => WrongLater(entries, held, next, after, why);
        case Success((rest, last)) => BecomeLater(entries, held, next, after, rest, last);
    }
  }

  /** One entry has been admitted: what is left, and the id after it. */
  predicate Moved(entry: DeviceEntry, next: Option<DevId>, after: Option<DevId>) {
    && (entry.dev.Some? ==> after == next)
    && (entry.dev.None? ==> Left(next) > 0 && Left(after) == Left(next) - 1)
    && (entry.dev.None? && after.Some? ==> after.value == next.value + 1)
  }

  lemma WrongLater(entries: seq<DeviceEntry>, held: seq<DeviceEntry>, next: Option<DevId>, after: Option<DevId>,
                   why: ConfigError)
    requires entries != [] && EditStands(entries[0], held) && Moved(entries[0], next, after)
    requires exists i :: FirstWrong(entries[1..], held, after, i, why)
    ensures exists i :: FirstWrong(entries, held, next, i, why)
  {
    hide EditStands;
    var k: nat :| FirstWrong(entries[1..], held, after, k, why);
    AddedFromTail(entries, k + 1);
    assert entries[1..][k] == entries[k + 1];
    forall j | 0 <= j < k + 1 ensures EditStands(entries[j], held) {
      if j > 0 { assert entries[1..][j - 1] == entries[j]; }
    }
    assert FirstWrong(entries, held, next, k + 1, why);
  }

  lemma BecomesLater(entries: seq<DeviceEntry>, next: Option<DevId>, after: Option<DevId>, j: nat)
    requires 0 < j < |entries| && Moved(entries[0], next, after)
    requires entries[j].dev.None? ==> AddedBefore(entries[1..], j - 1) < Left(after)
    ensures entries[j].dev.None? ==> AddedBefore(entries, j) < Left(next)
    ensures Becomes(entries[j], next, AddedBefore(entries, j))
         == Becomes(entries[j], after, AddedBefore(entries[1..], j - 1))
  {
    AddedFromTail(entries, j);
  }

  lemma BecomeLater(entries: seq<DeviceEntry>, held: seq<DeviceEntry>, next: Option<DevId>, after: Option<DevId>,
                    rest: seq<DeviceEntry>, last: Option<DevId>)
    requires entries != [] && EditStands(entries[0], held) && Moved(entries[0], next, after)
    requires AllBecome(entries[1..], held, after, rest, last)
    ensures AllBecome(entries, held, next, [Becomes(entries[0], next, 0)] + rest, last)
  {
    hide EditStands, Becomes, AddedBefore;
    NoneBefore(entries);
    AddedFromTail(entries, |entries|);
    forall j | 0 <= j < |entries|
      ensures EditStands(entries[j], held) && (entries[j].dev.None? ==> AddedBefore(entries, j) < Left(next))
      ensures ([Becomes(entries[0], next, 0)] + rest)[j] == Becomes(entries[j], next, AddedBefore(entries, j))
    {
      if j > 0 {
        assert entries[1..][j - 1] == entries[j];
        BecomesLater(entries, next, after, j);
      }
    }
  }

  lemma NoneBefore(entries: seq<DeviceEntry>)
    ensures AddedBefore(entries, 0) == 0
  {}

  /** Nothing is wrong with any entry. */
  ghost predicate NothingWrong(write: Section, held: Section, next: Option<DevId>) {
    && (forall d :: d in write.devices ==> EditStands(d, held.devices))
    && AddedBefore(write.devices, |write.devices|) <= Left(next)
  }

  lemma {:induction false} AddedGrows(entries: seq<DeviceEntry>, i: nat, j: nat)
    requires i <= j <= |entries|
    ensures AddedBefore(entries, i) <= AddedBefore(entries, j)
  {
    if i < j { AddedGrows(entries, i, j - 1); }
  }

  lemma WrongIsWrong(write: Section, held: Section, next: Option<DevId>, i: nat, why: ConfigError)
    requires FirstWrong(write.devices, held.devices, next, i, why)
    ensures !NothingWrong(write, held, next)
  {
    var d := write.devices[i];
    assert d in write.devices;
    if d.dev.None? {
      AddedGrows(write.devices, i + 1, |write.devices|);
    }
  }

  /**
   A write is accepted exactly when it is admissible, no id held has been overtaken,
   every edit stands and the ids left suffice for its additions.
   */
  lemma AcceptExactly(write: Section, rules: SiteRules, held: Section, next: Option<DevId>)
    ensures Accept(write, rules, held, next).Success? <==>
            Admissible(write, rules) && AllGivenBelow(held.devices, next) && NothingWrong(write, held, next)
  {
    hide CheckFault, Admissible, AdmitAll, Arranged, EditStands;
    CheckExactly(write, rules);
    AdmittedInTurn(write.devices, held.devices, next);
    match AdmitAll(write.devices, held.devices, next)
    case Success(_) =>
    case Failure(why) =>
      var i: nat :| FirstWrong(write.devices, held.devices, next, i, why);
      WrongIsWrong(write, held, next, i, why);
  }

  /**
   What an accepted write becomes: its own buses and, for each of its devices, the
   edit as it arrived or the addition under the next id in turn, each list in order.
   */
  lemma AcceptBecomes(write: Section, rules: SiteRules, held: Section, next: Option<DevId>)
    requires Accept(write, rules, held, next).Success?
    ensures var (section, after) := Accept(write, rules, held, next).value;
            && multiset(section.buses) == multiset(write.buses) && Ascending(BusNumber, section.buses)
            && Ascending(DevNumber, section.devices)
            && exists devices :: AllBecome(write.devices, held.devices, next, devices, after)
                                 && multiset(section.devices) == multiset(devices)
  {
    hide CheckFault, AdmitAll, AllBecome, Sort;
    AdmittedInTurn(write.devices, held.devices, next);
    var (devices, after) := AdmitAll(write.devices, held.devices, next).value;
    SortOrders(BusNumber, write.buses);
    SortOrders(DevNumber, devices);
  }

  /** An accepted write spends exactly one id for each device it adds, so no write can add past 0xFFFF. */
  lemma AcceptSpends(write: Section, rules: SiteRules, held: Section, next: Option<DevId>)
    requires Accept(write, rules, held, next).Success?
    ensures Ceiling(Accept(write, rules, held, next).value.1)
         == Ceiling(next) + AddedBefore(write.devices, |write.devices|) <= 0x1_0000
  {
    hide CheckFault, AdmitAll, Arranged, EditStands;
    AdmittedInTurn(write.devices, held.devices, next);
  }

  /** Which refusal: the section's own, then a stale allocator, then the first entry with something wrong. */
  lemma AcceptRefuses(write: Section, rules: SiteRules, held: Section, next: Option<DevId>)
    requires Accept(write, rules, held, next).Failure?
    ensures var why := Accept(write, rules, held, next).error;
            if !Admissible(write, rules) then CheckFault(write, rules) == Some(why)
            else if !AllGivenBelow(held.devices, next) then why == AllocatorBehind(next.value)
            else exists i :: FirstWrong(write.devices, held.devices, next, i, why)
  {
    hide CheckFault, Admissible, AdmitAll, Arranged, FirstWrong;
    CheckExactly(write, rules);
    AdmittedInTurn(write.devices, held.devices, next);
  }
}
