/**
 What accepting keeps: an accepted section passes its own check and is taken back
 unchanged, and over every run of writes no id is ever given twice.
 */
module SectionRuns {
  import opened Wrappers
  import opened Limits
  import opened Sections
  import opened Chains
  import opened Sorting
  import opened SectionChecks
  import opened SectionAccept

  /** Every id below it has been given; one past the last id when none is left. */
  function Ceiling(next: Option<DevId>): (ceiling: nat)
    ensures 1 <= ceiling <= 0x1_0000
  {
    if next.Some? then next.value else 0x1_0000
  }

  predicate HeldBelow(held: seq<DeviceEntry>, ceiling: nat) {
    forall d :: d in held && d.dev.Some? ==> d.dev.value < ceiling
  }

  /** What one entry became: an edit as it was, of a device held; an addition under an id never given before. */
  predicate Became(entry: DeviceEntry, device: DeviceEntry, held: seq<DeviceEntry>, from: nat, to: nat) {
    && device.dev.Some? && device == entry.(dev := device.dev)
    && (entry.dev.Some? ==>
          && device == entry && Find(held, entry.dev.value).Some?
          && Find(held, entry.dev.value).value.product == entry.product
          && Find(held, entry.dev.value).value.dialect == entry.dialect)
    && (entry.dev.None? ==> from <= device.dev.value < to)
  }

  lemma {:induction false} AdmittedBecame(entries: seq<DeviceEntry>, held: seq<DeviceEntry>, next: Option<DevId>)
    requires AdmitAll(entries, held, next).Success?
    ensures var (devices, last) := AdmitAll(entries, held, next).value;
            && Ceiling(next) <= Ceiling(last)
            && (forall i :: 0 <= i < |entries| ==> Became(entries[i], devices[i], held, Ceiling(next), Ceiling(last)))
            && forall i, j :: 0 <= i < j < |entries| && entries[i].dev.None? && entries[j].dev.None? ==>
                 devices[i].dev != devices[j].dev
  {
    hide Find;
    if entries != [] {
      var (device, after) := Admit(entries[0], held, next).value;
      AdmittedBecame(entries[1..], held, after);
      var (rest, last) := AdmitAll(entries[1..], held, after).value;
      var devices := [device] + rest;
      forall i | 0 <= i < |entries| ensures Became(entries[i], devices[i], held, Ceiling(next), Ceiling(last)) {
        if i > 0 { assert Became(entries[1..][i - 1], rest[i - 1], held, Ceiling(after), Ceiling(last)); }
      }
      forall i, j | 0 <= i < j < |entries| && entries[i].dev.None? && entries[j].dev.None?
        ensures devices[i].dev != devices[j].dev
      {
        assert Became(entries[1..][j - 1], rest[j - 1], held, Ceiling(after), Ceiling(last));
        if i > 0 { assert entries[i] == entries[1..][i - 1] && devices[i] == rest[i - 1]; }
      }
    }
  }

  /** Each entry became its device, and no id was given to two of them. */
  ghost predicate Admitted(entries: seq<DeviceEntry>, devices: seq<DeviceEntry>, held: seq<DeviceEntry>, from: nat,
                           to: nat) {
    && |devices| == |entries| && HeldBelow(held, from) && from <= to
    && (forall i :: 0 <= i < |entries| ==> Became(entries[i], devices[i], held, from, to))
    && forall i, j :: 0 <= i < j < |entries| && entries[i].dev.None? && entries[j].dev.None? ==>
         devices[i].dev != devices[j].dev
  }

  lemma AdmittedApart(entries: seq<DeviceEntry>, devices: seq<DeviceEntry>, held: seq<DeviceEntry>, from: nat, to: nat)
    requires Admitted(entries, devices, held, from, to) && Apart(Clash, entries)
    ensures Apart(Clash, devices)
  {
    hide Find;
    forall i, j | 0 <= i < j < |devices| ensures !Clash(devices[i], devices[j]) {
      assert Became(entries[i], devices[i], held, from, to) && Became(entries[j], devices[j], held, from, to);
      assert !Clash(entries[i], entries[j]);
    }
  }

  lemma AdmittedAllowed(entries: seq<DeviceEntry>, devices: seq<DeviceEntry>, held: seq<DeviceEntry>, from: nat,
                        to: nat, rules: SiteRules)
    requires Admitted(entries, devices, held, from, to)
    requires forall d :: d in entries ==> DeviceAllowed(d, rules)
    ensures forall d :: d in devices ==> DeviceAllowed(d, rules)
  {
    hide Find, TransportOf, RuleFor, OptionsSet;
    forall d | d in devices ensures DeviceAllowed(d, rules) {
      var i :| 0 <= i < |devices| && devices[i] == d;
      assert Became(entries[i], devices[i], held, from, to) && entries[i] in entries;
    }
  }

  /** The level of every listed device, read off its parent's. */
  function Raised(devices: seq<DeviceEntry>, height: map<DevId, nat>): map<DevId, nat>
    requires forall d :: d in devices && d.parent.Some? ==> d.parent.value in height
  {
    map dev | dev in Devs(devices) :: Level(height, Find(devices, dev).value.parent)
  }

  lemma RaisedGrounded(entries: seq<DeviceEntry>, devices: seq<DeviceEntry>, held: seq<DeviceEntry>, from: nat, to: nat,
                       height: map<DevId, nat>, depth: nat, d: DeviceEntry)
    requires Admitted(entries, devices, held, from, to) && DistinctDevs(devices) && Levelled(entries, height, depth)
    requires d in devices && forall d :: d in devices && d.parent.Some? ==> d.parent.value in height
    ensures Grounded(devices, Raised(devices, height), depth, d)
  {
    hide Find, Devs, Admitted, DistinctDevs;
    GroundedEntry(entries, devices, held, from, to, height, depth, d);
    FoundItself(devices, d);
    if d.parent.Some? {
      var above := ParentKept(entries, devices, held, from, to, d.parent.value);
      FoundItself(devices, above);
      assert Grounded(entries, height, depth, above);
    }
  }

  /** Giving ids to the additions keeps the forest: nothing could name them as a parent. */
  lemma AdmittedForest(entries: seq<DeviceEntry>, devices: seq<DeviceEntry>, held: seq<DeviceEntry>, from: nat,
                       to: nat, depth: nat)
    requires Admitted(entries, devices, held, from, to) && Apart(Clash, devices) && Forest(entries, depth)
    ensures Forest(devices, depth)
  {
    hide Clash, Admitted, Grounded, Level, Find;
    ApartDevs(devices);
    var height: map<DevId, nat> :| Levelled(entries, height, depth);
    forall d | d in devices && d.parent.Some? ensures d.parent.value in height {
      GroundedEntry(entries, devices, held, from, to, height, depth, d);
    }
    forall d | d in devices ensures Grounded(devices, Raised(devices, height), depth, d) {
      RaisedGrounded(entries, devices, held, from, to, height, depth, d);
    }
    assert Levelled(devices, Raised(devices, height), depth);
  }

  lemma GroundedEntry(entries: seq<DeviceEntry>, devices: seq<DeviceEntry>, held: seq<DeviceEntry>, from: nat, to: nat,
                      height: map<DevId, nat>, depth: nat, d: DeviceEntry)
    requires Admitted(entries, devices, held, from, to) && Levelled(entries, height, depth) && d in devices
    ensures d.dev.Some? && (d.parent.Some? ==> d.parent.value in height && Listed(entries, d.parent.value))
    ensures Level(height, d.parent) <= depth
  {
    hide Find;
    var i :| 0 <= i < |devices| && devices[i] == d;
    assert Became(entries[i], devices[i], held, from, to) && Grounded(entries, height, depth, entries[i]);
  }

  lemma ParentKept(entries: seq<DeviceEntry>, devices: seq<DeviceEntry>, held: seq<DeviceEntry>, from: nat, to: nat,
                   dev: DevId)
    returns (above: DeviceEntry)
    requires Admitted(entries, devices, held, from, to) && Listed(entries, dev)
    ensures above in entries && above in devices && above.dev == Some(dev)
  {
    hide Find;
    above :| above in entries && above.dev == Some(dev);
    var i :| 0 <= i < |entries| && entries[i] == above;
    assert Became(entries[i], devices[i], held, from, to);
  }

  lemma ArrangedAdmissible(s: Section, rules: SiteRules)
    requires Admissible(s, rules)
    ensures Admissible(Arranged(s), rules)
  {
    hide Forest, BusAllowed, DeviceAllowed, Clash, SameBus, Sort;
    ClashBothWays();
    SortKeepsApart(BusNumber, SameBus, s.buses);
    SortKeepsApart(DevNumber, Clash, s.devices);
    ForestByMembers(s.devices, Sort(DevNumber, s.devices), rules.maxDepth);
  }

  lemma ClashBothWays()
    ensures Symmetric(SameBus) && Symmetric(Clash)
  {}

  lemma ForestByMembers(devices: seq<DeviceEntry>, other: seq<DeviceEntry>, depth: nat)
    requires Forest(devices, depth) && forall d :: d in other <==> d in devices
    ensures Forest(other, depth)
  {
    var height: map<DevId, nat> :| Levelled(devices, height, depth);
    forall d | d in other ensures Grounded(other, height, depth, d) {
      assert Grounded(devices, height, depth, d);
    }
    assert Levelled(other, height, depth);
  }

  predicate Ascends(s: Section) {
    StrictlyAscending(BusNumber, s.buses) && StrictlyAscending(DevNumber, s.devices)
  }

  lemma ArrangedAscends(s: Section)
    requires Apart(SameBus, s.buses) && Apart(Clash, s.devices) && forall d :: d in s.devices ==> d.dev.Some?
    ensures Ascends(Arranged(s))
  {
    hide Sort;
    var arranged := Arranged(s);
    ClashBothWays();
    SortOrders(BusNumber, s.buses);
    SortKeepsApart(BusNumber, SameBus, s.buses);
    SortOrders(DevNumber, s.devices);
    SortKeepsApart(DevNumber, Clash, s.devices);
    forall i, j | 0 <= i < j < |arranged.devices|
      ensures DevNumber(arranged.devices[i]) < DevNumber(arranged.devices[j]) {
      assert arranged.devices[i] in s.devices && arranged.devices[j] in s.devices;
    }
  }

  // ---------------------------------------------------------------------------
  // One accepted write.

  /** What is held never reaches the next id: the state a controller keeps. */
  predicate Sound(held: Section, next: Option<DevId>) {
    Answer(held) && HeldBelow(held.devices, Ceiling(next)) && DistinctDevs(held.devices)
  }

  lemma AcceptedAdmitted(write: Section, rules: SiteRules, held: Section, next: Option<DevId>)
    requires Accept(write, rules, held, next).Success?
    ensures Admissible(write, rules) && AdmitAll(write.devices, held.devices, next).Success?
    ensures var (devices, after) := AdmitAll(write.devices, held.devices, next).value;
            && Accept(write, rules, held, next) == Success((Arranged(Section(write.buses, devices)), after))
            && Admitted(write.devices, devices, held.devices, Ceiling(next), Ceiling(after))
  {
    hide CheckFault, AdmitAll, Admissible, Arranged;
    CheckExactly(write, rules);
    AdmittedBecame(write.devices, held.devices, next);
  }

  lemma AdmittedAdmissible(write: Section, devices: seq<DeviceEntry>, rules: SiteRules, held: seq<DeviceEntry>,
                           from: nat, to: nat)
    requires Admissible(write, rules) && Admitted(write.devices, devices, held, from, to)
    ensures Admissible(Section(write.buses, devices), rules) && forall d :: d in devices ==> d.dev.Some?
  {
    hide Clash, SameBus, DeviceAllowed, BusAllowed, Forest;
    AdmittedApart(write.devices, devices, held, from, to);
    AdmittedAllowed(write.devices, devices, held, from, to, rules);
    AdmittedForest(write.devices, devices, held, from, to, rules.maxDepth);
    forall d | d in devices ensures d.dev.Some? {
      var i :| 0 <= i < |devices| && devices[i] == d;
      assert Became(write.devices[i], devices[i], held, from, to);
    }
  }

  /**
   What `accept` returns passes the same check, strictly ascends, names every
   device, and stands below the next id.
   */
  lemma AcceptedPasses(write: Section, rules: SiteRules, held: Section, next: Option<DevId>)
    requires Accept(write, rules, held, next).Success? && |write.buses| <= MAX_CONFIG_BUSES
    ensures var (section, after) := Accept(write, rules, held, next).value;
            && CheckFault(section, rules).None? && Ascends(section) && Sound(section, after)
  {
    hide Admissible, Arranged, Admitted, Accept, CheckFault, Ascends;
    AcceptedAdmitted(write, rules, held, next);
    var (devices, after) := AdmitAll(write.devices, held.devices, next).value;
    var plain := Section(write.buses, devices);
    AdmittedAdmissible(write, devices, rules, held.devices, Ceiling(next), Ceiling(after));
    ArrangedAdmissible(plain, rules);
    CheckExactly(Arranged(plain), rules);
    AdmissibleApart(plain, rules);
    AdmissibleApart(Arranged(plain), rules);
    ArrangedAscends(plain);
    ArrangedMembers(plain);
    AdmittedBelow(write.devices, devices, held.devices, Ceiling(next), Ceiling(after));
  }

  lemma AdmissibleApart(s: Section, rules: SiteRules)
    requires Admissible(s, rules)
    ensures Apart(SameBus, s.buses) && Apart(Clash, s.devices) && DistinctDevs(s.devices)
            && |s.devices| <= MAX_CONFIG_DEVICES
  {
    ApartDevs(s.devices);
  }

  lemma ArrangedMembers(s: Section)
    ensures forall d :: d in Arranged(s).devices <==> d in s.devices
    ensures |Arranged(s).buses| == |s.buses|
  {}

  lemma AdmittedBelow(entries: seq<DeviceEntry>, devices: seq<DeviceEntry>, held: seq<DeviceEntry>, from: nat, to: nat)
    requires Admitted(entries, devices, held, from, to)
    ensures HeldBelow(devices, to)
  {
    forall d | d in devices ensures d.dev.value < to {
      var i :| 0 <= i < |devices| && devices[i] == d;
      assert Became(entries[i], devices[i], held, from, to);
    }
  }

  lemma {:induction false} HeldAdmitted(entries: seq<DeviceEntry>, held: seq<DeviceEntry>, next: Option<DevId>)
    requires DistinctDevs(held) && forall d :: d in entries ==> d in held && d.dev.Some?
    ensures AdmitAll(entries, held, next) == Success((entries, next))
  {
    hide Find;
    if entries != [] {
      FoundItself(held, entries[0]);
      HeldAdmitted(entries[1..], held, next);
      assert entries == [entries[0]] + entries[1..];
    }
  }

  /** What is held, written back unchanged, is accepted and changes nothing. */
  lemma WriteBack(held: Section, rules: SiteRules, next: Option<DevId>)
    requires Sound(held, next) && Ascends(held) && CheckFault(held, rules).None?
    ensures Accept(held, rules, held, next) == Success((held, next))
  {
    hide CheckFault, AdmitAll;
    HeldAdmitted(held.devices, held.devices, next);
    SortedAlready(BusNumber, held.buses);
    SortedAlready(DevNumber, held.devices);
  }

  /** Accepting is idempotent: the answer sent back as a write is the answer again. */
  lemma AcceptedWritesBack(write: Section, rules: SiteRules, held: Section, next: Option<DevId>)
    requires Accept(write, rules, held, next).Success? && |write.buses| <= MAX_CONFIG_BUSES
    ensures var (section, after) := Accept(write, rules, held, next).value;
            Accept(section, rules, section, after) == Success((section, after))
  {
    hide Accept, CheckFault, Ascends, Sound;
    AcceptedPasses(write, rules, held, next);
    var (section, after) := Accept(write, rules, held, next).value;
    WriteBack(section, rules, after);
  }

  // ---------------------------------------------------------------------------
  // Runs.

  datatype Controller = Controller(held: Section, next: Option<DevId>)

  datatype Attempt = Attempt(write: Section, rules: SiteRules)

  /** Nothing held, and every id still to give. */
  const FRESH: Controller := Controller(EMPTY_SECTION, Some(1))

  /** A write accepted is stored with its allocator; one refused changes nothing. */
  function Step(c: Controller, attempt: Attempt): Controller {
    match Accept(attempt.write, attempt.rules, c.held, c.next)
    case Failure(_) => c
    case Success((section, next)) => Controller(section, next)
  }

  /** The controller before each attempt, and after the last. */
  function Trace(c: Controller, attempts: seq<Attempt>): (trace: seq<Controller>)
    ensures |trace| == |attempts| + 1 && trace[0] == c
    decreases |attempts|
  {
    if attempts == [] then [c] else [c] + Trace(Step(c, attempts[0]), attempts[1..])
  }

  predicate Holds(c: Controller, dev: DevId) { Find(c.held.devices, dev).Some? }

  /** `later` follows `earlier`: nothing dropped has come back, and what stayed is the same product and dialect. */
  ghost predicate Follows(earlier: Controller, later: Controller) {
    && Ceiling(earlier.next) <= Ceiling(later.next)
    && (forall dev: DevId :: Holds(later, dev) && dev < Ceiling(earlier.next) ==> SameDevice(earlier, later, dev))
  }

  predicate SameDevice(earlier: Controller, later: Controller, dev: DevId) {
    && Holds(earlier, dev) && Holds(later, dev)
    && Find(earlier.held.devices, dev).value.product == Find(later.held.devices, dev).value.product
    && Find(earlier.held.devices, dev).value.dialect == Find(later.held.devices, dev).value.dialect
  }

  predicate Writable(attempt: Attempt) { Fits(attempt.write) }

  lemma StepFollows(c: Controller, attempt: Attempt)
    requires Sound(c.held, c.next) && Writable(attempt)
    ensures Sound(Step(c, attempt).held, Step(c, attempt).next) && Follows(c, Step(c, attempt))
  {
    hide Accept, Sound, Find;
    var after := Step(c, attempt);
    if Accept(attempt.write, attempt.rules, c.held, c.next).Success? {
      AcceptedPasses(attempt.write, attempt.rules, c.held, c.next);
      AcceptedAdmitted(attempt.write, attempt.rules, c.held, c.next);
      forall dev: DevId | Holds(after, dev) && dev < Ceiling(c.next) ensures SameDevice(c, after, dev) {
        KeptSame(attempt.write, attempt.rules, c, dev);
      }
    }
  }

  lemma KeptSame(write: Section, rules: SiteRules, c: Controller, dev: DevId)
    requires Accept(write, rules, c.held, c.next).Success?
    requires var (section, next) := Accept(write, rules, c.held, c.next).value;
             Holds(Controller(section, next), dev) && dev < Ceiling(c.next)
    ensures var (section, next) := Accept(write, rules, c.held, c.next).value;
            SameDevice(c, Controller(section, next), dev)
  {
    hide Accept, Find, Arranged, Admissible, AdmitAll;
    AcceptedAdmitted(write, rules, c.held, c.next);
    var (devices, last) := AdmitAll(write.devices, c.held.devices, c.next).value;
    var (section, _) := Accept(write, rules, c.held, c.next).value;
    ArrangedMembers(Section(write.buses, devices));
    var d := Find(section.devices, dev).value;
    var i :| 0 <= i < |devices| && devices[i] == d;
    assert Became(write.devices[i], devices[i], c.held.devices, Ceiling(c.next), Ceiling(last));
  }

  lemma {:induction false} TraceFollows(c: Controller, attempts: seq<Attempt>, j: nat)
    requires Sound(c.held, c.next) && (forall a :: a in attempts ==> Writable(a)) && j <= |attempts|
    ensures var later := Trace(c, attempts)[j]; Sound(later.held, later.next) && Follows(c, later)
    decreases |attempts|
  {
    hide Sound, Step, Writable, Find;
    if j > 0 {
      var after := Step(c, attempts[0]);
      StepFollows(c, attempts[0]);
      TraceFollows(after, attempts[1..], j - 1);
    }
  }

  lemma {:induction false} TraceTail(c: Controller, attempts: seq<Attempt>, i: nat)
    requires i <= |attempts|
    ensures Trace(c, attempts)[i..] == Trace(Trace(c, attempts)[i], attempts[i..])
    decreases |attempts|
  {
    if i > 0 {
      TraceTail(Step(c, attempts[0]), attempts[1..], i - 1);
      assert attempts[1..][i - 1..] == attempts[i..];
    }
  }

  /** Any two moments of a run: the earlier is sound, and the later follows it. */
  lemma RunFollows(attempts: seq<Attempt>, i: nat, j: nat)
    requires (forall a :: a in attempts ==> Writable(a)) && i <= j <= |attempts|
    ensures var trace := Trace(FRESH, attempts);
            Sound(trace[i].held, trace[i].next) && Sound(trace[j].held, trace[j].next) && Follows(trace[i], trace[j])
  {
    hide Writable, Step, Trace;
    var trace := Trace(FRESH, attempts);
    TraceFollows(FRESH, attempts, i);
    TraceTail(FRESH, attempts, i);
    TraceFollows(trace[i], attempts[i..], j - i);
    assert trace[j] == trace[i..][j - i];
  }

  /**
   Over every run from a controller that has never given an id: a removed id never
   comes back, an id never moves to another product or dialect, and every id held
   stands below the next one.
   */
  lemma IdsGivenOnce(attempts: seq<Attempt>, i: nat, j: nat, k: nat, dev: DevId)
    requires (forall a :: a in attempts ==> Writable(a)) && i <= j <= k <= |attempts|
    ensures var t := Trace(FRESH, attempts);
            && (Holds(t[i], dev) && !Holds(t[j], dev) ==> !Holds(t[k], dev))
            && (Holds(t[i], dev) && Holds(t[k], dev) ==> SameDevice(t[i], t[k], dev))
            && DistinctDevs(t[i].held.devices) && (Holds(t[i], dev) ==> dev < Ceiling(t[i].next))
            && Ceiling(t[i].next) <= Ceiling(t[k].next) <= 0x1_0000
  {
    hide Trace, Writable, Find;
    var t := Trace(FRESH, attempts);
    RunFollows(attempts, i, j);
    RunFollows(attempts, j, k);
    RunFollows(attempts, i, k);
  }

  /** No write, under any rules, ever finds the allocator of such a run behind. */
  lemma NeverBehind(attempts: seq<Attempt>, i: nat, write: Section, rules: SiteRules)
    requires (forall a :: a in attempts ==> Writable(a)) && i <= |attempts|
    ensures var c := Trace(FRESH, attempts)[i];
            var answer := Accept(write, rules, c.held, c.next);
            answer.Failure? ==> !answer.error.AllocatorBehind?
  {
    hide Trace, Writable, CheckFault;
    var c := Trace(FRESH, attempts)[i];
    RunFollows(attempts, i, i);
    AdmitNeverBehind(write.devices, c.held.devices, c.next);
  }

  lemma {:induction false} AdmitNeverBehind(entries: seq<DeviceEntry>, held: seq<DeviceEntry>, next: Option<DevId>)
    ensures var answer := AdmitAll(entries, held, next); answer.Failure? ==> !answer.error.AllocatorBehind?
  {
    hide Find;
    if entries != [] && Admit(entries[0], held, next).Success? {
      AdmitNeverBehind(entries[1..], held, Admit(entries[0], held, next).value.1);
    }
  }
}
