/**
 Parent chains: the bounded walk up from one device, and what it means that every
 device of a section passes it.
 */
module Chains {
  import opened Bytes
  import opened Wrappers
  import opened Limits
  import opened Sections

  /** The first entry that carries `dev`. */
  function Find(devices: seq<DeviceEntry>, dev: DevId): (found: Option<DeviceEntry>)
    ensures found.Some? ==> found.value in devices && found.value.dev == Some(dev)
    ensures found.None? ==> forall d :: d in devices ==> d.dev != Some(dev)
  {
    if devices == [] then None
    else if devices[0].dev == Some(dev) then Some(devices[0])
    else Find(devices[1..], dev)
  }

  /** The ids a section lists. */
  function Devs(devices: seq<DeviceEntry>): (devs: set<DevId>)
    ensures forall dev: DevId :: dev in devs <==> exists d :: d in devices && d.dev == Some(dev)
    ensures |devs| <= |devices|
  {
    if devices == [] then {}
    else
      var rest := Devs(devices[1..]);
      assert forall d :: d in devices <==> d == devices[0] || d in devices[1..];
      match devices[0].dev
      case None => rest
      case Some(dev) => {dev} + rest
  }

  function Elements(s: seq<DevId>): (e: set<DevId>)
    ensures forall x :: x in s <==> x in e
  {
    set x | x in s
  }

  /** The walk up from a device whose id is `start`: how many devices it passes, itself included. */
  function Climb(devices: seq<DeviceEntry>, start: Option<DevId>, next: Option<DevId>, passed: seq<DevId>):
    (r: Result<nat, ConfigError>)
    ensures r.Failure? ==> !r.error.AllocatorBehind?
    decreases |Devs(devices) - Elements(passed)|
  {
    match next
    case None => Success(|passed| + 1)
    case Some(parent) =>
      if start == Some(parent) || parent in passed then Failure(ParentLoop(parent))
      else
        match Find(devices, parent)
        case None => Failure(ParentNotListed(parent))
        case Some(above) =>
          Shrinks(devices, passed, parent);
          Climb(devices, start, above.parent, passed + [parent])
  }

  lemma Shrinks(devices: seq<DeviceEntry>, passed: seq<DevId>, parent: DevId)
    requires parent !in passed && Find(devices, parent).Some?
    ensures |Devs(devices) - Elements(passed + [parent])| < |Devs(devices) - Elements(passed)|
  {
    var before, after := Devs(devices) - Elements(passed), Devs(devices) - Elements(passed + [parent]);
    assert parent in before && after == before - {parent};
  }

  function ChainFault(devices: seq<DeviceEntry>, device: DeviceEntry, depth: nat): Option<ConfigError> {
    match Climb(devices, device.dev, device.parent, [])
    case Failure(why) => Some(why)
    case Success(held) =>
      if held > depth then Some(TooDeep(if device.dev.Some? then device.dev.value else 0)) else None
  }

  /** Ids passed once each, none of them the device's own, leave one of the section's entries over. */
  lemma PassedFewer(devices: seq<DeviceEntry>, device: DeviceEntry, passed: seq<DevId>)
    requires device in devices
    requires forall i :: 0 <= i < |passed| ==> passed[i] in Devs(devices) && Some(passed[i]) != device.dev
    requires forall i, j :: 0 <= i < j < |passed| ==> passed[i] != passed[j]
    ensures |passed| < |devices|
  {
    hide Devs, Elements;
    var k :| 0 <= k < |devices| && devices[k] == device;
    var others := devices[..k] + devices[k + 1..];
    forall i | 0 <= i < |passed| ensures passed[i] in Devs(others) {
      var d :| d in devices && d.dev == Some(passed[i]);
    }
    DistinctCount(passed);
    assert Elements(passed) <= Devs(others);
    SubsetSize(Elements(passed), Devs(others));
  }

  lemma SubsetSize<T>(a: set<T>, b: set<T>)
    requires a <= b
    ensures |a| <= |b|
  {
    assert b == a + (b - a);
  }

  lemma {:induction false} DistinctCount(s: seq<DevId>)
    requires forall i, j :: 0 <= i < j < |s| ==> s[i] != s[j]
    ensures |Elements(s)| == |s|
  {
    if s == [] {
      assert Elements(s) == {};
    } else {
      var front := s[..|s| - 1];
      DistinctCount(front);
      assert Elements(s) == Elements(front) + {s[|s| - 1]};
    }
  }

  /**
   The chain above one device of a section, in sixteen steps at most. Sixteen
   distinct parents in a section of sixteen would leave no entry for the device
   itself, so the walk never runs out of steps.
   */
  method CheckChain(devices: seq<DeviceEntry>, device: DeviceEntry, depth: nat) returns (r: Result<(), ConfigError>)
    requires device in devices && |devices| <= MAX_CONFIG_DEVICES
    ensures r == match ChainFault(devices, device, depth) {
              case None => Success(())
              case Some(why) => Failure(why)
            }
  {
    var start := device.dev;
    var named: u16 := if start.Some? then start.value else 0;
    var seen := new Option<DevId>[MAX_CONFIG_DEVICES](_ => None);
    var held := 1;
    var next := device.parent;
    ghost var passed: seq<DevId> := [];
    for count := 0 to MAX_CONFIG_DEVICES
      invariant |passed| == count && held == count + 1
      invariant forall i :: 0 <= i < count ==> seen[i] == Some(passed[i])
      invariant forall i :: 0 <= i < count ==> passed[i] in Devs(devices) && Some(passed[i]) != start
      invariant forall i, j :: 0 <= i < j < count ==> passed[i] != passed[j]
      invariant Climb(devices, start, next, passed) == Climb(devices, start, device.parent, [])
    {
      if next.None? {
        return if held > depth then Failure(TooDeep(named)) else Success(());
      }
      var parent := next.value;
      assert parent in passed <==> Some(parent) in seen[..count] by {
        if parent in passed {
          var i :| 0 <= i < count && passed[i] == parent;
          assert seen[..count][i] == Some(parent);
        }
      }
      if start == Some(parent) || Some(parent) in seen[..count] {
        return Failure(ParentLoop(parent));
      }
      seen[count] := Some(parent);
      var above := Find(devices, parent);
      if above.None? {
        return Failure(ParentNotListed(parent));
      }
      held := held + 1;
      next := above.value.parent;
      passed := passed + [parent];
    }
    PassedFewer(devices, device, passed);
    assert false;
    r := Failure(ParentLoop(named));
  }

  // ---------------------------------------------------------------------------
  // What passing means.

  /** `line` is every device above, nearest first, ending at one with no parent. */
  predicate Links(devices: seq<DeviceEntry>, next: Option<DevId>, line: seq<DevId>)
    decreases |line|
  {
    match next
    case None => line == []
    case Some(parent) =>
      && line != [] && line[0] == parent && Find(devices, parent).Some?
      && Links(devices, Find(devices, parent).value.parent, line[1..])
  }

  predicate Distinct(line: seq<DevId>) {
    forall i, j :: 0 <= i < j < |line| ==> line[i] != line[j]
  }

  predicate Avoids(line: seq<DevId>, start: Option<DevId>) {
    forall dev :: dev in line ==> start != Some(dev)
  }

  lemma {:induction false} ClimbedLine(devices: seq<DeviceEntry>, start: Option<DevId>, next: Option<DevId>,
                                       passed: seq<DevId>)
    returns (line: seq<DevId>)
    requires Climb(devices, start, next, passed).Success? && Distinct(passed)
    ensures Links(devices, next, line) && Distinct(passed + line) && Avoids(line, start)
    ensures Climb(devices, start, next, passed).value == 1 + |passed| + |line|
    decreases |Devs(devices) - Elements(passed)|
  {
    if next.None? {
      line := [];
      assert passed + line == passed;
    } else {
      hide *;
      var parent := next.value;
      Shrinks(devices, passed, parent);
      var rest := ClimbedLine(devices, start, Find(devices, parent).value.parent, passed + [parent]);
      line := [parent] + rest;
      assert passed + line == passed + [parent] + rest by { Reassociated(passed, parent, rest); }
      assert line[1..] == rest;
    }
  }

  lemma Reassociated(passed: seq<DevId>, parent: DevId, rest: seq<DevId>)
    ensures passed + ([parent] + rest) == passed + [parent] + rest
  {}

  lemma NotPassed(passed: seq<DevId>, line: seq<DevId>)
    requires Distinct(passed + line) && line != []
    ensures line[0] !in passed
  {
    forall i | 0 <= i < |passed| ensures passed[i] != line[0] {
      assert (passed + line)[i] != (passed + line)[|passed|];
    }
  }

  lemma {:induction false} LineClimbs(devices: seq<DeviceEntry>, start: Option<DevId>, next: Option<DevId>,
                                      passed: seq<DevId>, line: seq<DevId>)
    requires Links(devices, next, line) && Distinct(passed + line) && Avoids(line, start)
    ensures Climb(devices, start, next, passed) == Success(1 + |passed| + |line|)
    decreases |line|
  {
    if next.Some? {
      var parent, all := next.value, passed + line;
      NotPassed(passed, line);
      assert passed + [parent] + line[1..] == all;
      LineClimbs(devices, start, Find(devices, parent).value.parent, passed + [parent], line[1..]);
    }
  }

  lemma {:induction false} OneLine(devices: seq<DeviceEntry>, next: Option<DevId>, line: seq<DevId>, other: seq<DevId>)
    requires Links(devices, next, line) && Links(devices, next, other)
    ensures line == other
    decreases |line|
  {
    if next.Some? {
      OneLine(devices, Find(devices, next.value).value.parent, line[1..], other[1..]);
      assert line == [line[0]] + line[1..] && other == [other[0]] + other[1..];
    }
  }

  /** The walk passes a device exactly when a root is reached through listed devs, none twice, few enough. */
  lemma ChainExactly(devices: seq<DeviceEntry>, device: DeviceEntry, depth: nat)
    ensures ChainFault(devices, device, depth).None? <==>
            exists line :: Links(devices, device.parent, line) && Distinct(line) && Avoids(line, device.dev)
                           && 1 + |line| <= depth
  {
    if ChainFault(devices, device, depth).None? {
      var line := ClimbedLine(devices, device.dev, device.parent, []);
      assert [] + line == line;
    }
    forall line | Links(devices, device.parent, line) && Distinct(line) && Avoids(line, device.dev)
                  && 1 + |line| <= depth
      ensures ChainFault(devices, device, depth).None?
    {
      assert [] + line == line;
      LineClimbs(devices, device.dev, device.parent, [], line);
    }
  }

  // ---------------------------------------------------------------------------
  // A forest of bounded depth.

  function Level(height: map<DevId, nat>, parent: Option<DevId>): nat
    requires parent.Some? ==> parent.value in height
  {
    if parent.None? then 1 else height[parent.value] + 1
  }

  predicate Listed(devices: seq<DeviceEntry>, dev: DevId) {
    exists d :: d in devices && d.dev == Some(dev)
  }

  /** One entry stands one level below its parent, within `depth`. */
  predicate Grounded(devices: seq<DeviceEntry>, height: map<DevId, nat>, depth: nat, d: DeviceEntry) {
    && (d.parent.Some? ==> d.parent.value in height && Listed(devices, d.parent.value))
    && Level(height, d.parent) <= depth
    && (d.dev.Some? ==> d.dev.value in height && height[d.dev.value] == Level(height, d.parent))
  }

  predicate Levelled(devices: seq<DeviceEntry>, height: map<DevId, nat>, depth: nat) {
    forall d :: d in devices ==> Grounded(devices, height, depth, d)
  }

  /** Every device hangs off a root through its parents, no more than `depth` on any line. */
  ghost predicate Forest(devices: seq<DeviceEntry>, depth: nat) {
    exists height: map<DevId, nat> :: Levelled(devices, height, depth)
  }

  predicate DistinctDevs(devices: seq<DeviceEntry>) {
    forall i, j :: 0 <= i < j < |devices| && devices[i].dev.Some? ==> devices[i].dev != devices[j].dev
  }

  predicate ChainsPass(devices: seq<DeviceEntry>, depth: nat) {
    forall d :: d in devices ==> ChainFault(devices, d, depth).None?
  }

  lemma {:induction false} LevelledLine(devices: seq<DeviceEntry>, height: map<DevId, nat>, depth: nat,
                                        next: Option<DevId>)
    returns (line: seq<DevId>)
    requires Levelled(devices, height, depth)
    requires next.Some? ==> next.value in height && Listed(devices, next.value)
    ensures Links(devices, next, line) && |line| + 1 == Level(height, next)
    ensures Distinct(line) && forall dev :: dev in line ==> dev in height && height[dev] < Level(height, next)
    decreases Level(height, next)
  {
    if next.None? {
      line := [];
    } else {
      var above := Find(devices, next.value).value;
      assert Grounded(devices, height, depth, above);
      var rest := LevelledLine(devices, height, depth, above.parent);
      line := [next.value] + rest;
      assert line[1..] == rest;
    }
  }

  lemma FoundItself(devices: seq<DeviceEntry>, d: DeviceEntry)
    requires DistinctDevs(devices) && d in devices && d.dev.Some?
    ensures Find(devices, d.dev.value) == Some(d)
  {
    var found := Find(devices, d.dev.value).value;
    var i :| 0 <= i < |devices| && devices[i] == d;
    var j :| 0 <= j < |devices| && devices[j] == found;
    assert i == j;
  }

  function HeightOf(devices: seq<DeviceEntry>, dev: DevId): nat {
    match Find(devices, dev)
    case None => 0
    case Some(d) => match Climb(devices, d.dev, d.parent, []) case Success(held) => held case Failure(_) => 0
  }

  lemma PassingLevels(devices: seq<DeviceEntry>, depth: nat, d: DeviceEntry)
    requires DistinctDevs(devices) && ChainsPass(devices, depth) && d in devices
    ensures d.parent.Some? ==> Listed(devices, d.parent.value)
    ensures Climb(devices, d.dev, d.parent, [])
         == Success(if d.parent.None? then 1 else HeightOf(devices, d.parent.value) + 1)
    ensures Climb(devices, d.dev, d.parent, []).value <= depth
  {
    var line := ClimbedLine(devices, d.dev, d.parent, []);
    if d.parent.Some? {
      var above := Find(devices, d.parent.value).value;
      var rest := ClimbedLine(devices, above.dev, above.parent, []);
      OneLine(devices, above.parent, line[1..], rest);
    }
  }

  /** Every chain of a section passes exactly when the section is a forest no deeper than `depth`. */
  lemma ChainsAreForest(devices: seq<DeviceEntry>, depth: nat)
    requires DistinctDevs(devices)
    ensures ChainsPass(devices, depth) <==> Forest(devices, depth)
  {
    hide Climb, Find, ChainFault, Links;
    if ChainsPass(devices, depth) {
      var height := map dev | dev in Devs(devices) :: HeightOf(devices, dev);
      forall d | d in devices ensures Grounded(devices, height, depth, d) {
        PassingLevels(devices, depth, d);
        if d.dev.Some? { HeightOfListed(devices, d); }
      }
      assert Levelled(devices, height, depth);
    }
    forall height: map<DevId, nat>, d | Levelled(devices, height, depth) && d in devices
      ensures ChainFault(devices, d, depth).None?
    {
      assert Grounded(devices, height, depth, d);
      var line := LevelledLine(devices, height, depth, d.parent);
      ChainExactly(devices, d, depth);
    }
  }

  lemma HeightOfListed(devices: seq<DeviceEntry>, d: DeviceEntry)
    requires DistinctDevs(devices) && d in devices && d.dev.Some? && Climb(devices, d.dev, d.parent, []).Success?
    ensures HeightOf(devices, d.dev.value) == Climb(devices, d.dev, d.parent, []).value
  {
    FoundItself(devices, d);
  }
}
