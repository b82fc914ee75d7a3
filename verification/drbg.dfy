/**
 The order that keeps a random draw from being handed out twice: advance, write,
 read back, compare, and only then release. The keyed hash is a parameter.
 */
module Drbg {
  import opened Bytes
  import opened Wrappers

  datatype DrbgError = NotStored

  /** What the generator computes from a state; the hash behind it is not modelled. */
  datatype Keyed<!S> = Keyed(next: (S, seq<byte>) -> S, out: S -> seq<byte>)

  /** How a write leaves the durable state: replaced, untouched, or no longer readable. */
  datatype Landing = Lands | IsLost | Tears

  /** The faults one draw meets: how its write lands, whether it reports success, whether the read-back works. */
  datatype Faults = Faults(landing: Landing, writeReports: bool, readWorks: bool)

  class DrbgStore<S(==)> {
    /** The durable state, or nothing that can be read back intact. */
    var durable: Option<S>

    constructor (state: S)
      ensures durable == Some(state)
    {
      durable := Some(state);
    }

    method Write(state: S, faults: Faults) returns (ok: bool)
      modifies this
      ensures durable == Stored(old(durable), state, faults.landing) && ok == faults.writeReports
    {
      match faults.landing {
        case Lands => durable := Some(state);
        case IsLost =>
        case Tears => durable := None;
      }
      ok := faults.writeReports;
    }

    method Read(faults: Faults) returns (state: Option<S>)
      ensures state == if faults.readWorks then durable else None
    {
      state := if faults.readWorks then durable else None;
    }
  }

  ghost function Stored<S>(was: Option<S>, state: S, landing: Landing): Option<S> {
    match landing
    case Lands => Some(state)
    case IsLost => was
    case Tears => None
  }

  /** The store after a draw from `state`, and whether the draw is released. */
  ghost function Drawn<S>(keyed: Keyed<S>, state: S, extra: seq<byte>, was: Option<S>, faults: Faults)
    : (Option<S>, bool)
  {
    var next := keyed.next(state, extra);
    var held := Stored(was, next, faults.landing);
    (held, faults.writeReports && faults.readWorks && held == Some(next))
  }

  /** One draw: the generator's next state and the value released, or neither. */
  method DrawMixing<S(==)>(keyed: Keyed<S>, state: S, extra: seq<byte>, store: DrbgStore<S>, faults: Faults)
    returns (r: Result<(S, seq<byte>), DrbgError>)
    modifies store
    ensures var (held, released) := Drawn(keyed, state, extra, old(store.durable), faults);
            store.durable == held &&
            r == if released then Success((keyed.next(state, extra), keyed.out(state))) else Failure(NotStored)
    ensures r.Success? ==> store.durable == Some(r.value.0)
  {
    var next := keyed.next(state, extra);
    var out := keyed.out(state);
    var ok := store.Write(next, faults);
    if !ok {
      return Failure(NotStored);
    }
    var readBack := store.Read(faults);
    if readBack != Some(next) {
      return Failure(NotStored);
    }
    return Success((next, out));
  }

  // ---------------------------------------------------------------------------
  // Every run of draws, faults, crashes and restarts.

  /** The store, the one live generator if there is one, and the states whose draws were released. */
  datatype Machine<S> = Machine(durable: Option<S>, generator: Option<S>, released: seq<S>)

  datatype Event =
    | Draw(extra: seq<byte>, faults: Faults)
      /** The draw's future is dropped, or the part resets: before its write, or any time after. */
    | CutShort(extra: seq<byte>, wrote: bool, landing: Landing)
    | Crash
    | Restart

  ghost function Happen<S>(keyed: Keyed<S>, m: Machine<S>, e: Event): Machine<S> {
    match e
    case Draw(extra, faults) =>
      if m.generator.None? then m
      else
        var s := m.generator.value;
        var (held, released) := Drawn(keyed, s, extra, m.durable, faults);
        if released then Machine(held, Some(keyed.next(s, extra)), m.released + [s])
        else Machine(held, None, m.released)
    case CutShort(extra, wrote, landing) =>
      if m.generator.None? then m
      else
        var held := if wrote then Stored(m.durable, keyed.next(m.generator.value, extra), landing) else m.durable;
        Machine(held, None, m.released)
    case Crash => m.(generator := None)
    case Restart => if m.generator.None? then m.(generator := m.durable) else m
  }

  ghost function Run<S>(keyed: Keyed<S>, m: Machine<S>, events: seq<Event>): Machine<S>
    decreases |events|
  {
    if events == [] then m else Run(keyed, Happen(keyed, m, events[0]), events[1..])
  }

  // ---------------------------------------------------------------------------
  // No draw twice, exactly when the successor function comes back to no state.

  /** The state some draws after `seed`, each mixing in its own extra bytes. */
  ghost function Orbit<S>(keyed: Keyed<S>, seed: S, path: seq<seq<byte>>): S {
    if path == [] then seed
    else keyed.next(Orbit(keyed, seed, path[..|path| - 1]), path[|path| - 1])
  }

  /** No two points of one path are the same state. */
  ghost predicate NoRevisit<S>(keyed: Keyed<S>, seed: S, path: seq<seq<byte>>) {
    forall i, j :: 0 <= i < j <= |path| ==> Orbit(keyed, seed, path[..i]) != Orbit(keyed, seed, path[..j])
  }

  ghost predicate NeverRevisits<S>(keyed: Keyed<S>, seed: S) {
    forall path: seq<seq<byte>> :: NoRevisit(keyed, seed, path)
  }

  ghost predicate NoDrawTwice<S>(keyed: Keyed<S>, seed: S) {
    forall events: seq<Event>, i: nat, j: nat ::
      var released := Run(keyed, Manufactured(seed), events).released;
      i < j < |released| ==> released[i] != released[j]
  }

  ghost function Manufactured<S>(seed: S): Machine<S> { Machine(Some(seed), None, []) }

  /**
   What the store has been through: it holds the end of `path` unless it tore, a
   live generator is what the store holds, and the releases are earlier points of
   the path, no point twice.
   */
  ghost predicate OnPath<S>(keyed: Keyed<S>, seed: S, m: Machine<S>, path: seq<seq<byte>>, at: seq<nat>) {
    && (m.durable.Some? ==> m.durable.value == Orbit(keyed, seed, path))
    && (m.generator.Some? ==> m.durable == m.generator)
    && |at| == |m.released|
    && (forall i :: 0 <= i < |at| ==> at[i] < |path| && m.released[i] == Orbit(keyed, seed, path[..at[i]]))
    && (forall i, j :: 0 <= i < j < |at| ==> at[i] < at[j])
  }

  lemma PathGrows<S>(keyed: Keyed<S>, seed: S, m: Machine<S>, path: seq<seq<byte>>, at: seq<nat>, extra: seq<byte>)
    requires OnPath(keyed, seed, m, path, at)
    ensures Orbit(keyed, seed, path + [extra]) == keyed.next(Orbit(keyed, seed, path), extra)
    ensures forall i :: 0 <= i < |at| ==> (path + [extra])[..at[i]] == path[..at[i]]
    ensures (path + [extra])[..|path|] == path
  {
    assert (path + [extra])[..|path|] == path;
  }

  /** Whether an event moves the store on: its write landed, or what it would have written was there already. */
  ghost predicate Advances<S>(keyed: Keyed<S>, m: Machine<S>, e: Event) {
    m.generator.Some? &&
    match e
    case Draw(extra, faults) => faults.landing == Lands || Drawn(keyed, m.generator.value, extra, m.durable, faults).1
    case CutShort(extra, wrote, landing) => wrote && landing == Lands
    case _ => false
  }

  ghost function Passed<S>(keyed: Keyed<S>, m: Machine<S>, events: seq<Event>): seq<seq<byte>>
    decreases |events|
  {
    if events == [] then []
    else (if Advances(keyed, m, events[0]) then [events[0].extra] else []) +
         Passed(keyed, Happen(keyed, m, events[0]), events[1..])
  }

  lemma HappenKeepsOnPath<S>(keyed: Keyed<S>, seed: S, m: Machine<S>, e: Event, path: seq<seq<byte>>, at: seq<nat>)
    returns (atAfter: seq<nat>)
    requires OnPath(keyed, seed, m, path, at)
    ensures OnPath(keyed, seed, Happen(keyed, m, e), if Advances(keyed, m, e) then path + [e.extra] else path, atAfter)
  {
    hide Orbit;
    atAfter := at;
    if Advances(keyed, m, e) {
      PathGrows(keyed, seed, m, path, at, e.extra);
      if Happen(keyed, m, e).released != m.released { atAfter := at + [|path|]; }
    }
  }

  lemma {:induction false} RunOnPath<S>(keyed: Keyed<S>, seed: S, m: Machine<S>, events: seq<Event>,
                                        path: seq<seq<byte>>, at: seq<nat>)
    returns (atAfter: seq<nat>)
    requires OnPath(keyed, seed, m, path, at)
    ensures OnPath(keyed, seed, Run(keyed, m, events), path + Passed(keyed, m, events), atAfter)
    decreases |events|
  {
    hide Happen, Orbit, OnPath;
    if events == [] {
      assert path + [] == path;
      return at;
    }
    var a := HappenKeepsOnPath(keyed, seed, m, events[0], path, at);
    var next := Happen(keyed, m, events[0]);
    var step: seq<seq<byte>> := if Advances(keyed, m, events[0]) then [events[0].extra] else [];
    assert path + [] == path;
    atAfter := RunOnPath(keyed, seed, next, events[1..], path + step, a);
    assert path + step + Passed(keyed, next, events[1..]) == path + (step + Passed(keyed, next, events[1..]));
  }

  const SOUND: Faults := Faults(Lands, true, true)

  function SoundDraws(extras: seq<seq<byte>>): (events: seq<Event>)
    ensures |events| == |extras|
  {
    if extras == [] then [] else [Draw(extras[0], SOUND)] + SoundDraws(extras[1..])
  }

  /** With no fault at all, every point of the path is released. */
  lemma {:induction false} SoundDrawsRelease<S>(keyed: Keyed<S>, seed: S, done: seq<seq<byte>>,
                                                    extras: seq<seq<byte>>, released: seq<S>, k: nat)
    requires |released| == |done| && k < |done| + |extras|
    requires forall i :: 0 <= i < |done| ==> released[i] == Orbit(keyed, seed, done[..i])
    ensures var s := Orbit(keyed, seed, done);
            var m := Run(keyed, Machine(Some(s), Some(s), released), SoundDraws(extras));
            |m.released| == |done| + |extras| && m.released[k] == Orbit(keyed, seed, (done + extras)[..k])
    decreases |extras|
  {
    var s := Orbit(keyed, seed, done);
    if extras == [] {
      assert done + extras == done;
    } else {
      var doneNow := done + [extras[0]];
      assert doneNow[..|done|] == done && doneNow + extras[1..] == done + extras;
      forall i | 0 <= i < |doneNow| ensures (released + [s])[i] == Orbit(keyed, seed, doneNow[..i]) {
        if i < |done| { assert doneNow[..i] == done[..i]; }
      }
      SoundDrawsRelease(keyed, seed, doneNow, extras[1..], released + [s], k);
    }
  }

  lemma RevisitReleasesTwice<S>(keyed: Keyed<S>, seed: S, path: seq<seq<byte>>, i: nat, j: nat)
    requires i < j <= |path| && Orbit(keyed, seed, path[..i]) == Orbit(keyed, seed, path[..j])
    ensures !NoDrawTwice(keyed, seed)
  {
    var extras := path + [[]];
    var events := [Restart] + SoundDraws(extras);
    assert events[1..] == SoundDraws(extras);
    SoundDrawsRelease(keyed, seed, [], extras, [], i);
    SoundDrawsRelease(keyed, seed, [], extras, [], j);
    assert ([] + extras)[..i] == path[..i] && ([] + extras)[..j] == path[..j];
    var released := Run(keyed, Manufactured(seed), events).released;
    assert released[i] == released[j];
  }

  /**
   In any run of draws, faults, cuts, crashes and restarts whose states did not
   come round again, no state's draw is released twice, and what a restart finds
   in the store has never been drawn from.
   */
  lemma ReleasedOnceAlong<S>(keyed: Keyed<S>, seed: S, events: seq<Event>)
    requires NoRevisit(keyed, seed, Passed(keyed, Manufactured(seed), events))
    ensures var m := Run(keyed, Manufactured(seed), events);
            && (forall i, j :: 0 <= i < j < |m.released| ==> m.released[i] != m.released[j])
            && (m.durable.Some? ==> m.durable.value !in m.released)
  {
    var m := Run(keyed, Manufactured(seed), events);
    var at := RunOnPath(keyed, seed, Manufactured(seed), events, [], []);
    var path := Passed(keyed, Manufactured(seed), events);
    assert [] + path == path && path[..|path|] == path;
  }

  /** Over all runs, that is an equivalence: no draw twice exactly when no chain of successors returns. */
  lemma NoDrawTwiceExactly<S>(keyed: Keyed<S>, seed: S)
    ensures NoDrawTwice(keyed, seed) <==> NeverRevisits(keyed, seed)
  {
    if !NeverRevisits(keyed, seed) {
      var path: seq<seq<byte>> :| !NoRevisit(keyed, seed, path);
      var i: nat, j: nat :| i < j <= |path| && Orbit(keyed, seed, path[..i]) == Orbit(keyed, seed, path[..j]);
      RevisitReleasesTwice(keyed, seed, path, i, j);
    } else {
      forall events: seq<Event>, i: nat, j: nat | i < j < |Run(keyed, Manufactured(seed), events).released|
        ensures Run(keyed, Manufactured(seed), events).released[i] != Run(keyed, Manufactured(seed), events).released[j]
      {
        ReleasedOnceAlong(keyed, seed, events);
      }
    }
  }
}
