/**
 Time between bytes: a silence below the limit changes nothing a reader says, and
 one at the limit abandons a run in progress once.
 */
module FrameSilence {
  import opened Bytes
  import opened Wrappers
  import opened Frame

  /** What reaches a reader: a byte, or so many milliseconds with none. */
  datatype Event = Came(b: byte) | Passed(ms: u32)

  function Hear(line: Line, event: Event): (Received, Line) {
    match event
    case Came(b) => TickLine(line, Some(b), 0)
    case Passed(ms) => TickLine(line, None, ms)
  }

  function Heard(line: Line, events: seq<Event>): seq<Received>
    decreases |events|
  {
    if events == [] then []
    else
      var (answer, after) := Hear(line, events[0]);
      [answer] + Heard(after, events[1..])
  }

  function BytesOf(events: seq<Event>): seq<byte> {
    if events == [] then []
    else (if events[0].Came? then [events[0].b] else []) + BytesOf(events[1..])
  }

  /** No silence comes to fifty milliseconds, `waiting` of them gone already. */
  predicate Prompt(events: seq<Event>, waiting: nat) {
    if events == [] then true
    else
      match events[0]
      case Came(_) => Prompt(events[1..], 0)
      case Passed(ms) => waiting + ms < 50 && Prompt(events[1..], waiting + ms)
  }

  /** Silences below the limit are not heard: the reader says what it would of the bytes alone. */
  lemma {:induction false} PromptIsUnheard(line: Line, events: seq<Event>)
    requires Prompt(events, line.waiting)
    ensures Spoken(Heard(line, events)) == Spoken(Answers(line.run, BytesOf(events)))
    decreases |events|
  {
    hide Judge;
    if events != [] {
      var (answer, after) := Hear(line, events[0]);
      PromptIsUnheard(after, events[1..]);
      var rest := Heard(after, events[1..]);
      assert ([answer] + rest)[1..] == rest;
      if events[0].Came? {
        var b, more := events[0].b, BytesOf(events[1..]);
        assert BytesOf(events) == [b] + more && ([b] + more)[1..] == more;
        var later := Answers(after.run, more);
        assert ([answer] + later)[1..] == later;
      } else {
        assert [] + BytesOf(events[1..]) == BytesOf(events[1..]);
      }
    }
  }

  function Total(events: seq<Event>): nat {
    if events == [] then 0 else (if events[0].Passed? then events[0].ms else 0) + Total(events[1..])
  }

  /** A silence that reaches the limit abandons a run in progress, once, and leaves the reader empty. */
  lemma {:induction false} SilenceAbandons(line: Line, events: seq<Event>)
    requires forall e :: e in events ==> e.Passed?
    requires line.run != [] ==> line.waiting < 50
    ensures Spoken(Heard(line, events)) ==
            if line.run != [] && line.waiting + Total(events) >= 50 then [Abandoned] else []
    decreases |events|
  {
    if events != [] {
      var (answer, after) := Hear(line, events[0]);
      assert events[0] in events && forall e :: e in events[1..] ==> e in events;
      SilenceAbandons(after, events[1..]);
      var rest := Heard(after, events[1..]);
      assert ([answer] + rest)[1..] == rest;
      assert Spoken([answer] + rest) == (if answer == Nothing then [] else [answer]) + Spoken(rest);
    }
  }
}
