/**
 What the restricted format forbids, said of the bytes themselves: which first
 bytes a head may have, which a key may have, and what a walk answers to any other.
 */
module CborRestrictions {
  import opened Bytes
  import opened Wrappers
  import opened Limits
  import opened CborHeads
  import opened CborGrammar
  import opened CborWalk
  import opened CborReaders

  // ---------------------------------------------------------------------------
  // First bytes.

  /** What is wrong with a first byte, whatever follows it. */
  function Forbidden(first: byte): Option<CborError> {
    if 0xC0 <= first <= 0xDF then Some(TagNotAllowed)
    else if first % 32 == 31 then Some(IndefiniteLength)
    else if first % 32 >= 28 then Some(ReservedHead)
    else if first < 0xC0 || first == 0xF4 || first == 0xF5 then None
    else if 0xF9 <= first <= 0xFB then Some(FloatNotAllowed)
    else Some(SimpleValueNotAllowed)
  }

  /** A tag, a float, a reserved, an indefinite or any other simple first byte is refused by its own name. */
  lemma FirstByte(b: seq<byte>, at: nat)
    requires at < |b|
    ensures Forbidden(b[at]).Some? ==> DecodeHead(b, at) == Failure(Forbidden(b[at]).value)
    ensures DecodeHead(b, at).Success? ==> Forbidden(b[at]).None?
  {
    hide Utf8, FromBigEndian, Take;
  }

  /** Integers are exactly the heads whose first byte is below 0x40. */
  lemma IntegerHead(b: seq<byte>, at: nat)
    requires at < |b| && DecodeHead(b, at).Success?
    ensures b[at] < 0x40 <==> KeyOf(DecodeHead(b, at).value.0).Success?
    ensures b[at] >= 0x40 ==> KeyOf(DecodeHead(b, at).value.0) == Failure(KeyNotInteger)
    ensures b[at] < 0x40 ==>
              KeyOf(DecodeHead(b, at).value.0).value
              == KeyRank(b[at] >= 0x20, Argument(b, at + 1, b[at] % 32).value.0)
  {
    hide Utf8, Argument, Take;
  }

  /** The argument behind a first byte, byte by byte, shortest form or not, and where it ends. */
  function ArgumentSpelled(b: seq<byte>, at: nat): Option<(int, nat)>
    requires at < |b| && b[at] % 32 < 28
  {
    var info := b[at] % 32;
    if info < 24 then Some((info, at + 1))
    else if info == 24 then if at + 2 > |b| then None else Some((b[at + 1], at + 2))
    else if info == 25 then if at + 3 > |b| then None else Some((Two(b, at + 1), at + 3))
    else if info == 26 then if at + 5 > |b| then None else Some((0x1_0000 * Two(b, at + 1) + Two(b, at + 3), at + 5))
    else if at + 9 > |b| then None
    else Some((0x1_0000_0000_0000 * Two(b, at + 1) + 0x1_0000_0000 * Two(b, at + 3)
               + 0x1_0000 * Two(b, at + 5) + Two(b, at + 7), at + 9))
  }

  function Two(b: seq<byte>, at: nat): int
    requires at + 2 <= |b|
  {
    0x100 * (b[at] as int) + b[at + 1]
  }

  lemma TwoBytes(s: seq<byte>, n: nat)
    requires n + 2 <= |s|
    ensures FromBigEndian(s[..n + 2]) == 0x1_0000 * FromBigEndian(s[..n]) + Two(s, n)
  {
    assert s[..n + 2][..n + 1] == s[..n + 1] && s[..n + 1][..n] == s[..n];
  }

  lemma BigEndianSpelled(s: seq<byte>)
    ensures |s| == 1 ==> FromBigEndian(s) == s[0]
    ensures |s| == 2 ==> FromBigEndian(s) == Two(s, 0)
    ensures |s| == 4 ==> FromBigEndian(s) == 0x1_0000 * Two(s, 0) + Two(s, 2)
    ensures |s| == 8 ==> FromBigEndian(s) == 0x1_0000_0000_0000 * Two(s, 0) + 0x1_0000_0000 * Two(s, 2)
                                             + 0x1_0000 * Two(s, 4) + Two(s, 6)
  {
    hide FromBigEndian;
    assert s[..|s|] == s;
    NoBytes(s);
    if |s| == 2 || |s| == 4 || |s| == 8 {
      TwoBytes(s, 0);
      if |s| > 2 { TwoBytes(s, 2); }
      if |s| > 4 {
        TwoBytes(s, 4);
        TwoBytes(s, 6);
      }
    }
  }

  lemma NoBytes(s: seq<byte>)
    ensures FromBigEndian(s[..0]) == 0 && (|s| == 1 ==> FromBigEndian(s) == s[0])
  {}

  lemma ArgumentIsSpelled(b: seq<byte>, at: nat)
    requires at < |b| && b[at] % 32 < 28
    ensures match ArgumentSpelled(b, at) {
              case None => Argument(b, at + 1, b[at] % 32) == Failure(EndOfInput)
              case Some((arg, from)) => Argument(b, at + 1, b[at] % 32) == Success((arg, from))
            }
  {
    hide FromBigEndian;
    var info := b[at] % 32;
    var width := WidthOf(info).value;
    if at + 1 + width <= |b| { BigEndianSpelled(b[at + 1..at + 1 + width]); }
  }

  /**
   What every allowed first byte means: any width of argument will do, a string or a
   container must fit what is left, and text its bound and UTF-8.
   */
  lemma HeadExactly(b: seq<byte>, at: nat)
    requires at < |b| && Forbidden(b[at]).None?
    ensures var first, h := b[at], DecodeHead(b, at);
            if first == 0xF4 then h == Success((Bool(false), at + 1))
            else if first == 0xF5 then h == Success((Bool(true), at + 1))
            else
              match ArgumentSpelled(b, at)
              case None => h == Failure(EndOfInput)
              case Some((arg, from)) =>
                var left := |b| - from;
                if first < 0x20 then h == Success((Unsigned(arg), from))
                else if first < 0x40 then h == Success((Negative(arg), from))
                else if arg > 0xFFFF_FFFF then h == Failure(EndOfInput)
                else if first < 0x60 then
                  h == if arg > left then Failure(EndOfInput) else Success((Bytes(b[from..from + arg]), from + arg))
                else if first < 0x80 then
                  h == if arg > 64 then Failure(StringTooLong) else if arg > left then Failure(EndOfInput)
                       else if Utf8(b[from..from + arg]) then Success((Text(b[from..from + arg]), from + arg))
                       else Failure(InvalidUtf8)
                else if first < 0xA0 then
                  h == if arg > left then Failure(EndOfInput) else Success((Array(arg), from))
                else
                  h == if 2 * arg > 0xFFFF_FFFF
                  || 2 * arg > left then Failure(EndOfInput) else Success((Map(arg), from))
  {
    hide Utf8, ArgumentSpelled, Argument;
    var first := b[at];
    if first < 0xC0 { ArgumentIsSpelled(b, at); }
  }

  // ---------------------------------------------------------------------------
  // The heads a walk comes to.

  datatype Place = Place(at: nat, key: bool)

  /** What a walk answers to the head it finds at a place, if it stops there. */
  function Stops(b: seq<byte>, p: Place): Option<CborError>
    requires p.at <= |b|
  {
    match DecodeHead(b, p.at)
    case Failure(why) => Some(why)
    case Success(_) => if p.key && b[p.at] >= 0x40 then Some(KeyNotInteger) else None
  }

  /** Every head the walk of one item comes to, up to where it stops. */
  function ItemPlaces(b: seq<byte>, at: nat, room: nat): (places: set<Place>)
    requires at <= |b|
    ensures forall p :: p in places ==> at <= p.at <= |b|
    decreases |b| - at, 0, 0
  {
    {Place(at, false)} +
    match DecodeHead(b, at) {
      case Failure(_) => {}
      case Success((head, end)) =>
        if Owes(head).None? || room == 0 then {}
        else OwedPlaces(b, end, Owes(head).value.0, Owes(head).value.1, room - 1)
    }
  }

  function OwedPlaces(b: seq<byte>, at: nat, kind: Nesting, remaining: nat, room: nat): (places: set<Place>)
    requires at <= |b|
    ensures forall p :: p in places ==> at <= p.at <= |b|
    decreases |b| - at, 1, remaining
  {
    if remaining == 0 then {}
    else if kind == InMap && remaining % 2 == 0 then
      {Place(at, true)} +
      (if Stops(b, Place(at, true)).Some? then {}
       else OwedPlaces(b, DecodeHead(b, at).value.1, kind, remaining - 1, room))
    else
      ItemPlaces(b, at, room) +
      (if Item(b, at, room, false).Failure? then {}
       else OwedPlaces(b, Item(b, at, room, false).value.end, kind, remaining - 1, room))
  }

  /** `why` is what some head among `places` stops the walk with. */
  ghost predicate StoppedBy(b: seq<byte>, places: set<Place>, why: CborError)
    requires forall p :: p in places ==> p.at <= |b|
  {
    exists p :: p in places && Stops(b, p) == Some(why)
  }

  ghost predicate Unstopped(b: seq<byte>, places: set<Place>)
    requires forall p :: p in places ==> p.at <= |b|
  {
    forall p :: p in places ==> Stops(b, p).None?
  }

  /** A walk agrees with the heads it comes to: it stops with what one of them says, or nests too deep. */
  ghost predicate Answers(b: seq<byte>, places: set<Place>, r: Result<Walked, CborError>)
    requires forall p :: p in places ==> p.at <= |b|
  {
    match r
    case Success(_) => Unstopped(b, places)
    case Failure(why) =>
      && (why == DepthExceeded || StoppedBy(b, places, why))
      && forall p :: p in places && Stops(b, p).Some? ==> Stops(b, p) == Some(why)
  }

  lemma {:induction false} ItemAnswers(b: seq<byte>, at: nat, room: nat)
    requires at <= |b|
    ensures Answers(b, ItemPlaces(b, at, room), Item(b, at, room, false))
    decreases |b| - at, 0, 0
  {
    hide DecodeHead;
    var first := Place(at, false);
    assert first in ItemPlaces(b, at, room);
    if DecodeHead(b, at).Success? {
      var (head, end) := DecodeHead(b, at).value;
      if Owes(head).Some? && room > 0 {
        OwedAnswers(b, end, Owes(head).value.0, Owes(head).value.1, {}, room - 1);
      }
    }
  }

  lemma KeyAnswers(b: seq<byte>, at: nat, remaining: nat, seen: set<KeyRank>, room: nat)
    requires at <= |b| && remaining > 0 && remaining % 2 == 0 && Stops(b, Place(at, true)).Some?
    ensures Answers(b, OwedPlaces(b, at, InMap, remaining, room), Owed(b, at, InMap, remaining, seen, room, false))
  {
    hide DecodeHead, Item, Owed;
    OwedKeyStep(b, at, remaining, seen, room, false);
    assert Place(at, true) in OwedPlaces(b, at, InMap, remaining, room);
    if DecodeHead(b, at).Success? { IntegerHead(b, at); }
  }

  lemma BothAnswer(b: seq<byte>, p: set<Place>, q: set<Place>, r: Result<Walked, CborError>)
    requires forall x :: x in p + q ==> x.at <= |b|
    requires Unstopped(b, p) && Answers(b, q, r)
    ensures Answers(b, p + q, r)
  {
    hide Stops;
    if r.Failure? && StoppedBy(b, q, r.error) {
      var x :| x in q && Stops(b, x) == Some(r.error);
      assert x in p + q;
    }
  }

  lemma {:induction false} OwedAnswers(b: seq<byte>, at: nat, kind: Nesting, remaining: nat, seen: set<KeyRank>,
                                       room: nat)
    requires at <= |b|
    ensures Answers(b, OwedPlaces(b, at, kind, remaining, room), Owed(b, at, kind, remaining, seen, room, false))
    decreases |b| - at, 1, remaining
  {
    hide DecodeHead, Item, Owed, Answers;
    if remaining == 0 {
      NothingAnswers(b, at, kind, seen, room);
    } else if ExpectsKey(kind, remaining) {
      if Stops(b, Place(at, true)).Some? {
        KeyAnswers(b, at, remaining, seen, room);
      } else {
        OwedKeyStep(b, at, remaining, seen, room, false);
        var (head, end) := DecodeHead(b, at).value;
        IntegerHead(b, at);
        OwedAnswers(b, end, kind, remaining - 1, seen + {KeyOf(head).value}, room);
        BothAnswer(b, {Place(at, true)}, OwedPlaces(b, end, kind, remaining - 1, room),
                   Owed(b, at, kind, remaining, seen, room, false));
      }
    } else {
      ItemAnswers(b, at, room);
      OwedItemStep(b, at, kind, remaining, seen, room, false);
      if Item(b, at, room, false).Success? {
        var end := Item(b, at, room, false).value.end;
        OwedAnswers(b, end, kind, remaining - 1, seen, room);
        ThenAnswers(b, ItemPlaces(b, at, room), OwedPlaces(b, end, kind, remaining - 1, room),
                    Item(b, at, room, false).value, Owed(b, end, kind, remaining - 1, seen, room, false));
      } else {
        assert ItemPlaces(b, at, room) + {} == ItemPlaces(b, at, room);
      }
    }
  }

  lemma NothingAnswers(b: seq<byte>, at: nat, kind: Nesting, seen: set<KeyRank>, room: nat)
    requires at <= |b|
    ensures Answers(b, OwedPlaces(b, at, kind, 0, room), Owed(b, at, kind, 0, seen, room, false))
  {}

  lemma ThenAnswers(b: seq<byte>, p: set<Place>, q: set<Place>, item: Walked, rest: Result<Walked, CborError>)
    requires forall x :: x in p + q ==> x.at <= |b|
    requires Answers(b, p, Success(item)) && Answers(b, q, rest)
    ensures Answers(b, p + q, AfterItem(item, rest))
  {
    hide Stops;
    BothAnswer(b, p, q, rest);
  }

  // ---------------------------------------------------------------------------
  // With repeated keys refused.

  /** Refusing repeated keys changes an answer only to that refusal. */
  lemma {:induction false} ItemChecked(b: seq<byte>, at: nat, room: nat)
    requires at <= |b|
    ensures Item(b, at, room, true) == Item(b, at, room, false) || Item(b, at, room, true) == Failure(RepeatedKey)
    decreases |b| - at, 0, 0
  {
    hide DecodeHead;
    if DecodeHead(b, at).Success? {
      var (head, end) := DecodeHead(b, at).value;
      if Owes(head).Some? && room > 0 {
        OwedChecked(b, end, Owes(head).value.0, Owes(head).value.1, {}, {}, room - 1);
      }
    }
  }

  lemma {:induction false} OwedChecked(b: seq<byte>, at: nat, kind: Nesting, remaining: nat, seen: set<KeyRank>,
                                       other: set<KeyRank>, room: nat)
    requires at <= |b|
    ensures Owed(b, at, kind, remaining, seen, room, true) == Owed(b, at, kind, remaining, other, room, false)
            || Owed(b, at, kind, remaining, seen, room, true) == Failure(RepeatedKey)
    decreases |b| - at, 1, remaining
  {
    hide DecodeHead, Item;
    if remaining == 0 {
    } else if ExpectsKey(kind, remaining) {
      if DecodeHead(b, at).Success? && KeyOf(DecodeHead(b, at).value.0).Success? {
        var (head, end) := DecodeHead(b, at).value;
        var key := KeyOf(head).value;
        OwedChecked(b, end, kind, remaining - 1, seen + {key}, other + {key}, room);
      }
    } else {
      ItemChecked(b, at, room);
      if Item(b, at, room, true).Success? {
        OwedChecked(b, Item(b, at, room, true).value.end, kind, remaining - 1, seen, other, room);
      }
    }
  }

  // ---------------------------------------------------------------------------
  // What is repeated.

  /** A key as its bytes spell it: its sign, and its argument however many bytes that takes. */
  function KeyAt(b: seq<byte>, at: nat): KeyRank
    requires at < |b| && Argument(b, at + 1, b[at] % 32).Success?
  {
    KeyRank(b[at] >= 0x20, Argument(b, at + 1, b[at] % 32).value.0)
  }

  /** The keys a map still has to come, in order. */
  function KeysAhead(b: seq<byte>, at: nat, remaining: nat, room: nat): seq<KeyRank>
    requires at <= |b|
    decreases remaining
  {
    if remaining == 0 then []
    else if remaining % 2 == 0 then
      if at == |b| || Argument(b, at + 1, b[at] % 32).Failure? then []
      else [KeyAt(b, at)] + KeysAhead(b, Argument(b, at + 1, b[at] % 32).value.1, remaining - 1, room)
    else if Item(b, at, room, false).Failure? then []
    else KeysAhead(b, Item(b, at, room, false).value.end, remaining - 1, room)
  }

  /** Where the items a container still owes begin, its keys aside. */
  function ItemsAhead(b: seq<byte>, at: nat, kind: Nesting, remaining: nat, room: nat): (items: set<nat>)
    requires at <= |b|
    ensures forall c :: c in items ==> c <= |b|
    decreases remaining
  {
    if remaining == 0 then {}
    else if kind == InMap && remaining % 2 == 0 then
      if DecodeHead(b, at).Failure? then {}
      else ItemsAhead(b, DecodeHead(b, at).value.1, kind, remaining - 1, room)
    else
      {at} + if Item(b, at, room, false).Failure? then {}
             else ItemsAhead(b, Item(b, at, room, false).value.end, kind, remaining - 1, room)
  }

  predicate AllDifferent(keys: seq<KeyRank>) { forall i, j :: 0 <= i < j < |keys| ==> keys[i] != keys[j] }

  lemma OneMoreDifferent(key: KeyRank, keys: seq<KeyRank>, seen: set<KeyRank>)
    ensures AllDifferent([key] + keys) && (forall k :: k in [key] + keys ==> k !in seen) <==>
            key !in seen && AllDifferent(keys) && forall k :: k in keys ==> k !in seen + {key}
  {
    var all := [key] + keys;
    assert all[0] == key && forall i :: 0 <= i < |keys| ==> all[i + 1] == keys[i];
    assert forall k :: k in all <==> k == key || k in keys;
    if AllDifferent(all) {
      forall i, j | 0 <= i < j < |keys| ensures keys[i] != keys[j] { assert all[i + 1] != all[j + 1]; }
      forall k | k in keys ensures k != key {
        var j :| 0 <= j < |keys| && keys[j] == k;
        assert all[0] != all[j + 1];
      }
    }
    if AllDifferent(keys) && key !in keys {
      forall i, j | 0 <= i < j < |all| ensures all[i] != all[j] {
        assert all[j] == keys[j - 1] && all[j] in keys;
        if i > 0 { assert all[i] == keys[i - 1]; }
      }
    }
  }

  lemma KeyBytes(b: seq<byte>, at: nat)
    requires at < |b| && DecodeHead(b, at).Success? && KeyOf(DecodeHead(b, at).value.0).Success?
    ensures Argument(b, at + 1, b[at] % 32).Success?
    ensures KeyOf(DecodeHead(b, at).value.0).value == KeyAt(b, at)
    ensures DecodeHead(b, at).value.1 == Argument(b, at + 1, b[at] % 32).value.1
  {
    hide Utf8, Argument, Take;
  }

  /**
   What is well formed passes the repeat check exactly when every item inside passes
   it and a map's keys, by sign and argument, are all different.
   */
  lemma {:induction false} RepeatsExactly(b: seq<byte>, at: nat, kind: Nesting, remaining: nat, seen: set<KeyRank>,
                                          other: set<KeyRank>, room: nat)
    requires at <= |b| && Owed(b, at, kind, remaining, other, room, false).Success?
    ensures Owed(b, at, kind, remaining, seen, room, true).Success? <==>
            && (forall c :: c in ItemsAhead(b, at, kind, remaining, room) ==> Item(b, c, room, true).Success?)
            && (kind == InMap ==>
                  && AllDifferent(KeysAhead(b, at, remaining, room))
                  && forall k :: k in KeysAhead(b, at, remaining, room) ==> k !in seen)
    decreases remaining
  {
    hide DecodeHead, Item, Owed, AllDifferent;
    if remaining == 0 {
      OwedNothing(b, at, kind, other, room, false);
      OwedNothing(b, at, kind, seen, room, true);
      NothingDiffers();
    } else if ExpectsKey(kind, remaining) {
      OwedKeyStep(b, at, remaining, other, room, false);
      OwedKeyStep(b, at, remaining, seen, room, true);
      EndIsNoHead(b);
      var (head, end) := DecodeHead(b, at).value;
      var key := KeyOf(head).value;
      KeyBytes(b, at);
      RepeatsExactly(b, end, kind, remaining - 1, seen + {key}, other + {key}, room);
      var keys := KeysAhead(b, end, remaining - 1, room);
      OneMoreDifferent(key, keys, seen);
      assert KeysAhead(b, at, remaining, room) == [key] + keys;
      assert ItemsAhead(b, at, kind, remaining, room) == ItemsAhead(b, end, kind, remaining - 1, room);
      assert key in [key] + keys;
    } else {
      OwedItemStep(b, at, kind, remaining, other, room, false);
      OwedItemStep(b, at, kind, remaining, seen, room, true);
      ItemChecked(b, at, room);
      var end := Item(b, at, room, false).value.end;
      RepeatsExactly(b, end, kind, remaining - 1, seen, other, room);
      assert kind == InMap ==> KeysAhead(b, at, remaining, room) == KeysAhead(b, end, remaining - 1, room);
      assert ItemsAhead(b, at, kind, remaining, room) == {at} + ItemsAhead(b, end, kind, remaining - 1, room);
    }
  }

  lemma NothingDiffers()
    ensures AllDifferent([])
  {}

  lemma EndIsNoHead(b: seq<byte>)
    ensures DecodeHead(b, |b|).Failure?
  {}

  // ---------------------------------------------------------------------------
  // Skipping.

  /** Every head a skip comes to, from wherever the reader stands. */
  function SkipPlaces(b: seq<byte>, s: ReaderState): (places: set<Place>)
    requires Within(b, s)
    ensures forall p :: p in places ==> p.at <= |b|
  {
    if AtKey(Settle(s.frames)) then {Place(s.next, true)} else ItemPlaces(b, s.next, MAX_DEPTH - |Settle(s.frames)|)
  }

  /** A head the format allows where it stands: no forbidden first byte, and below 0x40 for a key. */
  predicate Allowed(b: seq<byte>, p: Place) {
    p.at < |b| && Forbidden(b[p.at]).None? && (p.key ==> b[p.at] < 0x40)
  }

  lemma StoppedOrAllowed(b: seq<byte>, p: Place)
    requires p.at <= |b| && Stops(b, p).None?
    ensures Allowed(b, p)
  {
    hide Forbidden;
    if p.at == |b| { EndStops(b, p); } else { FirstByte(b, p.at); }
  }

  lemma EndStops(b: seq<byte>, p: Place)
    requires p.at == |b|
    ensures Stops(b, p) == Some(EndOfInput)
  {}

  /**
   An item that is read, or skipped, holds no first byte the format forbids, at any
   level, and no key in any map inside it that is not an integer.
   */
  lemma ItemAllowed(b: seq<byte>, at: nat, room: nat, dups: bool)
    requires at <= |b| && Item(b, at, room, dups).Success?
    ensures forall p :: p in ItemPlaces(b, at, room) ==> Allowed(b, p)
  {
    hide Item, Stops, Allowed;
    ItemAnswers(b, at, room);
    ItemChecked(b, at, room);
    forall p | p in ItemPlaces(b, at, room) ensures Allowed(b, p) { StoppedOrAllowed(b, p); }
  }

  lemma SkipAllowed(b: seq<byte>, s: ReaderState)
    requires Within(b, s) && SkipItem(b, s, true).Success?
    ensures forall p :: p in SkipPlaces(b, s) ==> Allowed(b, p)
  {
    hide Item, ItemPlaces, DecodeHead, Allowed;
    if AtKey(Settle(s.frames)) {
      EndStops(b, Place(|b|, true));
      IntegerHead(b, s.next);
      StoppedOrAllowed(b, Place(s.next, true));
    } else {
      ItemAllowed(b, s.next, MAX_DEPTH - |Settle(s.frames)|, true);
    }
  }

  /** Why a head that is not allowed is refused: by its first byte, or for not being an integer where a key is due. */
  lemma RefusedAs(b: seq<byte>, p: Place)
    requires p.at < |b|
    ensures Forbidden(b[p.at]).Some? ==> Stops(b, p) == Forbidden(b[p.at])
    ensures DecodeHead(b, p.at).Success? && p.key && b[p.at] >= 0x40 ==> Stops(b, p) == Some(KeyNotInteger)
  {
    hide Forbidden;
    FirstByte(b, p.at);
  }

  /** A skip that comes to such a head is refused with what is wrong with it, if no repeated key is found first. */
  lemma SkipRefuses(b: seq<byte>, s: ReaderState, p: Place)
    requires Within(b, s) && p in SkipPlaces(b, s) && Stops(b, p).Some?
    ensures SkipItem(b, s, true) in {Failure(Stops(b, p).value), Failure(RepeatedKey)}
  {
    hide Item, ItemPlaces, DecodeHead;
    var frames := Settle(s.frames);
    if AtKey(frames) {
      if DecodeHead(b, s.next).Success? { IntegerHead(b, s.next); }
    } else {
      ItemAnswers(b, s.next, MAX_DEPTH - |frames|);
      ItemChecked(b, s.next, MAX_DEPTH - |frames|);
    }
  }

  /** And a skip is refused for nothing else: a head it came to, the nesting, or a repeated key. */
  lemma SkipRefusedFor(b: seq<byte>, s: ReaderState)
    requires Within(b, s) && SkipItem(b, s, true).Failure?
    ensures var why := SkipItem(b, s, true).error;
            why == RepeatedKey || why == DepthExceeded || StoppedBy(b, SkipPlaces(b, s), why)
  {
    hide Item, ItemPlaces, DecodeHead;
    var frames := Settle(s.frames);
    if AtKey(frames) {
      assert Place(s.next, true) in SkipPlaces(b, s);
      if DecodeHead(b, s.next).Success? { IntegerHead(b, s.next); }
    } else {
      ItemAnswers(b, s.next, MAX_DEPTH - |frames|);
      ItemChecked(b, s.next, MAX_DEPTH - |frames|);
    }
  }
}
