/**
 Consistent overhead byte stuffing (Cheshire & Baker, 1999): a body without
 zeros, so that a zero can end a frame and mean nothing else.
 */
module Cobs {
  import opened Bytes
  import opened Wrappers

  const MAX_CODE: byte := 0xFF
  const MAX_BLOCK_DATA: nat := 254

  datatype CobsError = DestinationTooSmall | EmptyFrame | ZeroCodeByte | ZeroInBlock | BlockRunsPastEnd

  /** The longest encoding `payload` bytes can have, as the caller sizes a destination. */
  function MaxEncodedLen(payload: nat): nat {
    payload + payload / MAX_BLOCK_DATA + 1
  }

  predicate NoZero(s: seq<byte>) { forall i :: 0 <= i < |s| ==> s[i] != 0 }

  // ---------------------------------------------------------------------------
  // Specification.

  /** The encoding of `rest`, when the open block already holds `run`. */
  function EncodeFrom(run: seq<byte>, rest: seq<byte>): (e: seq<byte>)
    requires |run| <= MAX_BLOCK_DATA
    ensures |e| > |run|
    decreases |rest|, |run|
  {
    if rest == [] then [|run| + 1] + run
    else if |run| == MAX_BLOCK_DATA then [MAX_CODE] + run + EncodeFrom([], rest)
    else if rest[0] == 0 then [|run| + 1] + run + EncodeFrom([], rest[1..])
    else EncodeFrom(run + [rest[0]], rest[1..])
  }

  function Encoded(src: seq<byte>): (e: seq<byte>) { EncodeFrom([], src) }

  /** Whether the encoding ends in a full block, with no byte after it to open another. */
  predicate EndsFull(run: seq<byte>, rest: seq<byte>)
    requires |run| <= MAX_BLOCK_DATA
    decreases |rest|, |run|
  {
    if rest == [] then |run| == MAX_BLOCK_DATA
    else if |run| == MAX_BLOCK_DATA then EndsFull([], rest)
    else if rest[0] == 0 then EndsFull([], rest[1..])
    else EndsFull(run + [rest[0]], rest[1..])
  }

  /** Why copying a block into `room` free bytes is refused, the first byte that is deciding. */
  function BlockRefusal(block: seq<byte>, room: nat): Option<CobsError> {
    if block == [] then None
    else if block[0] == 0 then Some(ZeroInBlock)
    else if room == 0 then Some(DestinationTooSmall)
    else BlockRefusal(block[1..], room - 1)
  }

  function Prepend(head: seq<byte>, r: Result<seq<byte>, CobsError>): Result<seq<byte>, CobsError> {
    if r.Success? then Success(head + r.value) else r
  }

  function DecodeBlocks(src: seq<byte>, room: nat): (r: Result<seq<byte>, CobsError>)
    ensures r.Success? ==> |r.value| <= room
    decreases |src|
  {
    if src == [] then Success([])
    else if src[0] == 0 then Failure(ZeroCodeByte)
    else if |src| < src[0] then Failure(BlockRunsPastEnd)
    else
      var block, rest := src[1..src[0]], src[src[0]..];
      BlockRoom(block, room);
      match BlockRefusal(block, room)
      case Some(why) => Failure(why)
      case None =>
        var left := room - |block|;
        if src[0] == MAX_CODE || rest == [] then
          Prepend(block, DecodeBlocks(rest, left))
        else if left == 0 then Failure(DestinationTooSmall)
        else
          Prepend(block + [0], DecodeBlocks(rest, left - 1))
  }

  function Decoded(src: seq<byte>, room: nat): (r: Result<seq<byte>, CobsError>)
    ensures r.Success? ==> |r.value| <= room
  {
    if src == [] then Failure(EmptyFrame) else DecodeBlocks(src, room)
  }

  lemma {:induction false} BlockRoom(block: seq<byte>, room: nat)
    ensures BlockRefusal(block, room).None? <==> NoZero(block) && |block| <= room
  {
    if block != [] && block[0] != 0 && room > 0 {
      BlockRoom(block[1..], room - 1);
      assert NoZero(block) <==> NoZero(block[1..]) by {
        assert forall i :: 0 < i < |block| ==> block[i] == block[1..][i - 1];
      }
    }
  }

  // ---------------------------------------------------------------------------
  // What the encoding is: its bound, its bytes, and its inverse.

  /** How many full blocks are closed because another byte follows them. */
  function FullBlocksClosed(run: seq<byte>, rest: seq<byte>): nat
    requires |run| <= MAX_BLOCK_DATA
    decreases |rest|, |run|
  {
    if rest == [] then 0
    else if |run| == MAX_BLOCK_DATA then 1 + FullBlocksClosed([], rest)
    else if rest[0] == 0 then FullBlocksClosed([], rest[1..])
    else FullBlocksClosed(run + [rest[0]], rest[1..])
  }

  lemma {:induction false} EncodedLength(run: seq<byte>, rest: seq<byte>)
    requires |run| <= MAX_BLOCK_DATA
    ensures |EncodeFrom(run, rest)| == 1 + |run| + |rest| + FullBlocksClosed(run, rest)
    ensures FullBlocksClosed(run, rest) <= (|run| + |rest|) / MAX_BLOCK_DATA
    ensures |EncodeFrom(run, rest)| <= MaxEncodedLen(|run| + |rest|)
    decreases |rest|, |run|
  {
    if rest == [] {
    } else if |run| == MAX_BLOCK_DATA {
      EncodedLength([], rest);
    } else if rest[0] == 0 {
      EncodedLength([], rest[1..]);
    } else {
      EncodedLength(run + [rest[0]], rest[1..]);
    }
  }

  lemma {:induction false} EncodedNoZero(run: seq<byte>, rest: seq<byte>)
    requires |run| <= MAX_BLOCK_DATA && NoZero(run)
    ensures NoZero(EncodeFrom(run, rest))
    decreases |rest|, |run|
  {
    if rest == [] {
    } else if |run| == MAX_BLOCK_DATA {
      EncodedNoZero([], rest);
    } else if rest[0] == 0 {
      EncodedNoZero([], rest[1..]);
    } else {
      EncodedNoZero(run + [rest[0]], rest[1..]);
    }
  }

  /** One block in front of an encoding decodes to its data in front of the decoded rest. */
  lemma DecodeBlockThen(block: seq<byte>, rest: seq<byte>, room: nat)
    requires |block| <= MAX_BLOCK_DATA && NoZero(block) && rest != []
    requires |block| < room || |block| == room == MAX_BLOCK_DATA
    ensures DecodeBlocks([|block| + 1] + block + rest, room) ==
            if |block| == MAX_BLOCK_DATA then Prepend(block, DecodeBlocks(rest, room - |block|))
            else Prepend(block + [0], DecodeBlocks(rest, room - |block| - 1))
  {
    var src := [|block| + 1] + block + rest;
    assert src[1..src[0]] == block && src[src[0]..] == rest;
    BlockRoom(block, room);
  }

  lemma DecodeLastBlock(block: seq<byte>, room: nat)
    requires |block| <= MAX_BLOCK_DATA && NoZero(block) && |block| <= room
    ensures DecodeBlocks([|block| + 1] + block, room) == Success(block)
  {
    var src := [|block| + 1] + block;
    assert src[1..src[0]] == block && src[src[0]..] == [];
    BlockRoom(block, room);
    assert block + [] == block;
  }

  lemma ThenDecoded(run: seq<byte>, e: seq<byte>, d: seq<byte>, room: nat)
    requires |run| <= MAX_BLOCK_DATA && NoZero(run) && e != []
    requires var left := room - |run| - (if |run| < MAX_BLOCK_DATA then 1 else 0);
             left >= 0 && DecodeBlocks(e, left) == Success([] + d)
    ensures DecodeBlocks([|run| + 1] + run + e, room) ==
            Success(if |run| < MAX_BLOCK_DATA then run + [0] + d else run + d)
  {
    assert [] + d == d;
    DecodeBlockThen(run, e, room);
  }

  /** Decoding undoes encoding, in a destination of exactly the payload's length or more. */
  lemma {:induction false} DecodeEncodeFrom(run: seq<byte>, rest: seq<byte>, room: nat)
    requires |run| <= MAX_BLOCK_DATA && NoZero(run) && |run| + |rest| <= room
    ensures DecodeBlocks(EncodeFrom(run, rest), room) == Success(run + rest)
    decreases |rest|, |run|
  {
    hide DecodeBlocks;
    if rest == [] {
      DecodeLastBlock(run, room);
      assert run + [] == run;
    } else if |run| == MAX_BLOCK_DATA {
      DecodeEncodeFrom([], rest, room - |run|);
      ThenDecoded(run, EncodeFrom([], rest), rest, room);
    } else if rest[0] == 0 {
      DecodeEncodeFrom([], rest[1..], room - |run| - 1);
      ThenDecoded(run, EncodeFrom([], rest[1..]), rest[1..], room);
      assert run + [0] + rest[1..] == run + rest;
    } else {
      DecodeEncodeFrom(run + [rest[0]], rest[1..], room);
      assert run + [rest[0]] + rest[1..] == run + rest;
    }
  }

  lemma RoundTrip(src: seq<byte>, room: nat)
    requires |src| <= room
    ensures NoZero(Encoded(src)) && |Encoded(src)| <= MaxEncodedLen(|src|)
    ensures |Encoded(src)| == 1 + |src| + FullBlocksClosed([], src)
    ensures Decoded(Encoded(src), room) == Success(src)
  {
    EncodedLength([], src);
    EncodedNoZero([], src);
    DecodeEncodeFrom([], src, room);
    assert [] + src == src;
  }

  /** Bytes that are not zero join the open block for as long as it has room. */
  lemma {:induction false} Absorb(run: seq<byte>, more: seq<byte>, rest: seq<byte>)
    requires |run| + |more| <= MAX_BLOCK_DATA && NoZero(more)
    ensures EncodeFrom(run, more + rest) == EncodeFrom(run + more, rest)
    ensures EndsFull(run, more + rest) == EndsFull(run + more, rest)
    decreases |more|
  {
    if more == [] {
      assert more + rest == rest && run + more == run;
    } else {
      assert (more + rest)[1..] == more[1..] + rest;
      assert run + [more[0]] + more[1..] == run + more;
      Absorb(run + [more[0]], more[1..], rest);
    }
  }

  /** The only other form an encoding may take: a full last block closed by an empty one. */
  predicate Overclosed(e: seq<byte>, d: seq<byte>) {
    EndsFull([], d) && e == Encoded(d) + [1]
  }

  predicate Canonical(e: seq<byte>, d: seq<byte>) {
    e == Encoded(d) || Overclosed(e, d)
  }

  lemma LastBlockCanonical(block: seq<byte>)
    requires |block| <= MAX_BLOCK_DATA && NoZero(block)
    ensures Canonical([|block| + 1] + block, block)
  {
    Absorb([], block, []);
    assert block + [] == block && [] + block == block;
  }

  lemma FullBlockCanonical(block: seq<byte>, rest: seq<byte>, d: seq<byte>)
    requires |block| == MAX_BLOCK_DATA && NoZero(block) && Canonical(rest, d)
    ensures Canonical([MAX_CODE] + block + rest, block + d)
  {
    Absorb([], block, d);
    assert [] + block == block;
    if d == [] {
      assert !EndsFull([], []) && rest == [1];
    } else {
      assert EndsFull(block, d) == EndsFull([], d);
      assert EncodeFrom(block, d) == [MAX_CODE] + block + Encoded(d);
    }
  }

  lemma ShortBlockCanonical(block: seq<byte>, rest: seq<byte>, d: seq<byte>)
    requires |block| < MAX_BLOCK_DATA && NoZero(block) && Canonical(rest, d)
    ensures Canonical([|block| + 1] + block + rest, block + [0] + d)
  {
    Absorb([], block, [0] + d);
    assert block + [0] + d == block + ([0] + d) && [] + block == block;
    assert ([0] + d)[1..] == d;
  }

  /** A decoded body is one block without zeros in front of a decoded rest. */
  lemma FirstBlock(e: seq<byte>, room: nat) returns (block: seq<byte>, rest: seq<byte>, d: seq<byte>)
    requires e != [] && DecodeBlocks(e, room).Success?
    ensures |block| <= MAX_BLOCK_DATA && NoZero(block) && e == [|block| + 1] + block + rest
    ensures rest == [] ==> DecodeBlocks(e, room).value == block
    ensures rest != [] ==>
              (exists left :: DecodeBlocks(rest, left) == Success(d)) &&
              DecodeBlocks(e, room).value == if |block| == MAX_BLOCK_DATA then block + d else block + [0] + d
  {
    block, rest := e[1..e[0]], e[e[0]..];
    BlockRoom(block, room);
    var left := room - |block| - (if e[0] == MAX_CODE || rest == [] then 0 else 1);
    d := DecodeBlocks(rest, left).value;
    if rest == [] { assert block + [] == block; }
  }

  lemma {:induction false} DecodedIsCanonical(e: seq<byte>, room: nat)
    requires e != [] && DecodeBlocks(e, room).Success?
    ensures var d := DecodeBlocks(e, room).value; NoZero(e) && |d| < |e| && Canonical(e, d)
    decreases |e|
  {
    var block, rest, d := FirstBlock(e, room);
    if rest == [] {
      LastBlockCanonical(block);
      assert e == [|block| + 1] + block;
    } else {
      var left :| DecodeBlocks(rest, left) == Success(d);
      DecodedIsCanonical(rest, left);
      if |block| == MAX_BLOCK_DATA {
        FullBlockCanonical(block, rest, d);
      } else {
        ShortBlockCanonical(block, rest, d);
      }
    }
  }

  /** Closing a full last block with an empty one changes nothing in what is decoded. */
  lemma {:induction false} DecodeOverclosed(run: seq<byte>, rest: seq<byte>, room: nat)
    requires |run| <= MAX_BLOCK_DATA && NoZero(run) && |run| + |rest| <= room && EndsFull(run, rest)
    ensures DecodeBlocks(EncodeFrom(run, rest) + [1], room) == Success(run + rest)
    decreases |rest|, |run|
  {
    hide DecodeBlocks;
    if rest == [] {
      OverclosedBlock(run, room);
      assert run + [] == run;
    } else if |run| == MAX_BLOCK_DATA {
      DecodeOverclosed([], rest, room - |run|);
      assert EncodeFrom(run, rest) + [1] == [|run| + 1] + run + (EncodeFrom([], rest) + [1]);
      ThenDecoded(run, EncodeFrom([], rest) + [1], rest, room);
    } else if rest[0] == 0 {
      DecodeOverclosed([], rest[1..], room - |run| - 1);
      assert EncodeFrom(run, rest) + [1] == [|run| + 1] + run + (EncodeFrom([], rest[1..]) + [1]);
      ThenDecoded(run, EncodeFrom([], rest[1..]) + [1], rest[1..], room);
      assert run + [0] + rest[1..] == run + rest;
    } else {
      DecodeOverclosed(run + [rest[0]], rest[1..], room);
      assert run + [rest[0]] + rest[1..] == run + rest;
    }
  }

  lemma OverclosedBlock(run: seq<byte>, room: nat)
    requires |run| == MAX_BLOCK_DATA && NoZero(run) && |run| <= room
    ensures DecodeBlocks([|run| + 1] + run + [1], room) == Success(run)
  {
    DecodeLastBlock([], room - |run|);
    assert [1] + [] == [1];
    DecodeBlockThen(run, [1], room);
    assert run + [] == run;
  }

  /**
   Exactly what decodes to `d`, given room: the encoding of `d`, and, when that
   ends in a full block, the encoding followed by one empty block.
   */
  lemma DecodesTo(e: seq<byte>, d: seq<byte>, room: nat)
    requires |d| <= room
    ensures Decoded(e, room) == Success(d) <==> Canonical(e, d)
  {
    if Decoded(e, room) == Success(d) { DecodedIsCanonical(e, room); }
    if e == Encoded(d) { RoundTrip(d, room); }
    if Overclosed(e, d) {
      DecodeOverclosed([], d, room);
      assert [] + d == d;
    }
  }

  /** Nothing with a zero in it decodes, and what decodes is shorter than what it came from. */
  lemma DecodedShrinks(e: seq<byte>, room: nat)
    requires Decoded(e, room).Success?
    ensures NoZero(e) && |Decoded(e, room).value| < |e|
  {
    DecodedIsCanonical(e, room);
  }

  // ---------------------------------------------------------------------------
  // The implementation: in place, over a destination the caller owns.

  /** More input never shortens an encoding. */
  lemma {:induction false} EncodingGrows(run: seq<byte>, first: byte, rest: seq<byte>)
    requires |run| <= MAX_BLOCK_DATA
    ensures |EncodeFrom(run, [first])| <= |EncodeFrom(run, [first] + rest)|
    decreases if |run| == MAX_BLOCK_DATA then 1 else 0
  {
    assert ([first] + rest)[1..] == rest && [first][1..] == [];
    if |run| == MAX_BLOCK_DATA {
      EncodingGrows([], first, rest);
    }
  }

  /** Any byte pushed needs room beyond the open block. */
  lemma {:induction false} EncodingOpens(run: seq<byte>, b: byte)
    requires |run| <= MAX_BLOCK_DATA
    ensures |EncodeFrom(run, [b])| >= |run| + 2
  {
    if |run| == MAX_BLOCK_DATA {
      assert EncodeFrom(run, [b]) == [MAX_CODE] + run + EncodeFrom([], [b]);
    } else if b == 0 {
      assert EncodeFrom(run, [b]) == [|run| + 1] + run + EncodeFrom([], [b][1..]);
    } else {
      assert EncodeFrom(run, [b]) == EncodeFrom(run + [b], [b][1..]);
    }
  }

  /** What the next byte does to the open block. */
  lemma EncodeStep(run: seq<byte>, b: byte, rest: seq<byte>)
    requires |run| <= MAX_BLOCK_DATA
    ensures |run| == MAX_BLOCK_DATA ==>
              EncodeFrom(run, [b] + rest) == [MAX_CODE] + run + EncodeFrom([], [b] + rest)
    ensures |run| < MAX_BLOCK_DATA && b == 0 ==>
              EncodeFrom(run, [b] + rest) == [|run| + 1] + run + EncodeFrom([], rest)
    ensures |run| < MAX_BLOCK_DATA && b != 0 ==>
              EncodeFrom(run, [b] + rest) == EncodeFrom(run + [b], rest)
  {
    assert ([b] + rest)[1..] == rest;
  }

  /** The encoding so far, with the open block's data after the place its code will go. */
  class Encoder {
    const dst: array<byte>
    var codeAt: nat
    var next: nat
    var code: byte

    ghost predicate Valid()
      reads this, dst
    {
      codeAt < next <= dst.Length && code == next - codeAt && NoZero(dst[codeAt + 1..next])
    }

    ghost function Closed(): seq<byte>
      requires Valid()
      reads this, dst
    {
      dst[..codeAt]
    }

    ghost function Run(): (run: seq<byte>)
      requires Valid()
      reads this, dst
      ensures |run| <= MAX_BLOCK_DATA
    {
      dst[codeAt + 1..next]
    }

    /** What the destination will hold once `rest` has been pushed and the encoder finished. */
    ghost function Promise(rest: seq<byte>): seq<byte>
      requires Valid()
      reads this, dst
    {
      Closed() + EncodeFrom(Run(), rest)
    }

    constructor (dst: array<byte>)
      requires dst.Length > 0
      ensures Valid() && this.dst == dst && next == 1
      ensures forall rest :: Promise(rest) == Encoded(rest)
    {
      this.dst := dst;
      codeAt := 0;
      next := 1;
      code := 1;
      new;
      assert Run() == [] && Closed() == [];
      assert forall rest :: Promise(rest) == [] + EncodeFrom([], rest);
    }

    /** Takes one byte; `rest` is whatever the caller has still to push. */
    method Push(b: byte, ghost rest: seq<byte>) returns (r: Result<(), CobsError>)
      requires Valid()
      modifies this, dst
      ensures r.Failure? ==> r.error == DestinationTooSmall && old(|Promise([b])|) > dst.Length
      ensures r.Success? ==> Valid() && next >= old(next)
      ensures r.Success? ==> Promise(rest) == old(Promise([b] + rest))
      ensures r.Success? ==> forall i :: next <= i < dst.Length ==> dst[i] == old(dst[i])
    {
      hide EncodeFrom;
      ghost var closed, run := Closed(), Run();
      EncodingOpens(run, b);
      EncodeStep(run, b, rest);
      EncodeStep(run, b, []);
      assert [b] + [] == [b];
      if code == MAX_CODE {
        var full := Close();
        if full.Failure? {
          return full;
        }
        assert Promise([b] + rest) == old(Promise([b] + rest));
        assert Promise([b]) == old(Promise([b]));
        EncodingOpens([], b);
        EncodeStep([], b, rest);
        closed, run := Closed(), [];
      }
      if b == 0 {
        r := Close();
      } else {
        r := Put(b);
      }
    }

    method Put(b: byte) returns (r: Result<(), CobsError>)
      requires Valid() && b != 0 && code < MAX_CODE
      modifies this, dst
      ensures r.Failure? ==> r.error == DestinationTooSmall && next == old(next) == dst.Length
      ensures r.Success? ==> Valid() && next == old(next) + 1
      ensures r.Success? ==> Closed() == old(Closed()) && Run() == old(Run()) + [b]
      ensures r.Success? ==> forall i :: next <= i < dst.Length ==> dst[i] == old(dst[i])
    {
      if next >= dst.Length {
        return Failure(DestinationTooSmall);
      }
      dst[next] := b;
      next := next + 1;
      code := code + 1;
      return Success(());
    }

    method Close() returns (r: Result<(), CobsError>)
      requires Valid()
      modifies this, dst
      ensures r.Failure? ==> r.error == DestinationTooSmall && next == old(next) == dst.Length
      ensures r.Success? ==> Valid() && next == old(next) + 1 && code == 1
      ensures r.Success? ==> Closed() == old(Closed()) + [|old(Run())| + 1] + old(Run()) && Run() == []
      ensures r.Success? ==> forall i :: next <= i < dst.Length ==> dst[i] == old(dst[i])
    {
      dst[codeAt] := code;
      if next >= dst.Length {
        return Failure(DestinationTooSmall);
      }
      codeAt := next;
      next := next + 1;
      code := 1;
      return Success(());
    }

    method Finish() returns (n: nat)
      requires Valid()
      modifies dst
      ensures n == next <= dst.Length && dst[..n] == old(Promise([]))
      ensures forall i :: n <= i < dst.Length ==> dst[i] == old(dst[i])
    {
      dst[codeAt] := code;
      n := next;
    }
  }

  /** The specified encoding at the front of `dst`, or the refusal and `dst` as it was. */
  method Encode(src: seq<byte>, dst: array<byte>) returns (r: Result<nat, CobsError>)
    modifies dst
    ensures dst.Length < MaxEncodedLen(|src|) ==> r == Failure(DestinationTooSmall) && dst[..] == old(dst[..])
    ensures dst.Length >= MaxEncodedLen(|src|) ==> r == Success(|Encoded(src)|) && |Encoded(src)| <= dst.Length
    ensures r.Success? ==> dst[..r.value] == Encoded(src)
    ensures r.Success? ==> forall i :: r.value <= i < dst.Length ==> dst[i] == old(dst[i])
  {
    if dst.Length < MaxEncodedLen(|src|) {
      return Failure(DestinationTooSmall);
    }
    hide EncodeFrom;
    EncodedLength([], src);
    var encoder := new Encoder(dst);
    var at := 0;
    while at < |src|
      invariant at <= |src| && encoder.Valid() && encoder.dst == dst
      invariant encoder.Promise(src[at..]) == Encoded(src)
      invariant forall i :: encoder.next <= i < dst.Length ==> dst[i] == old(dst[i])
    {
      EncodingGrows(encoder.Run(), src[at], src[at + 1..]);
      assert src[at..] == [src[at]] + src[at + 1..];
      var pushed := encoder.Push(src[at], src[at + 1..]);
      assert pushed.Success?;
      at := at + 1;
    }
    assert src[at..] == [];
    var n := encoder.Finish();
    return Success(n);
  }

  lemma SliceOfSuffix(s: seq<byte>, from: nat, n: nat)
    requires 0 < n && from + n <= |s|
    ensures s[from..][1..n] == s[from + 1..from + n] && s[from..][n..] == s[from + n..]
  {}

  lemma PrependNothing(r: Result<seq<byte>, CobsError>)
    ensures Prepend([], r) == r
  {
    if r.Success? { assert [] + r.value == r.value; }
  }

  lemma PrependTwice(a: seq<byte>, b: seq<byte>, r: Result<seq<byte>, CobsError>)
    ensures Prepend(a, Prepend(b, r)) == Prepend(a + b, r)
  {
    if r.Success? { assert a + (b + r.value) == a + b + r.value; }
  }

  lemma DecodeEnd(room: nat)
    ensures DecodeBlocks([], room) == Success([])
  {}

  /** One turn of the decoder: a code byte, its block, and the zero it may imply. */
  lemma DecodeStep(src: seq<byte>, room: nat)
    requires src != []
    ensures src[0] == 0 ==> DecodeBlocks(src, room) == Failure(ZeroCodeByte)
    ensures 0 < src[0] && |src| < src[0] ==> DecodeBlocks(src, room) == Failure(BlockRunsPastEnd)
    ensures 0 < src[0] <= |src| ==>
              var block, rest := src[1..src[0]], src[src[0]..];
              match BlockRefusal(block, room)
              case Some(why) => DecodeBlocks(src, room) == Failure(why)
              case None =>
                && |block| <= room
                && var left := room - |block|;
                   DecodeBlocks(src, room) ==
                   if src[0] == MAX_CODE || rest == [] then Prepend(block, DecodeBlocks(rest, left))
                   else if left == 0 then Failure(DestinationTooSmall)
                   else Prepend(block + [0], DecodeBlocks(rest, left - 1))
  {
    if 0 < src[0] <= |src| { BlockRoom(src[1..src[0]], room); }
  }

  /** How much of the frame is used up, and how much of the payload is out. */
  class Decoder {
    const src: seq<byte>
    const dst: array<byte>
    var read: nat
    var written: nat

    ghost predicate Valid()
      reads this
    {
      read <= |src| && written <= dst.Length
    }

    constructor (src: seq<byte>, dst: array<byte>)
      ensures Valid() && this.src == src && this.dst == dst && read == 0 && written == 0
    {
      this.src := src;
      this.dst := dst;
      read := 0;
      written := 0;
    }

    method Put(b: byte) returns (r: Result<(), CobsError>)
      requires Valid()
      modifies this, dst
      ensures Valid() && read == old(read)
      ensures r == if old(written) < dst.Length then Success(()) else Failure(DestinationTooSmall)
      ensures r.Success? ==> written == old(written) + 1 && dst[..written] == old(dst[..written]) + [b]
      ensures r.Success? ==> forall i :: written <= i < dst.Length ==> dst[i] == old(dst[i])
    {
      if written >= dst.Length {
        return Failure(DestinationTooSmall);
      }
      dst[written] := b;
      written := written + 1;
      return Success(());
    }

    method CopyBlock(code: byte) returns (r: Result<(), CobsError>)
      requires Valid() && code != 0
      modifies this, dst
      ensures Valid()
      ensures if |src| - old(read) < code - 1 then r == Failure(BlockRunsPastEnd)
              else
                var block := src[old(read)..old(read) + code - 1];
                match BlockRefusal(block, dst.Length - old(written))
                case Some(why) => r == Failure(why)
                case None =>
                  && r == Success(())
                  && read == old(read) + |block| && written == old(written) + |block|
                  && dst[..written] == old(dst[..written]) + block
                  && forall i :: written <= i < dst.Length ==> dst[i] == old(dst[i])
    {
      var end := read + (code - 1);
      if end > |src| {
        return Failure(BlockRunsPastEnd);
      }
      var block := src[read..end];
      var at := 0;
      while at < |block|
        invariant at <= |block| && Valid() && read == old(read)
        invariant written == old(written) + at
        invariant BlockRefusal(block, dst.Length - old(written)) == BlockRefusal(block[at..], dst.Length - written)
        invariant dst[..written] == old(dst[..written]) + block[..at]
        invariant forall i :: written <= i < dst.Length ==> dst[i] == old(dst[i])
      {
        assert block[at..][0] == block[at] && block[at..][1..] == block[at + 1..];
        if block[at] == 0 {
          return Failure(ZeroInBlock);
        }
        var put := Put(block[at]);
        if put.Failure? {
          return put;
        }
        at := at + 1;
      }
      read := end;
      return Success(());
    }

    method Run() returns (r: Result<nat, CobsError>)
      requires Valid() && read == 0 && written == 0
      modifies this, dst
      ensures match DecodeBlocks(src, dst.Length) {
                case Failure(why) => r == Failure(why)
                case Success(d) => r == Success(|d|) && |d| <= dst.Length && dst[..|d|] == d
              }
      ensures r.Success? ==> forall i :: r.value <= i < dst.Length ==> dst[i] == old(dst[i])
    {
      hide DecodeBlocks;
      assert src[read..] == src && dst[..written] == [];
      PrependNothing(DecodeBlocks(src, dst.Length));
      while read < |src|
        invariant Valid()
        invariant DecodeBlocks(src, dst.Length)
               == Prepend(dst[..written], DecodeBlocks(src[read..], dst.Length - written))
        invariant forall i :: written <= i < dst.Length ==> dst[i] == old(dst[i])
        decreases |src| - read
      {
        ghost var rest, room := src[read..], dst.Length - written;
        DecodeStep(rest, room);
        var code := src[read];
        if code == 0 {
          return Failure(ZeroCodeByte);
        }
        ghost var done := dst[..written];
        if code <= |rest| { SliceOfSuffix(src, read, code); }
        read := read + 1;
        var copied := CopyBlock(code);
        if copied.Failure? {
          return Failure(copied.error);
        }
        PrependTwice(done, rest[1..code], DecodeBlocks(src[read..], dst.Length - written));
        if code != MAX_CODE && read < |src| {
          var put := Put(0);
          if put.Failure? {
            return Failure(put.error);
          }
          assert dst[..written] == done + (rest[1..code] + [0]);
          PrependTwice(done, rest[1..code] + [0], DecodeBlocks(src[read..], dst.Length - written));
        }
      }
      DecodeEnd(dst.Length - written);
      assert src[read..] == [];
      assert dst[..written] + [] == dst[..written];
      return Success(written);
    }
  }

  /** Decode one frame's body, or say why it is not one. */
  method Decode(src: seq<byte>, dst: array<byte>) returns (r: Result<nat, CobsError>)
    modifies dst
    ensures match Decoded(src, dst.Length) {
              case Failure(why) => r == Failure(why)
              case Success(d) => r == Success(|d|) && |d| <= dst.Length && dst[..|d|] == d
            }
    ensures r.Success? ==> forall i :: r.value <= i < dst.Length ==> dst[i] == old(dst[i])
  {
    if src == [] {
      return Failure(EmptyFrame);
    }
    var decoder := new Decoder(src, dst);
    r := decoder.Run();
  }
}
