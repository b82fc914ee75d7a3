/** A writer driven call by call, as every encoder drives it: stopping at the first refusal. */
module CborDriving {
  import opened Wrappers
  import opened CborHeads
  import opened CborWriters
  import opened CborTrees

  /** `calls` asked of a writer in turn, and the writer after them, unless one is refused. */
  twostate predicate Ran(cbor: CborWriter, new r: Result<(), CborError>, calls: seq<Call>)
    requires old(cbor.Valid())
    reads cbor, cbor.dst
  {
    && cbor.Valid()
    && match WriteThrough(old(cbor.State()), cbor.dst.Length, calls)
       case Failure(why) => r == Failure(why)
       case Success(after) => r.Success? && cbor.State() == after
  }

  lemma RanOne(s: WriterState, capacity: nat, call: Call)
    ensures WriteThrough(s, capacity, [call]) ==
            match Write(s, capacity, call) {
              case (Failure(why), _) => Failure(why)
              case (Success(_), after) => Success(after)
            }
  {
    hide Write;
    assert [call][1..] == [];
  }

  /** A key and the scalar under it. */
  method PutPair(cbor: CborWriter, key: i64, call: Call) returns (r: Result<(), CborError>)
    requires cbor.Valid() && LeafCall(call) && (call.PutU64? || call.PutBool? || call.PutBytes?)
    modifies cbor, cbor.dst
    ensures Ran(cbor, r, [PutKey(key), call])
  {
    hide Write, LeafCall;
    ghost var start, capacity := cbor.State(), cbor.dst.Length;
    assert [PutKey(key), call] == [PutKey(key)] + [call];
    ThroughBoth(start, capacity, [PutKey(key)], [call]);
    RanOne(start, capacity, PutKey(key));
    r := cbor.Key(key);
    if r.Failure? {
      return;
    }
    ghost var keyed := cbor.State();
    RanOne(keyed, capacity, call);
    if call.PutU64? {
      r := cbor.U64(call.number);
    } else if call.PutBool? {
      r := cbor.Bool(call.flag);
    } else {
      r := cbor.Bytes(call.raw);
    }
    assert (r, cbor.State()) == Write(keyed, capacity, call);
  }
}
