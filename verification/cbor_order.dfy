/**
 The order keys are kept in: comparing ranks is comparing the bytes of the keys'
 deterministic encodings (section 4.2.1 of RFC 8949).
 */
module CborOrder {
  import opened Bytes
  import opened CborHeads
  import opened CborGrammar

  /** Bytewise lexicographic order, a proper prefix first. */
  predicate Precedes(a: seq<byte>, b: seq<byte>) {
    b != [] && (a == [] || a[0] < b[0] || (a[0] == b[0] && Precedes(a[1..], b[1..])))
  }

  function KeyBytes(key: KeyRank): seq<byte> {
    HeadBytes(if key.negative then NegativeInt else UnsignedInt, key.arg)
  }

  lemma {:induction false} PrecedesByLast(p: seq<byte>, q: seq<byte>, x: byte, y: byte)
    requires |p| == |q| && (Precedes(p, q) || (p == q && x < y))
    ensures Precedes(p + [x], q + [y])
  {
    if p != [] {
      assert (p + [x])[1..] == p[1..] + [x] && (q + [y])[1..] == q[1..] + [y];
      if p[0] == q[0] { PrecedesByLast(p[1..], q[1..], x, y); }
    }
  }

  lemma {:induction false} SmallerPrecedes(x: nat, y: nat, n: nat)
    requires x < y < Pow256(n)
    ensures Precedes(BigEndian(x, n), BigEndian(y, n))
  {
    var p, q := BigEndian(x / 256, n - 1), BigEndian(y / 256, n - 1);
    if x / 256 < y / 256 { SmallerPrecedes(x / 256, y / 256, n - 1); }
    PrecedesByLast(p, q, x % 256, y % 256);
  }

  lemma {:induction false} PrecedesNotBoth(a: seq<byte>, b: seq<byte>)
    requires Precedes(a, b)
    ensures !Precedes(b, a) && a != b
    decreases |b|
  {
    if a != [] && a[0] == b[0] { PrecedesNotBoth(a[1..], b[1..]); }
  }

  lemma HigherRankPrecedes(a: KeyRank, b: KeyRank)
    requires AtMost(a, b) && a != b
    ensures Precedes(KeyBytes(a), KeyBytes(b))
  {
    var ka, kb := KeyBytes(a), KeyBytes(b);
    var n := Width(b.arg);
    if a.negative == b.negative && Width(a.arg) == n && n > 0 {
      Pow256Values();
      SmallerPrecedes(a.arg, b.arg, n);
      assert ka[1..] == BigEndian(a.arg, n) && kb[1..] == BigEndian(b.arg, n);
      assert ka[0] == kb[0];
    } else {
      assert ka[0] < kb[0];
    }
  }

  /** Rank order is byte order, and keys of different rank are different bytes. */
  lemma RankIsByteOrder(a: KeyRank, b: KeyRank)
    ensures AtMost(a, b) <==> a == b || Precedes(KeyBytes(a), KeyBytes(b))
    ensures KeyBytes(a) == KeyBytes(b) ==> a == b
  {
    if a != b {
      if AtMost(a, b) {
        HigherRankPrecedes(a, b);
        PrecedesNotBoth(KeyBytes(a), KeyBytes(b));
      } else {
        HigherRankPrecedes(b, a);
        PrecedesNotBoth(KeyBytes(b), KeyBytes(a));
      }
    }
  }
}
