/** Bits of the 64-bit words of a Bloom filter (src/native_joins.cpp:36-84) and of a vector's
    null bitmap (src/native_vectorized.cpp:92-167). */
module Words {
  predicate Meets(w: bv64, t: bv64) {
    w & t != 0
  }

  function Bit(k: bv6): bv64 {
    1 << k
  }

  predicate Has(w: bv64, k: bv6) {
    Meets(w, Bit(k))
  }

  function At(n: nat): bv6
    requires n < 64
  {
    n as bv6
  }

  predicate HasBit(w: bv64, n: nat)
    requires n < 64
  {
    Has(w, At(n))
  }

  function Set(w: bv64, k: bv6): (w': bv64)
    ensures forall i: bv6 :: Has(w', i) <==> i == k || Has(w, i)
  {
    SetsOne(w, k);
    w | Bit(k)
  }

  /** Sets one bit and no other. */
  function WithBit(w: bv64, n: nat): (w': bv64)
    requires n < 64
    ensures forall i: nat :: i < 64 ==> (HasBit(w', i) <==> i == n || HasBit(w, i))
  {
    Positions(n);
    Set(w, At(n))
  }

  lemma SetsOne(w: bv64, k: bv6)
    ensures forall i: bv6 :: Has(w | Bit(k), i) <==> i == k || Has(w, i)
  {
    forall i: bv6 ensures Has(w | Bit(k), i) <==> i == k || Has(w, i) {
      if i == k { SetsSame(w, k); } else { KeepsOther(w, k, i); }
    }
  }

  lemma SetsSame(w: bv64, k: bv6)
    ensures Has(w | Bit(k), k)
  {
    BitNonzero(k);
    OrSets(w, Bit(k));
  }

  lemma KeepsOther(w: bv64, k: bv6, i: bv6)
    requires i != k
    ensures Has(w | Bit(k), i) <==> Has(w, i)
  {
    BitsApart(k, i);
    OrKeeps(w, Bit(k), Bit(i));
  }

  lemma BitNonzero(k: bv6)
    ensures Bit(k) != 0
  {
  }

  lemma BitsApart(a: bv6, b: bv6)
    requires a != b
    ensures Bit(a) & Bit(b) == 0
  {
  }

  lemma OrSets(w: bv64, m: bv64)
    requires m != 0
    ensures Meets(w | m, m)
  {
    assert (w | m) & m == m;
  }

  lemma OrKeeps(w: bv64, m: bv64, t: bv64)
    requires m & t == 0
    ensures Meets(w | m, t) <==> Meets(w, t)
  {
    SameMeet(w, m, t);
  }

  lemma SameMeet(w: bv64, m: bv64, t: bv64)
    requires m & t == 0
    ensures (w | m) & t == w & t
  {
  }

  lemma Position(n: nat)
    requires n < 64
    ensures At(n) as nat == n
  {
  }

  lemma Positions(n: nat)
    requires n < 64
    ensures forall i: nat :: i < 64 ==> (At(i) == At(n) <==> i == n)
  {
    forall i: nat | i < 64 ensures At(i) == At(n) <==> i == n {
      Position(n);
      Position(i);
    }
  }

  lemma NoBits(n: nat)
    requires n < 64
    ensures !HasBit(0, n)
  {
  }
}
