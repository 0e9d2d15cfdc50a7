/** Sets of relations as bit masks, as the join planner numbers its states. */
module Masks {

  function Pow2(n: nat): (p: nat)
    ensures p > 0
  {
    if n == 0 then 1 else 2 * Pow2(n - 1)
  }

  /** Bit i of the mask is set. */
  predicate In(mask: nat, i: nat) {
    if i == 0 then mask % 2 == 1 else In(mask / 2, i - 1)
  }

  /** mask | (1 << i) */
  function With(mask: nat, i: nat): nat {
    if i == 0 then mask - mask % 2 + 1 else 2 * With(mask / 2, i - 1) + mask % 2
  }

  function Full(n: nat): nat {
    Pow2(n) - 1
  }

  lemma {:induction false} InWith(mask: nat, i: nat, j: nat)
    ensures In(With(mask, i), j) <==> i == j || In(mask, j)
  {
    if i > 0 {
      assert With(mask, i) / 2 == With(mask / 2, i - 1) && With(mask, i) % 2 == mask % 2;
      if j > 0 { InWith(mask / 2, i - 1, j - 1); }
    } else {
      assert With(mask, i) / 2 == mask / 2;
    }
  }

  lemma {:induction false} WithGrows(mask: nat, i: nat)
    requires !In(mask, i)
    ensures With(mask, i) > mask
  {
    if i > 0 { WithGrows(mask / 2, i - 1); }
  }

  lemma {:induction false} WithBounded(mask: nat, i: nat, n: nat)
    requires mask < Pow2(n) && i < n
    ensures With(mask, i) < Pow2(n)
  {
    if i > 0 { WithBounded(mask / 2, i - 1, n - 1); }
  }

  lemma {:induction false} InFull(n: nat, j: nat)
    ensures In(Full(n), j) <==> j < n
  {
    if n == 0 {
      InZero(j);
    } else {
      assert Full(n) / 2 == Full(n - 1) && Full(n) % 2 == 1;
      if j > 0 { InFull(n - 1, j - 1); }
    }
  }

  lemma {:induction false} InZero(j: nat)
    ensures !In(0, j)
  {
    if j > 0 { InZero(j - 1); }
  }

  /** Members of a mask of n bits. */
  lemma {:induction false} InBounded(mask: nat, n: nat, j: nat)
    requires mask < Pow2(n) && In(mask, j)
    ensures j < n
  {
    if n == 0 { InZero(j); } else if j > 0 { InBounded(mask / 2, n - 1, j - 1); }
  }

  /** A mask is nonzero exactly if it has a member. */
  lemma {:induction false} SomeMember(mask: nat) returns (j: nat)
    requires mask > 0
    ensures In(mask, j)
  {
    if mask % 2 == 1 {
      j := 0;
    } else {
      var k := SomeMember(mask / 2);
      j := k + 1;
    }
  }

  lemma {:induction false} SomeAbsentee(mask: nat, n: nat) returns (j: nat)
    requires mask < Full(n)
    ensures j < n && !In(mask, j)
  {
    if mask % 2 == 0 {
      j := 0;
    } else {
      var k := SomeAbsentee(mask / 2, n - 1);
      j := k + 1;
    }
  }

  /** Masks are equal exactly if their members are. */
  lemma {:induction false} SameMembers(a: nat, b: nat)
    requires forall j: nat :: In(a, j) <==> In(b, j)
    ensures a == b
    decreases a + b
  {
    if a + b > 0 {
      assert In(a, 0) <==> In(b, 0);
      forall j: nat ensures In(a / 2, j) <==> In(b / 2, j) {
        assert In(a, j + 1) <==> In(b, j + 1);
      }
      SameMembers(a / 2, b / 2);
    }
  }

  function BitCount(mask: nat): nat {
    if mask == 0 then 0 else mask % 2 + BitCount(mask / 2)
  }

  lemma {:induction false} BitCountWith(mask: nat, i: nat)
    requires !In(mask, i)
    ensures BitCount(With(mask, i)) == BitCount(mask) + 1
  {
    if i == 0 {
      assert With(mask, 0) / 2 == mask / 2;
    } else {
      BitCountWith(mask / 2, i - 1);
      assert With(mask, i) / 2 == With(mask / 2, i - 1) && With(mask, i) % 2 == mask % 2;
    }
  }

  lemma {:induction false} BitCountFull(n: nat)
    ensures BitCount(Full(n)) == n
  {
    if n > 0 {
      BitCountFull(n - 1);
      assert Full(n) / 2 == Full(n - 1) && Full(n) % 2 == 1;
    }
  }
}
