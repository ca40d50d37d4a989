/** Bit operations on non-negative integers of any width, bit by bit. */
module Bits {

  function Shl(x: nat, k: nat): nat {
    if k == 0 then x else 2 * Shl(x, k - 1)
  }

  function Shr(x: nat, k: nat): nat
    decreases k, x
  {
    if k == 0 then x else Shr(x / 2, k - 1)
  }

  function Or(a: nat, b: nat): nat
    decreases a + b
  {
    if a == 0 && b == 0 then 0
    else (if a % 2 == 1 || b % 2 == 1 then 1 else 0) + 2 * Or(a / 2, b / 2)
  }

  function And(a: nat, b: nat): nat
    decreases a + b
  {
    if a == 0 || b == 0 then 0
    else (if a % 2 == 1 && b % 2 == 1 then 1 else 0) + 2 * And(a / 2, b / 2)
  }

  /** The mask of the lowest `k` bits. */
  function Mask(k: nat): nat {
    ShlPositive(k);
    Shl(1, k) - 1
  }

  lemma {:induction false} ShlPositive(k: nat)
    ensures Shl(1, k) >= 1
  {
    if k > 0 { ShlPositive(k - 1); }
  }

  lemma {:induction false} ShlAdd(x: nat, i: nat, j: nat)
    ensures Shl(x, i + j) == Shl(Shl(x, i), j)
    decreases j
  {
    if j > 0 { ShlAdd(x, i, j - 1); }
  }

  lemma {:induction false} ShlPlus(x: nat, y: nat, k: nat)
    ensures Shl(x + y, k) == Shl(x, k) + Shl(y, k)
  {
    if k > 0 { ShlPlus(x, y, k - 1); }
  }

  lemma {:induction false} ShlMul(x: nat, k: nat)
    ensures Shl(x, k) == x * Shl(1, k)
  {
    if k > 0 {
      var y := Shl(1, k - 1);
      calc {
        Shl(x, k);
        2 * Shl(x, k - 1);
        { ShlMul(x, k - 1); }
        2 * (x * y);
        x * (2 * y);
        x * Shl(1, k);
      }
    }
  }

  lemma {:induction false} OrZero(b: nat)
    ensures Or(0, b) == b
  {
    if b != 0 { OrZero(b / 2); }
  }

  lemma {:induction false} OrSymmetric(a: nat, b: nat)
    ensures Or(a, b) == Or(b, a)
    decreases a + b
  {
    if !(a == 0 && b == 0) { OrSymmetric(a / 2, b / 2); }
  }

  /** Fields that do not overlap are put together by addition. */
  lemma {:induction false} OrDisjoint(a: nat, b: nat, k: nat)
    requires a < Shl(1, k)
    ensures Or(a, Shl(b, k)) == a + Shl(b, k)
    decreases k
  {
    if k == 0 {
      OrZero(b);
    } else {
      OrDisjoint(a / 2, b, k - 1);
    }
  }

  /** The low field comes back by masking, the high one by shifting. */
  lemma {:induction false} Fields(a: nat, b: nat, k: nat)
    requires a < Shl(1, k)
    ensures And(a + Shl(b, k), Mask(k)) == a
    ensures Shr(a + Shl(b, k), k) == b
    decreases k
  {
    if k > 0 {
      Fields(a / 2, b, k - 1);
      ShlPositive(k - 1);
      assert (a + Shl(b, k)) / 2 == a / 2 + Shl(b, k - 1);
      assert (a + Shl(b, k)) % 2 == a % 2;
      assert Mask(k) / 2 == Mask(k - 1) && Mask(k) % 2 == 1;
    }
  }
}
