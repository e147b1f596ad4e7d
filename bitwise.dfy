/** Unsigned 32-bit words and the bitwise operators `&` and `|` that the
    permission code applies to them, defined on natural numbers one bit at a
    time, together with the view of a word as sixteen 2-bit fields. */
module Bitwise {

  const TwoTo32: int := 0x1_0000_0000

  /** Go's `uint32`. */
  type uint32 = x: int | 0 <= x < 0x1_0000_0000

  function Pow2(n: nat): (p: nat)
    ensures p >= 1
  {
    if n == 0 then 1 else 2 * Pow2(n - 1)
  }

  function Pow4(n: nat): (p: nat)
    ensures p >= 1
  {
    if n == 0 then 1 else 4 * Pow4(n - 1)
  }

  /** A shift by `2 * n` bits multiplies by four `n` times. */
  lemma {:induction false} Pow2Even(n: nat)
    ensures Pow2(2 * n) == Pow4(n)
  {
    if n > 0 {
      Pow2Even(n - 1);
      assert Pow2(2 * n) == 4 * Pow2(2 * (n - 1));
    }
  }

  lemma {:induction false} Pow4Add(a: nat, b: nat)
    ensures Pow4(a + b) == Pow4(a) * Pow4(b)
  {
    if a > 0 {
      Pow4Add(a - 1, b);
      calc {
        Pow4(a + b);
        4 * Pow4(a - 1 + b);
        4 * (Pow4(a - 1) * Pow4(b));
        (4 * Pow4(a - 1)) * Pow4(b);
      }
    }
  }

  /** Sixteen 2-bit fields fill a 32-bit word exactly. */
  lemma Pow4Sixteen()
    ensures Pow4(16) == TwoTo32
  {
    assert Pow4(2) == 16;
    Pow4Add(2, 2);
    Pow4Add(4, 4);
    Pow4Add(8, 8);
  }

  lemma {:induction false} Pow4Monotone(a: nat, b: nat)
    requires a <= b
    ensures Pow4(a) <= Pow4(b)
  {
    if a < b {
      Pow4Monotone(a, b - 1);
    }
  }

  /** `x & y`: a bit of the result is set exactly when it is set in both. */
  function And(x: nat, y: nat): (r: nat)
    ensures r <= x && r <= y
    decreases x + y
  {
    if x == 0 && y == 0 then 0
    else 2 * And(x / 2, y / 2) + (if x % 2 == 1 && y % 2 == 1 then 1 else 0)
  }

  /** `x | y`: a bit of the result is set exactly when it is set in either. */
  function Or(x: nat, y: nat): (r: nat)
    ensures x <= r && y <= r && r <= x + y
    decreases x + y
  {
    if x == 0 && y == 0 then 0
    else 2 * Or(x / 2, y / 2) + (if x % 2 == 1 || y % 2 == 1 then 1 else 0)
  }

  /** `x | y` on two 32-bit words stays a 32-bit word, and every bit of
      either operand is set in it. */
  function Or32(x: uint32, y: uint32): (r: uint32)
    ensures x <= r && y <= r
    ensures Within(x, r) && Within(y, r)
  {
    Pow4Sixteen();
    OrBelow(x, y, 16);
    WithinOr(x, y);
    Or(x, y)
  }

  /** Every bit set in `x` is set in `y`; this is the test `x & y == x`. */
  predicate Within(x: nat, y: nat) {
    And(x, y) == x
  }

  /** The 2-bit field number `k` of `x`, that is `(x >> 2k) & 3`. */
  function Field(x: nat, k: nat): (f: nat)
    ensures f < 4
  {
    if k == 0 then x % 4 else Field(x / 4, k - 1)
  }

  // ---------------------------------------------------------------------
  // Two bits at a time: `&` and `|` act on the low field and on the rest
  // of the word independently.

  /** Quotients and remainders by 2 and by 4, digit by digit. */
  lemma Digits(x: nat)
    ensures x / 2 / 2 == x / 4
    ensures x % 4 / 2 == x / 2 % 2 && x % 4 % 2 == x % 2 && x % 4 / 2 / 2 == 0
  {
  }

  lemma AndQuarter(x: nat, y: nat)
    ensures And(x, y) / 4 == And(x / 4, y / 4)
    ensures And(x, y) % 4 == And(x % 4, y % 4)
  {
    Digits(x);
    Digits(y);
    var lo := if x % 2 == 1 && y % 2 == 1 then 1 else 0;
    var hi := if x / 2 % 2 == 1 && y / 2 % 2 == 1 then 1 else 0;
    var rest := And(x / 4, y / 4);
    var half := And(x / 2, y / 2);
    assert half == 2 * rest + hi;
    assert And(x, y) == 2 * half + lo;
    var low := And(x % 4 / 2, y % 4 / 2);
    assert low == 2 * And(0, 0) + hi;
    assert And(x % 4, y % 4) == 2 * low + lo;
  }

  lemma OrQuarter(x: nat, y: nat)
    ensures Or(x, y) / 4 == Or(x / 4, y / 4)
    ensures Or(x, y) % 4 == Or(x % 4, y % 4)
  {
    Digits(x);
    Digits(y);
    var lo := if x % 2 == 1 || y % 2 == 1 then 1 else 0;
    var hi := if x / 2 % 2 == 1 || y / 2 % 2 == 1 then 1 else 0;
    var rest := Or(x / 4, y / 4);
    var half := Or(x / 2, y / 2);
    assert half == 2 * rest + hi;
    assert Or(x, y) == 2 * half + lo;
    var low := Or(x % 4 / 2, y % 4 / 2);
    assert low == 2 * Or(0, 0) + hi;
    assert Or(x % 4, y % 4) == 2 * low + lo;
  }

  /** Field `k` of `x & y` is the `&` of the two fields `k`. */
  lemma {:induction false} FieldAnd(x: nat, y: nat, k: nat)
    ensures Field(And(x, y), k) == And(Field(x, k), Field(y, k))
  {
    AndQuarter(x, y);
    if k > 0 {
      FieldAnd(x / 4, y / 4, k - 1);
    }
  }

  /** Field `k` of `x | y` is the `|` of the two fields `k`. */
  lemma {:induction false} FieldOr(x: nat, y: nat, k: nat)
    ensures Field(Or(x, y), k) == Or(Field(x, k), Field(y, k))
  {
    OrQuarter(x, y);
    if k > 0 {
      FieldOr(x / 4, y / 4, k - 1);
    }
  }

  /** A number below `4^n` is determined by its first `n` fields. */
  lemma {:induction false} FieldsDetermine(x: nat, y: nat, n: nat)
    requires x < Pow4(n) && y < Pow4(n)
    requires forall k :: 0 <= k < n ==> Field(x, k) == Field(y, k)
    ensures x == y
  {
    if n > 0 {
      forall k | 0 <= k < n - 1
        ensures Field(x / 4, k) == Field(y / 4, k)
      {
        assert Field(x, k + 1) == Field(y, k + 1);
      }
      FieldsDetermine(x / 4, y / 4, n - 1);
      assert Field(x, 0) == Field(y, 0);
    }
  }

  /** `x & y == x` carries over to every field. */
  lemma WithinFieldwise(x: nat, y: nat, n: nat)
    requires Within(x, y)
    ensures forall k :: 0 <= k < n ==> Within(Field(x, k), Field(y, k))
  {
    forall k | 0 <= k < n
      ensures And(Field(x, k), Field(y, k)) == Field(x, k)
    {
      FieldAnd(x, y, k);
    }
  }

  /** For words of `n` fields, `x & y == x` follows from the same test on
      each field. */
  lemma FieldwiseWithin(x: nat, y: nat, n: nat)
    requires x < Pow4(n)
    requires forall k :: 0 <= k < n ==> Within(Field(x, k), Field(y, k))
    ensures Within(x, y)
  {
    forall k | 0 <= k < n
      ensures Field(And(x, y), k) == Field(x, k)
    {
      FieldAnd(x, y, k);
      assert Within(Field(x, k), Field(y, k));
    }
    FieldsDetermine(And(x, y), x, n);
  }

  /** `x | y` of two numbers below `4^n` is below `4^n`. */
  lemma {:induction false} OrBelow(x: nat, y: nat, n: nat)
    requires x < Pow4(n) && y < Pow4(n)
    ensures Or(x, y) < Pow4(n)
  {
    if n > 0 {
      OrQuarter(x, y);
      OrBelow(x / 4, y / 4, n - 1);
      OrOfFields(x % 4, y % 4);
      assert Or(x, y) == 4 * Or(x / 4, y / 4) + Or(x % 4, y % 4);
    } else {
      assert x == 0 && y == 0;
    }
  }

  lemma OrOfFields(a: nat, b: nat)
    requires a < 4 && b < 4
    ensures Or(a, b) < 4
  {
    assert Or(a / 2, b / 2) <= 1;
  }

  // ---------------------------------------------------------------------
  // The algebra of `|` and of the order "every bit of x is in y".

  lemma AndZero(y: nat)
    ensures And(0, y) == 0
  {
  }

  lemma OrZero(x: nat)
    ensures Or(x, 0) == x
  {
  }

  lemma {:induction false} OrIdempotent(x: nat)
    ensures Or(x, x) == x
    decreases x
  {
    if x > 0 {
      OrIdempotent(x / 2);
    }
  }

  lemma {:induction false} OrAssociative(x: nat, y: nat, z: nat)
    ensures Or(Or(x, y), z) == Or(x, Or(y, z))
    decreases x + y + z
  {
    if x + y + z > 0 {
      OrAssociative(x / 2, y / 2, z / 2);
      assert Or(x, y) / 2 == Or(x / 2, y / 2);
      assert Or(y, z) / 2 == Or(y / 2, z / 2);
    }
  }

  /** Both operands of `|` are within the result. */
  lemma {:induction false} WithinOr(x: nat, y: nat)
    ensures Within(x, Or(x, y)) && Within(y, Or(x, y))
    decreases x + y
  {
    if x + y > 0 {
      WithinOr(x / 2, y / 2);
      assert Or(x, y) / 2 == Or(x / 2, y / 2);
    }
  }

  lemma {:induction false} WithinReflexive(x: nat)
    ensures Within(x, x)
    decreases x
  {
    if x > 0 {
      WithinReflexive(x / 2);
    }
  }

  /** "Every bit of x is in y" is transitive. */
  lemma {:induction false} WithinTransitive(x: nat, y: nat, z: nat)
    requires Within(x, y) && Within(y, z)
    ensures Within(x, z)
    decreases x + y + z
  {
    if x + y + z > 0 {
      assert And(x, y) / 2 == And(x / 2, y / 2);
      assert And(y, z) / 2 == And(y / 2, z / 2);
      WithinTransitive(x / 2, y / 2, z / 2);
    }
  }
}
