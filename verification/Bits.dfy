/** Masks, shifts and ors on non-negative integers, as arithmetic. */
module Bits {
  function BitAnd(x: nat, y: nat): (r: nat) {
    if x == 0 || y == 0 then 0
    else (if x % 2 == 1 && y % 2 == 1 then 1 else 0) + 2 * BitAnd(x / 2, y / 2)
  }

  function BitOr(x: nat, y: nat): (r: nat) {
    if x == 0 && y == 0 then 0
    else (if x % 2 == 1 || y % 2 == 1 then 1 else 0) + 2 * BitOr(x / 2, y / 2)
  }

  function Pow2(k: nat): (r: nat)
    ensures r > 0
  {
    if k == 0 then 1 else 2 * Pow2(k - 1)
  }

  /** `x << k` where nothing is shifted out. */
  function ShiftLeft(x: nat, k: nat): (r: nat) {
    ProductSign(x, Pow2(k));
    x * Pow2(k)
  }

  /** An odd mask passes the lowest bit and masks the others with its half. */
  lemma OddMask(x: nat, m: nat)
    requires m > 0
    ensures BitAnd(x, 2 * m - 1) == x % 2 + 2 * BitAnd(x / 2, m - 1)
  {
    assert (2 * m - 1) % 2 == 1 && (2 * m - 1) / 2 == m - 1;
    if x == 0 {
      assert BitAnd(0, m - 1) == 0;
    }
  }

  lemma {:induction false} MaskIsRemainder(x: nat, k: nat)
    ensures BitAnd(x, Pow2(k) - 1) == x % Pow2(k)
    decreases k
  {
    hide BitAnd;
    if k == 0 {
      NoMask(x);
    } else {
      MaskIsRemainder(x / 2, k - 1);
      MaskStep(x, Pow2(k - 1));
    }
  }

  lemma MaskStep(x: nat, m: nat)
    requires m > 0 && BitAnd(x / 2, m - 1) == x / 2 % m
    ensures BitAnd(x, 2 * m - 1) == x % (2 * m)
  {
    OddMask(x, m);
    hide BitAnd;
    ScaledRemainder(x, 2, m);
  }

  lemma NoMask(x: nat)
    ensures BitAnd(x, 0) == 0
  {
  }

  /** Quotient and remainder are the only numbers that divide `x` by `m`. */
  lemma Remainder(x: int, m: nat, q: int, r: nat)
    requires m > 0 && x == q * m + r && r < m
    ensures x % m == r && x / m == q
  {
    var d := x / m - q;
    assert d * m == r - x % m;
    assert (d - 1) * m == d * m - m && (-d - 1) * m == -(d * m) - m;
    ProductSign(d - 1, m);
    ProductSign(-d - 1, m);
  }

  lemma ProductSign(a: int, m: nat)
    ensures a >= 0 ==> a * m >= 0
  {
  }

  /** The last digit to base `b` and the digits before it make up the remainder. */
  lemma ScaledRemainder(x: int, b: nat, m: nat)
    requires b > 0 && m > 0
    ensures b * m > 0 && x % (b * m) == x % b + b * (x / b % m)
  {
    var q, r, d := x / b / m, x / b % m, x % b;
    assert x == b * (q * m + r) + d;
    assert b * (q * m) == q * (b * m);
    assert b * r <= b * (m - 1);
    Remainder(x, b * m, q, b * r + d);
  }

  lemma {:induction false} OrOfDisjoint(x: nat, y: nat, k: nat)
    requires y < Pow2(k)
    ensures BitOr(ShiftLeft(x, k), y) == ShiftLeft(x, k) + y
    decreases k
  {
    if k == 0 {
      OrZero(x);
    } else {
      var m := Pow2(k - 1);
      assert ShiftLeft(x, k) == 2 * ShiftLeft(x, k - 1);
      OrOfDisjoint(x, y / 2, k - 1);
    }
  }

  lemma {:induction false} OrZero(x: nat)
    ensures BitOr(x, 0) == x
    decreases x
  {
    if x > 0 {
      OrZero(x / 2);
    }
  }

  lemma Powers()
    ensures Pow2(4) == 16 && Pow2(7) == 128 && Pow2(8) == 256 && Pow2(16) == 0x1_0000 && Pow2(24) == 0x100_0000
  {
    assert Pow2(4) == 16;
    assert Pow2(8) == 16 * Pow2(4);
    assert Pow2(12) == 16 * Pow2(8);
    assert Pow2(16) == 16 * Pow2(12);
    assert Pow2(20) == 16 * Pow2(16);
    assert Pow2(24) == 16 * Pow2(20);
  }

  /** Four bytes shifted apart do not overlap, so their or is their sum. */
  lemma OrOfBytes(a: nat, b: nat, c: nat, d: nat)
    requires a < 128 && b < 256 && c < 256 && d < 256
    ensures BitOr(BitOr(BitOr(ShiftLeft(a, 24), ShiftLeft(b, 16)), ShiftLeft(c, 8)), d) ==
            a * 0x100_0000 + b * 0x1_0000 + c * 256 + d
  {
    hide BitOr, Pow2;
    Powers();
    OrOfDisjoint(a, ShiftLeft(b, 16), 24);
    var ab := a * 256 + b;
    assert ShiftLeft(a, 24) + ShiftLeft(b, 16) == ShiftLeft(ab, 16);
    OrOfDisjoint(ab, ShiftLeft(c, 8), 16);
    var abc := ab * 256 + c;
    assert ShiftLeft(ab, 16) + ShiftLeft(c, 8) == ShiftLeft(abc, 8);
    OrOfDisjoint(abc, d, 8);
  }
}
