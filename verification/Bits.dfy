// Bitwise operators on non-negative integers, and what masking with one contiguous field means in arithmetic.
module Bits {

  function Pow2(k: nat): (r: nat)
    ensures r > 0
  {
    if k == 0 then 1 else 2 * Pow2(k - 1)
  }

  function And(x: nat, y: nat): nat
  {
    if x == 0 || y == 0 then 0
    else (if x % 2 == 1 && y % 2 == 1 then 1 else 0) + 2 * And(x / 2, y / 2)
  }

  function Or(x: nat, y: nat): nat
  {
    if x == 0 then y
    else if y == 0 then x
    else (if x % 2 == 1 || y % 2 == 1 then 1 else 0) + 2 * Or(x / 2, y / 2)
  }

  // x shifted left by k, one doubling at a time
  function Shl(x: nat, k: nat): nat
  {
    if k == 0 then x else 2 * Shl(x, k - 1)
  }

  // One bit at a time: the lowest bits meet each other, the rest meets the rest.
  lemma AndStep(x: nat, y: nat)
    ensures And(x, y) == (if x % 2 == 1 && y % 2 == 1 then 1 else 0) + 2 * And(x / 2, y / 2)
  {
  }

  lemma OrStep(x: nat, y: nat)
    ensures Or(x, y) == (if x % 2 == 1 || y % 2 == 1 then 1 else 0) + 2 * Or(x / 2, y / 2)
  {
  }

  lemma {:induction false} ShlIsTimes(x: nat, k: nat)
    ensures Shl(x, k) == x * Pow2(k)
  {
    if k > 0 {
      ShlIsTimes(x, k - 1);
      var q := Pow2(k - 1);
      assert 2 * (x * q) == x * (2 * q);
    }
  }

  // A mask acts on the upper and on the lower part of a number independently.
  lemma {:induction false} AndConcat(xh: nat, xl: nat, mh: nat, ml: nat, k: nat)
    requires xl < Pow2(k) && ml < Pow2(k)
    ensures And(Shl(xh, k) + xl, Shl(mh, k) + ml) == Shl(And(xh, mh), k) + And(xl, ml)
  {
    if k > 0 {
      AndConcat(xh, xl / 2, mh, ml / 2, k - 1);
      AndStep(Shl(xh, k) + xl, Shl(mh, k) + ml);
      AndStep(xl, ml);
      assert (Shl(xh, k) + xl) / 2 == Shl(xh, k - 1) + xl / 2;
      assert (Shl(mh, k) + ml) / 2 == Shl(mh, k - 1) + ml / 2;
    }
  }

  lemma {:induction false} AndOnes(x: nat, k: nat)
    requires x < Pow2(k)
    ensures And(x, Pow2(k) - 1) == x
  {
    if k > 0 {
      AndOnes(x / 2, k - 1);
      AndStep(x, Pow2(k) - 1);
      assert (Pow2(k) - 1) / 2 == Pow2(k - 1) - 1;
    }
  }

  // Masking h:f:l with n ones at position k keeps exactly the field f, in place.
  lemma AndField(h: nat, f: nat, l: nat, n: nat, k: nat)
    requires f < Pow2(n) && l < Pow2(k)
    ensures And(Shl(Shl(h, n) + f, k) + l, Shl(Pow2(n) - 1, k)) == Shl(f, k)
  {
    AndConcat(Shl(h, n) + f, l, Pow2(n) - 1, 0, k);
    AndConcat(h, f, 0, Pow2(n) - 1, n);
    AndOnes(f, n);
    ShlIsTimes(0, n);
  }

  // Results of disjoint masks do not carry: combining them with | adds them.
  lemma {:induction false} OrOfMasked(x: nat, m: nat, y: nat, n: nat)
    requires And(m, n) == 0
    ensures Or(And(x, m), And(y, n)) == And(x, m) + And(y, n)
    decreases m
  {
    if m > 0 {
      AndStep(m, n);
      OrOfMasked(x / 2, m / 2, y / 2, n / 2);
      AndStep(x, m);
      AndStep(y, n);
      OrStep(And(x, m), And(y, n));
    }
  }

  // A mask made of two disjoint masks
  lemma {:induction false} AndSum(x: nat, m: nat, n: nat)
    requires And(m, n) == 0
    ensures And(x, m + n) == And(x, m) + And(x, n)
    decreases m + n
  {
    if m + n > 0 {
      AndStep(m, n);
      AndSum(x / 2, m / 2, n / 2);
      AndStep(x, m);
      AndStep(x, n);
      AndStep(x, m + n);
    }
  }

  // The n-bit field f of h:f:l at position k, with the powers given as numbers
  lemma FieldMask(x: nat, mask: nat, h: nat, f: nat, l: nat, n: nat, k: nat, pn: nat, pk: nat)
    requires pn == Pow2(n) && pk == Pow2(k)
    requires f < pn && l < pk && x == (h * pn + f) * pk + l
    requires mask == (pn - 1) * pk
    ensures And(x, mask) == f * pk
  {
    ShlIsTimes(h, n);
    ShlIsTimes(Shl(h, n) + f, k);
    ShlIsTimes(pn - 1, k);
    ShlIsTimes(f, k);
    AndField(h, f, l, n, k);
  }

  lemma Powers()
    ensures Pow2(0) == 1 && Pow2(1) == 2 && Pow2(2) == 4 && Pow2(3) == 8 && Pow2(4) == 16 && Pow2(5) == 32
    ensures Pow2(6) == 64 && Pow2(8) == 0x100 && Pow2(10) == 0x400 && Pow2(12) == 0x1000
  {
  }

  lemma {:induction false} Pow2Add(a: nat, b: nat)
    ensures Pow2(a + b) == Pow2(a) * Pow2(b)
  {
    if a > 0 {
      Pow2Add(a - 1, b);
      assert Pow2(a) * Pow2(b) == 2 * (Pow2(a - 1) * Pow2(b));
    }
  }

  lemma LargePowers()
    ensures Pow2(16) == 0x1_0000 && Pow2(19) == 0x8_0000 && Pow2(22) == 0x40_0000 && Pow2(23) == 0x80_0000
    ensures Pow2(24) == 0x100_0000 && Pow2(26) == 0x400_0000 && Pow2(27) == 0x800_0000
    ensures Pow2(29) == 0x2000_0000 && Pow2(31) == 0x8000_0000 && Pow2(32) == 0x1_0000_0000
    ensures Pow2(48) == 0x1_0000_0000_0000 && Pow2(64) == 0x1_0000_0000_0000_0000
  {
    Powers();
    Pow2Add(8, 8);
    Pow2Add(3, 16);
    Pow2Add(6, 16);
    Pow2Add(1, 22);
    Pow2Add(8, 16);
    Pow2Add(10, 16);
    Pow2Add(1, 26);
    Pow2Add(5, 24);
    Pow2Add(2, 29);
    Pow2Add(16, 16);
    Pow2Add(16, 32);
    Pow2Add(32, 32);
  }

  lemma MulAway(d: int, e: int)
    requires d > 0
    ensures e >= 1 ==> d * e >= d
    ensures e <= -1 ==> d * e <= -d
  {
  }

  // Division by a positive number is determined by quotient and remainder.
  lemma QuotRem(x: int, d: int, q: int, r: int)
    requires 0 <= r < d && x == q * d + r
    ensures x / d == q && x % d == r
  {
    var e := x / d - q;
    assert d * e == r - x % d;
    MulAway(d, e);
  }

  lemma DivDiv(w: nat, a: nat, b: nat)
    requires a > 0 && b > 0
    ensures a * b > 0 && w / (a * b) == w / a / b
  {
    var q := w / a;
    assert w == (q / b * b + q % b) * a + w % a;
    assert (q / b * b + q % b) * a == q / b * (a * b) + q % b * a;
    assert q % b * a + w % a < a * b by { assert (q % b + 1) * a <= b * a; }
    QuotRem(w, a * b, q / b, q % b * a + w % a);
  }
}
