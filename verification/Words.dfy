// C's fixed-width integers: wrap-around, two's complement, range checks.
module Words {
  import opened Bits

  type u32 = x: int | 0 <= x < 0x1_0000_0000
  type u64 = x: int | 0 <= x < 0x1_0000_0000_0000_0000

  function U32(x: int): u32 { x % 0x1_0000_0000 }

  function U64(x: int): u64 { x % 0x1_0000_0000_0000_0000 }

  // the signed reading of a wrapped value
  function S32(x: int): int
  {
    if U32(x) < 0x8000_0000 then U32(x) else U32(x) - 0x1_0000_0000
  }

  function S64(x: int): int
  {
    if U64(x) < 0x8000_0000_0000_0000 then U64(x) else U64(x) - 0x1_0000_0000_0000_0000
  }

  // is_int32 and is_int64 of elf/reloc/util.c
  predicate IsInt32(bits: nat, x: int)
    requires bits > 0
  {
    bits > 32 || -(Pow2(bits - 1) as int) <= x < Pow2(bits - 1)
  }

  predicate IsInt64(bits: nat, x: int)
    requires bits > 0
  {
    bits > 64 || -(Pow2(bits - 1) as int) <= x < Pow2(bits - 1)
  }

  // sign_extend32: shift the field to the top, then back arithmetically
  function SignExtend32(bits: nat, x: u32): int
    requires 0 < bits <= 32
  {
    S32(x * Pow2(32 - bits)) / Pow2(32 - bits)
  }

  lemma Ranges(x: int)
    ensures IsInt64(16, x) <==> -0x8000 <= x < 0x8000
    ensures IsInt64(32, x) <==> -0x8000_0000 <= x < 0x8000_0000
    ensures IsInt64(28, x) <==> -0x800_0000 <= x < 0x800_0000
    ensures IsInt32(26, x) <==> -0x200_0000 <= x < 0x200_0000
  {
    Powers();
    LargePowers();
    Pow2Add(12, 3);
    Pow2Add(1, 24);
  }

  // Wrapping only removes multiples of the modulus.
  lemma U64Of(x: int, r: u64, q: int)
    requires x == q * 0x1_0000_0000_0000_0000 + r
    ensures U64(x) == r
  {
    QuotRem(x, 0x1_0000_0000_0000_0000, q, r);
  }

  lemma S64Congruent(x: int) returns (q: int)
    ensures x == q * 0x1_0000_0000_0000_0000 + S64(x)
  {
    q := x / 0x1_0000_0000_0000_0000;
    if S64(x) != U64(x) { q := q + 1; }
  }

  lemma S32Congruent(x: int) returns (q: int)
    ensures x == q * 0x1_0000_0000 + S32(x)
  {
    q := x / 0x1_0000_0000;
    if S32(x) != U32(x) { q := q + 1; }
  }

  lemma SmallSigned(x: int)
    requires -0x1000_0000 <= x < 0x1000_0000
    ensures S64(x) == x && S32(x) == x
  {
  }

  lemma U64Shift(x: int, q: int)
    ensures U64(x + q * 0x1_0000_0000_0000_0000) == U64(x)
  {
    QuotRem(x + q * 0x1_0000_0000_0000_0000, 0x1_0000_0000_0000_0000, x / 0x1_0000_0000_0000_0000 + q, U64(x));
  }

  lemma U32Shift(x: int, q: int)
    ensures U32(x + q * 0x1_0000_0000) == U32(x)
  {
    QuotRem(x + q * 0x1_0000_0000, 0x1_0000_0000, x / 0x1_0000_0000 + q, U32(x));
  }

  // Adding the wrapped difference leads to the destination.
  lemma U64Back(p: int, d: int)
    ensures U64(p + S64(d - p)) == U64(d)
  {
    var q := S64Congruent(d - p);
    hide U64, S64;
    U64Shift(p + S64(d - p), q);
  }

  lemma SignedKeepsAlignment(x: int)
    ensures S64(x) % 4 == x % 4 && S32(x) % 4 == x % 4
  {
    var q := S64Congruent(x);
    var r := S32Congruent(x);
    hide S64, S32;
  }

  lemma U32Congruent(x: int) returns (q: int)
    ensures x == q * 0x1_0000_0000 + U32(x)
  {
    q := x / 0x1_0000_0000;
  }

  lemma U32KeepsAlignment(x: int)
    ensures U32(x) % 4 == x % 4
  {
    hide U32;
    var q := U32Congruent(x);
    QuotRem(x, 4, q * 0x4000_0000 + U32(x) / 4, U32(x) % 4);
  }
}
