// The masks of the relocation code, each read as the field of the word it selects.
module Masks {
  import opened Bits

  // ---- A64 B, BL: opcode in bits 31..26, imm26 below ----

  lemma Branch26(w: nat, op: nat, imm: nat)
    requires op < 64 && imm < 0x400_0000 && w == op * 0x400_0000 + imm
    ensures And(w, 0xfc000000) == op * 0x400_0000
    ensures And(w, 0x03ffffff) == imm
  {
    Powers();
    LargePowers();
    FieldMask(w, 0xfc000000, 0, op, imm, 6, 26, 64, 0x400_0000);
    FieldMask(w, 0x03ffffff, op, imm, 0, 26, 0, 0x400_0000, 1);
  }

  // ---- A64 ADRP: bit 31, immlo in 30..29, opcode in 28..24, immhi in 23..5, Rd below ----

  ghost predicate AdrFields(w: nat, t: nat, lo: nat, op: nat, hi: nat, rd: nat)
  {
    t < 2 && lo < 4 && op < 32 && hi < 0x8_0000 && rd < 32
    && w == t * 0x8000_0000 + lo * 0x2000_0000 + op * 0x100_0000 + hi * 32 + rd
  }

  lemma AdrMasksDisjoint()
    ensures And(0x8000_0000, 0x1f00_0000) == 0 && And(0x9f00_0000, 0x1f) == 0
  {
    Powers();
    LargePowers();
    FieldMask(0x8000_0000, 0x1f00_0000, 4, 0, 0, 5, 24, 32, 0x100_0000);
    FieldMask(0x9f00_0000, 0x1f, 0x4f8_0000, 0, 0, 5, 0, 32, 1);
  }

  lemma KeepAdr(w: nat, t: nat, lo: nat, op: nat, hi: nat, rd: nat)
    requires AdrFields(w, t, lo, op, hi, rd)
    ensures And(w, 0x9f00001f) == t * 0x8000_0000 + op * 0x100_0000 + rd
  {
    Powers();
    LargePowers();
    AdrMasksDisjoint();
    AndSum(w, 0x9f00_0000, 0x1f);
    AndSum(w, 0x8000_0000, 0x1f00_0000);
    FieldMask(w, 0x8000_0000, 0, t, w - t * 0x8000_0000, 1, 31, 2, 0x8000_0000);
    FieldMask(w, 0x1f00_0000, t * 4 + lo, op, hi * 32 + rd, 5, 24, 32, 0x100_0000);
    FieldMask(w, 0x1f, t * 0x400_0000 + lo * 0x100_0000 + op * 0x8_0000 + hi, rd, 0, 5, 0, 32, 1);
  }

  lemma TakeAdrLo(x: nat, h: nat, lo: nat, l: nat)
    requires lo < 4 && l < 0x2000_0000 && x == (h * 4 + lo) * 0x2000_0000 + l
    ensures And(x, 0x60000000) == lo * 0x2000_0000
  {
    Powers();
    LargePowers();
    FieldMask(x, 0x60000000, h, lo, l, 2, 29, 4, 0x2000_0000);
  }

  lemma TakeAdrHi(x: nat, h: nat, hi: nat, l: nat)
    requires hi < 0x8_0000 && l < 32 && x == (h * 0x8_0000 + hi) * 32 + l
    ensures And(x, 0x00ffffe0) == hi * 32
  {
    Powers();
    LargePowers();
    FieldMask(x, 0x00ffffe0, h, hi, l, 19, 5, 0x8_0000, 32);
  }

  lemma InsideAdr(s: nat, top: nat, rd: nat)
    requires top < 0x100 && rd < 32 && s == top * 0x100_0000 + rd
    ensures And(s, 0xff00001f) == s
  {
    Powers();
    LargePowers();
    FieldMask(0xff00_0000, 0x1f, 0x7f8_0000, 0, 0, 5, 0, 32, 1);
    AndSum(s, 0xff00_0000, 0x1f);
    FieldMask(s, 0xff00_0000, 0, top, rd, 8, 24, 0x100, 0x100_0000);
    FieldMask(s, 0x1f, top * 0x8_0000, rd, 0, 5, 0, 32, 1);
  }

  // The three parts of a patched ADRP do not overlap.
  lemma AdrOr(w: nat, x: nat, y: nat, t: nat, lo: nat, op: nat, rd: nat)
    requires t < 2 && lo < 4 && op < 32 && rd < 32
    requires And(w, 0x9f00001f) == t * 0x8000_0000 + op * 0x100_0000 + rd
    requires And(x, 0x60000000) == lo * 0x2000_0000
    ensures Or(Or(And(w, 0x9f00001f), And(x, 0x60000000)), And(y, 0x00ffffe0))
         == And(w, 0x9f00001f) + And(x, 0x60000000) + And(y, 0x00ffffe0)
  {
    hide And, Or;
    assert And(0x9f00001f, 0x60000000) == 0 by { TakeAdrLo(0x9f00001f, 1, 0, 0x1f00001f); }
    assert And(0xff00001f, 0x00ffffe0) == 0 by { TakeAdrHi(0xff00001f, 255, 0, 0x1f); }
    var s := And(w, 0x9f00001f) + And(x, 0x60000000);
    OrOfMasked(w, 0x9f00001f, x, 0x60000000);
    InsideAdr(s, t * 128 + lo * 32 + op, rd);
    OrOfMasked(s, 0xff00001f, y, 0x00ffffe0);
  }

  // ---- A64 ADD, LDR, STR: imm12 in bits 21..10 ----

  lemma Imm12Masks(w: nat, top: nat, imm: nat, low: nat)
    requires top < 0x400 && imm < 0x1000 && low < 0x400 && w == top * 0x40_0000 + imm * 0x400 + low
    ensures And(w, 0xffc003ff) == top * 0x40_0000 + low
    ensures And(w, 0x003ffc00) == imm * 0x400
  {
    Powers();
    LargePowers();
    FieldMask(0xffc0_0000, 0x3ff, 0x3ff000, 0, 0, 10, 0, 0x400, 1);
    AndSum(w, 0xffc0_0000, 0x3ff);
    FieldMask(w, 0xffc0_0000, 0, top, imm * 0x400 + low, 10, 22, 0x400, 0x40_0000);
    FieldMask(w, 0x3ff, top * 0x1000 + imm, low, 0, 10, 0, 0x400, 1);
    FieldMask(w, 0x003ffc00, top, imm, low, 12, 10, 0x1000, 0x400);
  }

  lemma Imm12Or(w: nat, x: nat)
    ensures Or(And(w, 0xffc003ff), And(x, 0x003ffc00)) == And(w, 0xffc003ff) + And(x, 0x003ffc00)
  {
    Imm12Masks(0xffc003ff, 0x3ff, 0, 0x3ff);
    OrOfMasked(w, 0xffc003ff, x, 0x003ffc00);
  }

  lemma BranchOr(w: nat, x: nat)
    ensures Or(And(w, 0xfc000000), And(x, 0x03ffffff)) == And(w, 0xfc000000) + And(x, 0x03ffffff)
  {
    Branch26(0xfc000000, 63, 0);
    OrOfMasked(w, 0xfc000000, x, 0x03ffffff);
  }

  // ---- A64 instruction classes, of a word with bits c = 29..27, v = 26, d = 25..24, o = 23 ----

  lemma ClassMasks(w: nat, a: nat, c: nat, v: nat, d: nat, o: nat, l: nat)
    requires a < 4 && c < 8 && v < 2 && d < 4 && o < 2 && l < 0x80_0000
    requires w == a * 0x4000_0000 + c * 0x800_0000 + v * 0x400_0000 + d * 0x100_0000 + o * 0x80_0000 + l
    ensures And(w, 0x3b000000) == c * 0x800_0000 + d * 0x100_0000
    ensures And(w, 0x04800000) == v * 0x400_0000 + o * 0x80_0000
  {
    Powers();
    LargePowers();
    FieldMask(0x3800_0000, 0x0300_0000, 14, 0, 0, 2, 24, 4, 0x100_0000);
    AndSum(w, 0x3800_0000, 0x0300_0000);
    FieldMask(w, 0x3800_0000, a, c, v * 0x400_0000 + d * 0x100_0000 + o * 0x80_0000 + l, 3, 27, 8, 0x800_0000);
    FieldMask(w, 0x0300_0000, a * 16 + c * 2 + v, d, o * 0x80_0000 + l, 2, 24, 4, 0x100_0000);
    FieldMask(0x0400_0000, 0x0080_0000, 4, 0, 0, 1, 23, 2, 0x80_0000);
    AndSum(w, 0x0400_0000, 0x0080_0000);
    FieldMask(w, 0x0400_0000, a * 8 + c, v, d * 0x100_0000 + o * 0x80_0000 + l, 1, 26, 2, 0x400_0000);
    FieldMask(w, 0x0080_0000, a * 0x40 + c * 8 + v * 4 + d, o, l, 1, 23, 2, 0x80_0000);
  }
}
