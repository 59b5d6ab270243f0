// elf/reloc/arm64.c and elf/plt/arm64.c as functions: the value of a relocation and the patched place.
module Arm64 {
  import opened Bits
  import opened Masks
  import opened Results
  import opened Words
  import opened Isa64
  import opened Types

  const ABS64 := 0x101
  const ABS32 := 0x102
  const ABS16 := 0x103
  const PREL64 := 0x104
  const PREL32 := 0x105
  const PREL16 := 0x106
  const ADR_PREL_PG_HI21 := 0x113
  const ADD_ABS_LO12_NC := 0x115
  const LDST8_ABS_LO12_NC := 0x116
  const JUMP26 := 0x11a
  const CALL26 := 0x11b
  const LDST16_ABS_LO12_NC := 0x11c
  const LDST32_ABS_LO12_NC := 0x11d
  const LDST64_ABS_LO12_NC := 0x11e
  const LDST128_ABS_LO12_NC := 0x12b
  const ADR_GOT_PAGE := 0x137
  const LD64_GOT_LO12_NC := 0x138

  predicate IsBranch(t: nat) { t == CALL26 || t == JUMP26 }

  predicate IsAdr(t: nat) { t == ADR_PREL_PG_HI21 || t == ADR_GOT_PAGE }

  // the load/store relocations and the size they are for, as log2; ADD falls through to the byte case
  function ExpShift(t: nat): Option<nat>
  {
    if t == ADD_ABS_LO12_NC || t == LDST8_ABS_LO12_NC then Some(0)
    else if t == LDST16_ABS_LO12_NC then Some(1)
    else if t == LDST32_ABS_LO12_NC then Some(2)
    else if t == LDST64_ABS_LO12_NC || t == LD64_GOT_LO12_NC then Some(3)
    else if t == LDST128_ABS_LO12_NC then Some(4)
    else None
  }

  // bytes written at the place
  function Width(t: nat): nat
  {
    if t == ABS64 || t == PREL64 then 8
    else if t == ABS16 || t == PREL16 then 2
    else 4
  }

  // ---- compute_addend ----

  function Compute(t: nat, sec: SectionInfo, P: u64, S: u64, GotS: u64, A: int): Result<Plan>
  {
    if P == 0 || P < sec.start || P > U64(sec.start + sec.size) || S == 0 then Abort
    else if t == ABS64 || t == ABS32 || t == ABS16 then Ok(Direct(S64(S + A)))
    else if t == PREL64 || t == PREL32 || t == PREL16 then Ok(Direct(S64(S + A - P)))
    else if t == ADR_PREL_PG_HI21 then Ok(Direct(S64(PageOf(U64(S + A)) - PageOf(P))))
    else if t == ADD_ABS_LO12_NC then Ok(Direct(U64(S + A) % 0x1000))
    else if IsBranch(t) then
      var V := S64(S + A - P);
      if IsInt64(28, V) then Ok(Direct(V)) else Ok(Via(S, A))
    else if t == ADR_GOT_PAGE then
      if GotS == 0 then Abort else Ok(Direct(S64(PageOf(U64(GotS + A)) - PageOf(P))))
    else if t == LD64_GOT_LO12_NC then
      if GotS == 0 then Abort else Ok(Direct(U64(GotS + A) % 0x1000))
    else match ExpShift(t)
      case Some(e) => if U64(S + A) % Pow(e) == 0 then Ok(Direct(U64(S + A) % 0x1000)) else Abort
      case None => Abort
  }

  // The value of a branch that goes through the stub at address at
  function ViaStub(P: u64, at: u64, adjust: int): Result<int>
  {
    var V := S64(at + adjust - P);
    if at < 0x1_0000_0000_0000 && IsInt64(28, V) then Ok(V) else Abort
  }

  // ---- encodeAddend_arm64 ----

  function PatchBranch(w: u32, V: int): nat
  {
    Or(And(w, 0xfc000000), And(U32(V / 4), 0x03ffffff))
  }

  function PatchAdr(w: u32, V: int): nat
  {
    Or(Or(And(w, 0x9f00001f), And(U64(U64(V) * 0x2_0000), 0x60000000)), And(U64(V) / 0x200, 0x00ffffe0))
  }

  predicate IsLoadStore(w: u32) { And(w, 0x3b000000) == 0x39000000 }

  predicate IsVectorOp(w: u32) { And(w, 0x04800000) == 0x04800000 }

  function ShiftOf(w: u32): nat
  {
    if !IsLoadStore(w) then 0
    else if w / 0x4000_0000 == 0 && IsVectorOp(w) then 4
    else w / 0x4000_0000
  }

  function PatchImm12(w: u32, V: nat, shift: nat): nat
  {
    Or(And(w, 0xffc003ff), And(V / Pow(shift) * 0x400, 0x003ffc00))
  }

  function Encode(t: nat, w: nat, V: int): Result<nat>
    requires Width(t) == 4 ==> w < 0x1_0000_0000
  {
    if t == ABS64 || t == PREL64 then Ok(U64(V))
    else if t == ABS32 || t == PREL32 then
      if IsInt64(32, V) then Ok(U32(V)) else Abort
    else if t == ABS16 || t == PREL16 then
      if IsInt64(16, V) then Ok(V % 0x1_0000) else Abort
    else if IsAdr(t) then
      if IsInt64(32, V) && V % 0x1000 == 0 then Ok(PatchAdr(w, V)) else Abort
    else if IsBranch(t) then
      if IsInt64(28, V) then Ok(PatchBranch(w, V)) else Abort
    else match ExpShift(t)
      case None => Abort
      case Some(e) =>
        if (t == LD64_GOT_LO12_NC && V % 8 != 0) || !(0 <= V < 0x1000) then Abort
        else if V == 0 || e == ShiftOf(w) then Ok(PatchImm12(w, V, ShiftOf(w)))
        else Abort
  }

  // ---- what the patched words are ----

  lemma PatchedBranch(w: u32, V: int)
    ensures PatchBranch(w, V) == w / 0x400_0000 * 0x400_0000 + V / 4 % 0x400_0000
  {
    hide And, Or;
    BranchOr(w, U32(V / 4));
    Branch26(w, w / 0x400_0000, w % 0x400_0000);
    var x := U32(V / 4);
    Branch26(x, x / 0x400_0000, x % 0x400_0000);
    assert x % 0x400_0000 == V / 4 % 0x400_0000;
  }

  lemma BranchReads(r: u32, op: nat, V: int, P: u64)
    requires IsInt64(28, V) && V % 4 == 0
    requires r == op * 0x400_0000 + V / 4 % 0x400_0000
    ensures r / 0x400_0000 == op && BranchTarget(P, r) == U64(P + V)
  {
    Ranges(V);
    QuotRem(r, 0x400_0000, op, V / 4 % 0x400_0000);
    assert Signed(0x400_0000, V / 4 % 0x400_0000) * 4 == V;
  }

  // A branch with the offset V, in range and 4-aligned, keeps its opcode and goes to P + V.
  lemma BranchGoesTo(w: u32, V: int, P: u64)
    requires IsInt64(28, V) && V % 4 == 0
    ensures PatchBranch(w, V) < 0x1_0000_0000
    ensures PatchBranch(w, V) / 0x400_0000 == w / 0x400_0000
    ensures BranchTarget(P, PatchBranch(w, V)) == U64(P + V)
  {
    PatchedBranch(w, V);
    BranchReads(PatchBranch(w, V), w / 0x400_0000, V, P);
  }

  // up:hi:lo is the two's complement form of the page number V / 0x1000; hi:lo is the immediate.
  ghost predicate PageNumber(V: int, up: nat, hi: nat, lo: nat)
  {
    hi < 0x8_0000 && lo < 4 && up < 0x8000_0000
    && U64(V) == (up * 0x20_0000 + hi * 4 + lo) * 0x1000
    && Signed(0x20_0000, hi * 4 + lo) * 0x1000 == V
  }

  lemma PageNumberOf(V: int) returns (up: nat, hi: nat, lo: nat)
    requires IsInt64(32, V) && V % 0x1000 == 0
    ensures PageNumber(V, up, hi, lo)
  {
    Ranges(V);
    var k := if V < 0 then V / 0x1000 + 0x20_0000 else V / 0x1000;
    up := if V < 0 then 0x7fff_ffff else 0;
    hi, lo := k / 4, k % 4;
    U64Of(V, (up * 0x20_0000 + k) * 0x1000, if V < 0 then -1 else 0);
  }

  lemma PatchedAdr(w: u32, t: nat, lo: nat, op: nat, hi: nat, rd: nat, V: int, up: nat, vhi: nat, vlo: nat)
    requires AdrFields(w, t, lo, op, hi, rd) && PageNumber(V, up, vhi, vlo)
    ensures AdrFields(PatchAdr(w, V), t, vlo, op, vhi, rd)
  {
    var x, y := U64(U64(V) * 0x2_0000), U64(V) / 0x200;
    var h := up % 0x4000 * 0x8_0000 + vhi;
    U64Of(U64(V) * 0x2_0000, (h * 4 + vlo) * 0x2000_0000, up / 0x4000);
    TakeAdrLo(x, h, vlo, 0);
    TakeAdrHi(y, up, vhi, vlo * 8);
    KeepAdr(w, t, lo, op, hi, rd);
    AdrOr(w, x, y, t, vlo, op, rd);
  }

  lemma FieldsOfAdr(w: u32) returns (t: nat, lo: nat, op: nat, hi: nat, rd: nat)
    ensures AdrFields(w, t, lo, op, hi, rd)
    ensures IsAdrp(w) <==> t == 1 && op == 0x10
    ensures AdrImm(w) == hi * 4 + lo && Rd(w) == rd
  {
    t, lo, op, hi, rd := w / 0x8000_0000, w / 0x2000_0000 % 4, w / 0x100_0000 % 32, w / 32 % 0x8_0000, w % 32;
    assert w / 0x100_0000 == t * 128 + lo * 32 + op;
    assert w / 32 == w / 0x100_0000 * 0x8_0000 + hi;
  }

  lemma AdrFieldsDecide(w: u32, t: nat, lo: nat, op: nat, hi: nat, rd: nat)
    requires AdrFields(w, t, lo, op, hi, rd)
    ensures IsAdrp(w) <==> t == 1 && op == 0x10
    ensures AdrImm(w) == hi * 4 + lo && Rd(w) == rd
  {
    QuotRem(w, 0x8000_0000, t, lo * 0x2000_0000 + op * 0x100_0000 + hi * 32 + rd);
    QuotRem(w, 0x2000_0000, t * 4 + lo, op * 0x100_0000 + hi * 32 + rd);
    QuotRem(w, 0x100_0000, t * 128 + lo * 32 + op, hi * 32 + rd);
    QuotRem(w, 32, (t * 128 + lo * 32 + op) * 0x8_0000 + hi, rd);
  }

  lemma AdrpReads(r: u32, t: nat, op: nat, rd: nat, V: int, up: nat, hi: nat, lo: nat, P: u64)
    requires AdrFields(r, t, lo, op, hi, rd) && PageNumber(V, up, hi, lo)
    ensures IsAdrp(r) <==> t == 1 && op == 0x10
    ensures Rd(r) == rd && AdrpValue(P, r) == U64(PageOf(P) + V)
  {
    hide IsAdrp, AdrImm, Rd, PageOf, U64, Signed;
    AdrFieldsDecide(r, t, lo, op, hi, rd);
  }

  // ADRP with a page offset V in range keeps opcode and register and yields the page of P moved by V.
  lemma AdrpYields(w: u32, V: int, P: u64)
    requires IsInt64(32, V) && V % 0x1000 == 0
    ensures PatchAdr(w, V) < 0x1_0000_0000
    ensures IsAdrp(PatchAdr(w, V)) == IsAdrp(w) && Rd(PatchAdr(w, V)) == Rd(w)
    ensures AdrpValue(P, PatchAdr(w, V)) == U64(PageOf(P) + V)
  {
    var t, lo, op, hi, rd := FieldsOfAdr(w);
    var up, vhi, vlo := PageNumberOf(V);
    PatchedAdr(w, t, lo, op, hi, rd, V, up, vhi, vlo);
    AdrpReads(PatchAdr(w, V), t, op, rd, V, up, vhi, vlo, P);
  }

  lemma AdrpAgain(w: u32, V: int)
    requires IsInt64(32, V) && V % 0x1000 == 0
    ensures PatchAdr(w, V) < 0x1_0000_0000
    ensures PatchAdr(PatchAdr(w, V), V) == PatchAdr(w, V)
  {
    var t, lo, op, hi, rd := FieldsOfAdr(w);
    var up, vhi, vlo := PageNumberOf(V);
    PatchedAdr(w, t, lo, op, hi, rd, V, up, vhi, vlo);
    PatchedAdr(PatchAdr(w, V), t, vlo, op, vhi, rd, V, up, vhi, vlo);
  }

  lemma BranchAgain(w: u32, V: int)
    ensures PatchBranch(w, V) < 0x1_0000_0000
    ensures PatchBranch(PatchBranch(w, V), V) == PatchBranch(w, V)
  {
    PatchedBranch(w, V);
    PatchedBranch(PatchBranch(w, V), V);
    QuotRem(PatchBranch(w, V), 0x400_0000, w / 0x400_0000, V / 4 % 0x400_0000);
  }

  // ---- imm12 ----

  ghost predicate ClassFields(w: nat, a: nat, c: nat, v: nat, d: nat, o: nat, l: nat)
  {
    a < 4 && c < 8 && v < 2 && d < 4 && o < 2 && l < 0x80_0000
    && w == a * 0x4000_0000 + c * 0x800_0000 + v * 0x400_0000 + d * 0x100_0000 + o * 0x80_0000 + l
  }

  lemma SplitClass(w: u32) returns (a: nat, c: nat, v: nat, d: nat, o: nat, l: nat)
    ensures ClassFields(w, a, c, v, d, o, l)
  {
    a, l := w / 0x4000_0000, w % 0x4000_0000;
    c, l := l / 0x800_0000, l % 0x800_0000;
    v, l := l / 0x400_0000, l % 0x400_0000;
    d, l := l / 0x100_0000, l % 0x100_0000;
    o, l := l / 0x80_0000, l % 0x80_0000;
  }

  lemma ClassFieldsDecide(w: u32, a: nat, c: nat, v: nat, d: nat, o: nat, l: nat)
    requires ClassFields(w, a, c, v, d, o, l)
    ensures IsLdSt(w) <==> c == 7 && d == 1
    ensures IsSimd(w) <==> v == 1
    ensures w / 0x80_0000 % 2 == o && w / 0x4000_0000 == a
  {
    var e, f, g := a * 8 + c, a * 16 + c * 2 + v, a * 64 + c * 8 + v * 4 + d;
    QuotRem(w, 0x4000_0000, a, w - a * 0x4000_0000);
    QuotRem(w, 0x800_0000, e, w - e * 0x800_0000);
    QuotRem(w, 0x400_0000, f, w - f * 0x400_0000);
    QuotRem(w, 0x100_0000, g, w - g * 0x100_0000);
    QuotRem(w, 0x80_0000, g * 2 + o, l);
  }

  // The bit tests of isLoadStore and isVectorOp recognise the instruction class of the architecture.
  lemma ClassOf(w: u32)
    ensures IsLoadStore(w) <==> IsLdSt(w)
    ensures IsVectorOp(w) <==> IsSimd(w) && w / 0x80_0000 % 2 == 1
  {
    var a, c, v, d, o, l := SplitClass(w);
    ClassFieldsDecide(w, a, c, v, d, o, l);
    ClassMasks(w, a, c, v, d, o, l);
  }

  lemma PatchedImm12(w: u32, V: nat, shift: nat)
    requires V < 0x1000
    ensures PatchImm12(w, V, shift) == w / 0x40_0000 * 0x40_0000 + V / Pow(shift) * 0x400 + w % 0x400
  {
    Imm12Masks(w, w / 0x40_0000, w / 0x400 % 0x1000, w % 0x400);
    Imm12Masks(V / Pow(shift) * 0x400, 0, V / Pow(shift), 0);
    Imm12Or(w, V / Pow(shift) * 0x400);
  }

  // The patched word has the immediate V scaled down; class, size, registers are kept.
  lemma Imm12Placed(w: u32, V: nat, shift: nat)
    requires V < 0x1000
    ensures PatchImm12(w, V, shift) < 0x1_0000_0000
    ensures PatchImm12(w, V, shift) / 0x40_0000 == w / 0x40_0000
    ensures PatchImm12(w, V, shift) % 0x400 == w % 0x400
    ensures Imm12(PatchImm12(w, V, shift)) == V / Pow(shift)
  {
    PatchedImm12(w, V, shift);
    var r, imm := PatchImm12(w, V, shift), V / Pow(shift);
    QuotRem(r, 0x40_0000, w / 0x40_0000, imm * 0x400 + w % 0x400);
    QuotRem(r, 0x400, w / 0x40_0000 * 0x1000 + imm, w % 0x400);
    QuotRem(r / 0x400, 0x1000, w / 0x40_0000, imm);
  }

  // Everything the relocation and the architecture look at lies in bits 31..22.
  lemma TopDecides(w: u32, r: u32)
    requires w / 0x40_0000 == r / 0x40_0000
    ensures IsLdSt(w) == IsLdSt(r) && IsAddImm(w) == IsAddImm(r) && IsLdr64(w) == IsLdr64(r)
    ensures Scale(w) == Scale(r) && ShiftOf(w) == ShiftOf(r)
  {
    DivDiv(w, 0x40_0000, 2);
    DivDiv(r, 0x40_0000, 2);
    DivDiv(w, 0x40_0000, 4);
    DivDiv(r, 0x40_0000, 4);
    DivDiv(w, 0x40_0000, 16);
    DivDiv(r, 0x40_0000, 16);
    DivDiv(w, 0x40_0000, 32);
    DivDiv(r, 0x40_0000, 32);
    DivDiv(w, 0x40_0000, 256);
    DivDiv(r, 0x40_0000, 256);
    ClassOf(w);
    ClassOf(r);
    hide IsLoadStore, IsVectorOp;
  }

  lemma Imm12Again(w: u32, V: nat, shift: nat)
    requires V < 0x1000
    ensures PatchImm12(w, V, shift) < 0x1_0000_0000
    ensures PatchImm12(PatchImm12(w, V, shift), V, shift) == PatchImm12(w, V, shift)
  {
    Imm12Placed(w, V, shift);
    PatchedImm12(w, V, shift);
    PatchedImm12(PatchImm12(w, V, shift), V, shift);
  }

  // Patching a patched place with the same value passes the same checks and changes nothing.
  lemma EncodeAgain(t: nat, w: nat, V: int)
    requires (Width(t) == 4 ==> w < 0x1_0000_0000) && Encode(t, w, V).Ok?
    ensures var r := Encode(t, w, V).value;
      r < Pow2(8 * Width(t)) && (Width(t) == 4 ==> r < 0x1_0000_0000) && Encode(t, r, V) == Ok(r)
  {
    hide PatchAdr, PatchBranch, PatchImm12, ShiftOf, IsInt64, Pow2, Scale, IsLdSt, IsAddImm, IsLdr64;
    LargePowers();
    if IsAdr(t) {
      AdrpAgain(w, V);
    } else if IsBranch(t) {
      BranchAgain(w, V);
    } else if ExpShift(t).Some? {
      Imm12Placed(w, V, ShiftOf(w));
      Imm12Again(w, V, ShiftOf(w));
      TopDecides(w, PatchImm12(w, V, ShiftOf(w)));
    }
  }
}
