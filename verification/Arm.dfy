// elf/reloc/arm.c and elf/plt/arm.c as functions: implicit addends, the value of a relocation, the patched place.
module Arm {
  import opened Bits
  import opened Results
  import opened Words
  import opened Isa32
  import opened Types

  const PC24 := 0x01
  const ABS32 := 0x02
  const REL32 := 0x03
  const ABS16 := 0x05
  const ABS8 := 0x08
  const SBREL32 := 0x09
  const THM_CALL := 0x0a
  const GOTOFF32 := 0x18
  const BASE_PREL := 0x19
  const GOT_BREL := 0x1a
  const CALL := 0x1c
  const JUMP24 := 0x1d
  const THM_JUMP24 := 0x1e
  const BASE_ABS := 0x1f
  const TARGET1 := 0x26
  const PREL31 := 0x2a
  const THM_JUMP19 := 0x33
  const ABS32_NOI := 0x37
  const REL32_NOI := 0x38
  const PLT32_ABS := 0x5e
  const GOT_ABS := 0x5f
  const GOT_PREL := 0x60
  const TLS_GD32 := 0x68
  const TLS_LDM32 := 0x69
  const TLS_LDO32 := 0x6a
  const TLS_IE32 := 0x6b
  const TLS_LE32 := 0x6c
  const TLS_LDO12 := 0x6d
  const TLS_LE12 := 0x6e

  predicate IsCall(t: nat) { t == CALL || t == JUMP24 }

  // the relocations whose place is a whole data word
  predicate IsData(t: nat)
  {
    t in {ABS32, REL32, SBREL32, GOTOFF32, BASE_PREL, GOT_BREL, BASE_ABS, TARGET1,
          ABS32_NOI, REL32_NOI, PLT32_ABS, GOT_ABS, GOT_PREL,
          TLS_GD32, TLS_LDM32, TLS_LDO32, TLS_IE32, TLS_LE32, TLS_LDO12, TLS_LE12,
          ABS16, ABS8, PREL31}
  }

  // need_stub_for_rel_arm and need_stub_for_rela_arm
  predicate NeedStub(t: nat)
  {
    t in {PC24, CALL, JUMP24, THM_CALL, THM_JUMP24, THM_JUMP19}
  }

  // ---- decodeAddend_arm ----

  predicate IsBlx(w: u32) { w / 0x1000_0000 == 0xf }

  // The word is no BLX to a halfword, the case that decoding refuses.
  predicate Decodes(w: u32) { !(IsBlx(w) && And(w, 0x0100_0000) != 0) }

  function Decode(t: nat, w: u32): Result<int>
  {
    if IsCall(t) then
      if !Decodes(w) then Abort
      else Ok(SignExtend32(26, U32(And(w, 0x00ffffff) * 4)))
    else if IsData(t) then Ok(S32(w))
    else Abort
  }

  // ---- compute_addend ----

  const BIAS := 8

  function Compute(t: nat, P: u32, S: u32, GotS: u32, A: int): Result<Plan>
  {
    if S == 0 || P == 0 then Abort
    else if t == ABS32 then Ok(Direct(S32(S + A)))
    else if t == REL32 || t == PREL31 then Ok(Direct(S32(S + A - P)))
    else if IsCall(t) then
      var V := S32(U32(S + A) - P);
      if IsInt32(26, V) then Ok(Direct(V)) else Ok(Via(U32(U32(S + A) + BIAS), -BIAS))
    else if t == GOT_PREL then
      if GotS == 0 then Abort else Ok(Direct(S32(GotS + A - P)))
    else Abort
  }

  // The value of a branch that goes through the stub at address at
  function ViaStub(P: u32, at: u32, adjust: int): Result<int>
  {
    var V := S32(at + adjust - P);
    if IsInt32(26, V) then Ok(V) else Abort
  }

  // ---- encodeAddend_arm ----

  function PatchBranch(w: u32, V: int): nat
  {
    var imm24 := And(U32(V), 0x03fffffc) / 4;
    Or(And(w, 0xff000000), And(imm24, 0x00ffffff))
  }

  // An unknown type is refused with a status that the pass ignores: the word stays.
  function Encode(t: nat, w: u32, V: int): Result<nat>
  {
    if IsCall(t) then
      if IsInt32(26, V) then Ok(PatchBranch(w, V)) else Abort
    else if IsData(t) then Ok(U32(V))
    else Ok(w)
  }

  // ---- what decoding reads and encoding writes ----

  lemma Branch24(w: nat, top: nat, imm: nat)
    requires top < 0x100 && imm < 0x100_0000 && w == top * 0x100_0000 + imm
    ensures And(w, 0xff000000) == top * 0x100_0000
    ensures And(w, 0x00ffffff) == imm
  {
    Powers();
    LargePowers();
    FieldMask(w, 0xff000000, 0, top, imm, 8, 24, 0x100, 0x100_0000);
    FieldMask(w, 0x00ffffff, top, imm, 0, 24, 0, 0x100_0000, 1);
  }

  lemma WordOffset(V: int)
    ensures U32(V) == (U32(V) / 0x400_0000 * 0x100_0000 + V / 4 % 0x100_0000) * 4 + U32(V) % 4
  {
    var u := U32(V);
    assert u / 4 % 0x100_0000 == V / 4 % 0x100_0000;
  }

  lemma ImmediateOffset(imm: nat)
    requires imm < 0x100_0000
    ensures IsInt32(26, Signed24(imm) * 4) && Signed24(imm) * 4 / 4 % 0x100_0000 == imm
  {
    Ranges(Signed24(imm) * 4);
    hide IsInt32;
    assert Signed24(imm) * 4 / 4 == Signed24(imm);
  }

  lemma PatchedBranch(w: u32, V: int)
    ensures PatchBranch(w, V) == w / 0x100_0000 * 0x100_0000 + V / 4 % 0x100_0000
  {
    hide And, Or;
    var u, imm := U32(V), V / 4 % 0x100_0000;
    WordOffset(V);
    Powers();
    LargePowers();
    FieldMask(u, 0x03fffffc, u / 0x400_0000, imm, u % 4, 24, 2, 0x100_0000, 4);
    Branch24(w, w / 0x100_0000, w % 0x100_0000);
    Branch24(imm, 0, imm);
    Branch24(0xff000000, 0xff, 0);
    OrOfMasked(w, 0xff000000, imm, 0x00ffffff);
  }

  lemma DecodedBranch(t: nat, w: u32)
    requires IsCall(t)
    ensures Decode(t, w) == if Decodes(w) then Ok(Signed24(Imm24(w)) * 4) else Abort
  {
    hide And, Decodes, SignExtend32;
    Branch24(w, w / 0x100_0000, w % 0x100_0000);
    SignExtended(w % 0x100_0000);
  }

  lemma SignExtended(i: nat)
    requires i < 0x100_0000
    ensures U32(i * 4) == i * 4 && SignExtend32(26, i * 4) == Signed24(i) * 4
  {
    Powers();
  }

  lemma OffsetImmediate(V: int)
    requires IsInt32(26, V)
    ensures Signed24(V / 4 % 0x100_0000) * 4 == V - V % 4
  {
    Ranges(V);
  }

  // Whether a word decodes is decided by its top byte.
  lemma TopDecodes(w: u32)
    ensures Decodes(w) <==> !(w / 0x100_0000 / 16 == 0xf && w / 0x100_0000 % 2 == 1)
  {
    hide And;
    var top := w / 0x100_0000;
    Powers();
    LargePowers();
    FieldMask(w, 0x0100_0000, top / 2, top % 2, w % 0x100_0000, 1, 24, 2, 0x100_0000);
    DivDiv(w, 0x100_0000, 16);
  }

  lemma KeepsTop(w: u32, r: u32, imm: nat)
    requires imm < 0x100_0000 && r == w / 0x100_0000 * 0x100_0000 + imm
    ensures r / 0x100_0000 == w / 0x100_0000 && Decodes(r) == Decodes(w) && Imm24(r) == imm
  {
    hide And, Decodes;
    QuotRem(r, 0x100_0000, w / 0x100_0000, imm);
    TopDecodes(w);
    TopDecodes(r);
  }

  // Decoding gives back what was encoded, down to a multiple of 4, for every offset the range check accepts.
  lemma DecodeEncoded(t: nat, w: u32, V: int)
    requires IsCall(t) && Decode(t, w).Ok? && IsInt32(26, V)
    ensures PatchBranch(w, V) < 0x1_0000_0000
    ensures Decode(t, PatchBranch(w, V)) == Ok(V - V % 4)
  {
    PatchedBranch(w, V);
    var r, imm := PatchBranch(w, V), V / 4 % 0x100_0000;
    hide PatchBranch, And, Decodes, Imm24, IsInt32, Decode;
    OffsetImmediate(V);
    KeepsTop(w, r, imm);
    DecodedBranch(t, w);
    DecodedBranch(t, r);
  }

  // Encoding what was decoded leaves the instruction as it was.
  lemma EncodeDecoded(t: nat, w: u32)
    requires IsCall(t) && Decode(t, w).Ok?
    ensures Encode(t, w, Decode(t, w).value) == Ok(w)
  {
    DecodedBranch(t, w);
    var V := Signed24(Imm24(w)) * 4;
    ImmediateOffset(Imm24(w));
    PatchedBranch(w, V);
    hide PatchBranch, Decode, Signed24, IsInt32, Decodes;
  }

  // A branch with the offset V, in range and 4-aligned, keeps its opcode and goes to P + 8 + V.
  lemma BranchGoesTo(w: u32, V: int, P: u32)
    requires IsInt32(26, V) && V % 4 == 0
    ensures PatchBranch(w, V) < 0x1_0000_0000
    ensures PatchBranch(w, V) / 0x100_0000 == w / 0x100_0000
    ensures BranchTarget(P, PatchBranch(w, V)) == U32(P + 8 + V)
  {
    PatchedBranch(w, V);
    hide PatchBranch;
    var imm := V / 4 % 0x100_0000;
    OffsetImmediate(V);
    QuotRem(PatchBranch(w, V), 0x100_0000, w / 0x100_0000, imm);
  }

  // Patching a patched place with the same value passes the same checks and changes nothing.
  lemma EncodeAgain(t: nat, w: u32, V: int)
    requires Encode(t, w, V).Ok?
    ensures var r := Encode(t, w, V).value;
      r < 0x1_0000_0000 && Encode(t, r, V) == Ok(r)
  {
    if IsCall(t) {
      PatchedBranch(w, V);
      hide PatchBranch;
      var r := PatchBranch(w, V);
      QuotRem(r, 0x100_0000, w / 0x100_0000, V / 4 % 0x100_0000);
      PatchedBranch(r, V);
    }
  }
}
