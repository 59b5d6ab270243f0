// elf/plt/arm.c: the three-instruction trampoline through r12, and its execution.
module PltArm {
  import opened Bits
  import opened Memory
  import opened Results
  import opened Words
  import opened Isa32

  const MOVW_R12 := 0xe300c000
  const MOVT_R12 := 0xe340c000
  const BX_R12 := 0xe12fff1c

  // movw or movt with the low 16 bits of half as immediate
  function Move(base: nat, half: nat): nat
  {
    Or(Or(base, And(half, 0xf000) * 16), And(half, 0x0fff))
  }

  function Code(target: u32): (ws: seq<nat>)
    ensures |ws| == 3
  {
    [Move(MOVW_R12, target), Move(MOVT_R12, target / 0x1_0000), BX_R12]
  }

  // The opcode and register of a move leave room for imm4 and imm12.
  lemma OutsideImm16(base: nat, top: nat)
    requires top < 0x1000 && base == top * 0x10_0000 + 0xc000
    ensures And(base, 0xfff0_f000) == base
  {
    hide And;
    Powers();
    assert Pow2(20) == 0x10_0000 by { LargePowers(); Pow2Add(4, 16); }
    FieldMask(0xfff0_0000, 0xf000, 0xfff0, 0, 0, 4, 12, 16, 0x1000);
    AndSum(base, 0xfff0_0000, 0xf000);
    FieldMask(base, 0xfff0_0000, 0, top, 0xc000, 12, 20, 0x1000, 0x10_0000);
    FieldMask(base, 0xf000, top * 16, 12, 0, 4, 12, 16, 0x1000);
  }

  lemma AboveImm12(s: nat, top: nat)
    requires top < 0x10_0000 && s == top * 0x1000
    ensures And(s, 0xffff_f000) == s
  {
    hide And;
    Powers();
    assert Pow2(20) == 0x10_0000 by { LargePowers(); Pow2Add(4, 16); }
    FieldMask(s, 0xffff_f000, 0, top, 0, 20, 12, 0x10_0000, 0x1000);
  }

  lemma MoveWord(base: nat, top: nat, half: nat, q: nat, imm4: nat, imm12: nat)
    requires top < 0x1000 && base == top * 0x10_0000 + 0xc000
    requires imm4 < 16 && imm12 < 0x1000 && half == (q * 16 + imm4) * 0x1000 + imm12
    ensures Move(base, half) == base + imm4 * 0x1_0000 + imm12
  {
    hide And, Or;
    Powers();
    LargePowers();
    FieldMask(half, 0xf000, q, imm4, imm12, 4, 12, 16, 0x1000);
    FieldMask(half, 0x0fff, q * 16 + imm4, imm12, 0, 12, 0, 0x1000, 1);
    OutsideImm16(base, top);
    FieldMask(imm4 * 0x1_0000, 0xf_0000, 0, imm4, 0, 4, 16, 16, 0x1_0000);
    FieldMask(0xfff0_f000, 0xf_0000, 0xfff, 0, 0xf000, 4, 16, 16, 0x1_0000);
    OrOfMasked(base, 0xfff0_f000, imm4 * 0x1_0000, 0xf_0000);
    var s := base + imm4 * 0x1_0000;
    AboveImm12(s, top * 0x100 + imm4 * 16 + 12);
    FieldMask(0xffff_f000, 0x0fff, 0xf_ffff, 0, 0, 12, 0, 0x1000, 1);
    OrOfMasked(s, 0xffff_f000, half, 0x0fff);
  }

  lemma CodeWords(target: u32)
    ensures Code(target)[0] == MOVW_R12 + target / 0x1000 % 16 * 0x1_0000 + target % 0x1000
    ensures Code(target)[1] == MOVT_R12 + target / 0x1000_0000 * 0x1_0000 + target / 0x1_0000 % 0x1000
    ensures Code(target)[2] == BX_R12
  {
    hide Move;
    var t := target / 0x1_0000;
    assert target / 0x1000 == t * 16 + target / 0x1000 % 16;
    MoveWord(MOVW_R12, 0xe30, target, t, target / 0x1000 % 16, target % 0x1000);
    MoveWord(MOVT_R12, 0xe34, t, 0, t / 0x1000, t % 0x1000);
    assert t / 0x1000 == target / 0x1000_0000;
  }

  lemma CodeFits(target: u32)
    ensures forall i :: 0 <= i < 3 ==> Code(target)[i] < 0x1_0000_0000
  {
    CodeWords(target);
    hide Code;
  }

  lemma MoveFields(w: u32, op: nat, imm4: nat, imm12: nat)
    requires (op == 0xe30 || op == 0xe34) && imm4 < 16 && imm12 < 0x1000
    requires w == op * 0x10_0000 + imm4 * 0x1_0000 + 0xc000 + imm12
    ensures Cond(w) == 14 && Rd(w) == 12 && Imm16(w) == imm4 * 0x1000 + imm12
    ensures w / 0x10_0000 == op && !IsBranch(w) && !IsBx(w)
  {
    QuotRem(w, 0x1000_0000, 14, w - 14 * 0x1000_0000);
    QuotRem(w, 0x10_0000, op, imm4 * 0x1_0000 + 0xc000 + imm12);
    QuotRem(w, 0x1_0000, op * 16 + imm4, 0xc000 + imm12);
    QuotRem(w, 0x1000, (op * 16 + imm4) * 16 + 12, imm12);
    QuotRem(w, 0x200_0000, op / 32, w - op / 32 * 0x200_0000);
    QuotRem(w, 16, op * 0x1_0000 + imm4 * 0x1000 + 0xc00 + imm12 / 16, imm12 % 16);
    QuotRem(w / 16, 0x100_0000, 14, w / 16 - 14 * 0x100_0000);
  }

  ghost predicate HasWord(m: Mem, at: int, w: nat)
  {
    Mapped(m, at, 4) && Read(m, at, 4) == w
  }

  ghost predicate HasCode(m: Mem, at: int, target: u32)
  {
    forall i :: 0 <= i < 3 ==> HasWord(m, at + 4 * i, Code(target)[i])
  }

  lemma ExecuteMove(c: Cpu, w: u32, op: nat, imm4: nat, imm12: nat)
    requires (op == 0xe30 || op == 0xe34) && imm4 < 16 && imm12 < 0x1000 && 12 in c.r
    requires w == op * 0x10_0000 + imm4 * 0x1_0000 + 0xc000 + imm12
    ensures Execute(c, w) == Some(Cpu(U32(c.pc + 4), c.r[12 :=
      if op == 0xe30 then imm4 * 0x1000 + imm12 else (imm4 * 0x1000 + imm12) * 0x1_0000 + c.r[12] % 0x1_0000]))
  {
    MoveFields(w, op, imm4, imm12);
    hide IsBranch, IsBx, Rd, Imm16, Cond;
  }

  lemma ExecuteBx(c: Cpu)
    requires 12 in c.r && c.r[12] % 4 == 0
    ensures Execute(c, BX_R12) == Some(c.(pc := c.r[12]))
  {
  }

  // Started at its first instruction, the trampoline arrives at its 4-aligned target after three
  // instructions, whatever the registers held; only r12 is lost.
  lemma StubJumps(m: Mem, r: map<nat, u32>, at: u32, target: u32)
    requires HasCode(m, at, target) && at + 12 <= 0x1_0000_0000 && 12 in r && target % 4 == 0
    ensures Run(m, Cpu(at, r), 3) == Some(Cpu(target, r[12 := target]))
  {
    CodeWords(target);
    hide Code, Execute;
    var low, high := target / 0x1000 % 16 * 0x1000 + target % 0x1000, target / 0x1_0000;
    assert high == target / 0x1000_0000 * 0x1000 + high % 0x1000;
    assert target == high * 0x1_0000 + low;
    var c, c1, c2 := Cpu(at, r), Cpu(at + 4, r[12 := low]), Cpu(at + 8, r[12 := target]);
    assert Step(m, c) == Some(c1) by {
      assert HasWord(m, at + 4 * 0, Code(target)[0]);
      ExecuteMove(c, Fetch(m, at), 0xe30, target / 0x1000 % 16, target % 0x1000);
    }
    assert Step(m, c1) == Some(c2) by {
      assert HasWord(m, at + 4 * 1, Code(target)[1]);
      ExecuteMove(c1, Fetch(m, at + 4), 0xe34, target / 0x1000_0000, target / 0x1_0000 % 0x1000);
      assert c1.r[12 := target] == r[12 := target];
    }
    assert Step(m, c2) == Some(Cpu(target, r[12 := target])) by {
      assert HasWord(m, at + 4 * 2, Code(target)[2]);
      ExecuteBx(c2);
    }
    hide Step;
    assert Run(m, c2, 1) == Some(Cpu(target, r[12 := target]));
    assert Run(m, c1, 2) == Some(Cpu(target, r[12 := target]));
  }
}
