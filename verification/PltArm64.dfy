// elf/plt/arm64.c: the five-instruction trampoline through x16, and its execution.
module PltArm64 {
  import opened Bits
  import opened Memory
  import opened Results
  import opened Words
  import opened Isa64

  const MOVZ_HW3_X16 := 0xd2e00010
  const MOVK_HW2_X16 := 0xf2c00010
  const MOVK_HW1_X16 := 0xf2a00010
  const MOVK_HW0_X16 := 0xf2800010
  const BR_X16 := 0xd61f0200

  // the half word n of an address
  function HalfWord(a: u64, n: nat): (h: nat)
    requires n < 4
    ensures h < 0x1_0000
  {
    if n == 0 then a % 0x1_0000
    else if n == 1 then a / 0x1_0000 % 0x1_0000
    else if n == 2 then a / 0x1_0000_0000 % 0x1_0000
    else a / 0x1_0000_0000_0000
  }

  function Code(target: u64): (ws: seq<nat>)
    ensures |ws| == 5
  {
    [Or(MOVZ_HW3_X16, HalfWord(target, 3) * 32),
     Or(MOVK_HW2_X16, HalfWord(target, 2) * 32),
     Or(MOVK_HW1_X16, HalfWord(target, 1) * 32),
     Or(MOVK_HW0_X16, HalfWord(target, 0) * 32),
     BR_X16]
  }

  // base has zeros where the immediate goes
  lemma OutsideImm16(base: nat, top: nat)
    requires top < 0x800 && base == top * 0x20_0000 + 16
    ensures And(base, 0xffe0_001f) == base
  {
    hide And;
    Powers();
    Pow2Add(1, 10);
    assert Pow2(21) == 0x20_0000 by { LargePowers(); Pow2Add(5, 16); }
    FieldMask(0xffe0_0000, 0x1f, 0x7ff_0000, 0, 0, 5, 0, 32, 1);
    AndSum(base, 0xffe0_0000, 0x1f);
    FieldMask(base, 0xffe0_0000, 0, top, 16, 11, 21, 0x800, 0x20_0000);
    FieldMask(base, 0x1f, top * 0x1_0000, 16, 0, 5, 0, 32, 1);
  }

  lemma MoveOr(base: nat, top: nat, imm: nat)
    requires top < 0x800 && imm < 0x1_0000 && base == top * 0x20_0000 + 16
    ensures Or(base, imm * 32) == base + imm * 32
  {
    hide And, Or;
    Powers();
    LargePowers();
    OutsideImm16(base, top);
    FieldMask(imm * 32, 0x1f_ffe0, 0, imm, 0, 16, 5, 0x1_0000, 32);
    FieldMask(0xffe0_001f, 0x1f_ffe0, 0x7ff, 0, 0x1f, 16, 5, 0x1_0000, 32);
    OrOfMasked(base, 0xffe0_001f, imm * 32, 0x1f_ffe0);
  }

  lemma CodeWords(target: u64)
    ensures Code(target)[0] == MOVZ_HW3_X16 + HalfWord(target, 3) * 32
    ensures Code(target)[1] == MOVK_HW2_X16 + HalfWord(target, 2) * 32
    ensures Code(target)[2] == MOVK_HW1_X16 + HalfWord(target, 1) * 32
    ensures Code(target)[3] == MOVK_HW0_X16 + HalfWord(target, 0) * 32
    ensures Code(target)[4] == BR_X16
  {
    hide Or, HalfWord;
    MoveOr(MOVZ_HW3_X16, 0x697, HalfWord(target, 3));
    MoveOr(MOVK_HW2_X16, 0x796, HalfWord(target, 2));
    MoveOr(MOVK_HW1_X16, 0x795, HalfWord(target, 1));
    MoveOr(MOVK_HW0_X16, 0x794, HalfWord(target, 0));
  }

  lemma CodeFits(target: u64)
    ensures forall i :: 0 <= i < 5 ==> Code(target)[i] < 0x1_0000_0000
  {
    CodeWords(target);
    hide Code;
  }

  lemma MoveFields(w: u32, op: nat, hw: nat, imm: nat)
    requires (op == 0x1a5 || op == 0x1e5) && hw < 4 && imm < 0x1_0000
    requires w == op * 0x80_0000 + hw * 0x20_0000 + imm * 32 + 16
    ensures w / 0x80_0000 == op && Rd(w) == 16 && Hw(w) == hw && Imm16(w) == imm
    ensures !IsB(w) && !IsBl(w) && !IsBr(w) && !IsAdrp(w)
  {
    QuotRem(w, 0x80_0000, op, hw * 0x20_0000 + imm * 32 + 16);
    QuotRem(w, 0x20_0000, op * 4 + hw, imm * 32 + 16);
    QuotRem(w, 32, (op * 4 + hw) * 0x1_0000 + imm, 16);
    QuotRem(w, 0x400_0000, op / 8, op % 8 * 0x80_0000 + hw * 0x20_0000 + imm * 32 + 16);
    QuotRem(w, 0x100_0000, op / 2, op % 2 * 0x80_0000 + hw * 0x20_0000 + imm * 32 + 16);
  }

  lemma ExecuteMove(m: Mem, c: Cpu, w: u32, op: nat, hw: nat, imm: nat)
    requires (op == 0x1a5 || op == 0x1e5) && hw < 4 && imm < 0x1_0000 && 16 in c.x
    requires w == op * 0x80_0000 + hw * 0x20_0000 + imm * 32 + 16
    ensures Execute(m, c, w)
         == Some(Cpu(U64(c.pc + 4), c.x[16 := Keep(if op == 0x1a5 then 0 else c.x[16], hw, imm)]))
  {
    MoveFields(w, op, hw, imm);
    hide IsB, IsBl, IsBr, IsAdrp, Rd, Hw, Imm16, Keep;
  }

  lemma ExecuteBr(m: Mem, c: Cpu)
    requires 16 in c.x
    ensures Execute(m, c, BR_X16) == Some(c.(pc := c.x[16]))
  {
  }

  lemma HalvesOf(a: u64)
    ensures a == HalfWord(a, 3) * 0x1_0000_0000_0000 + HalfWord(a, 2) * 0x1_0000_0000
                 + HalfWord(a, 1) * 0x1_0000 + HalfWord(a, 0)
  {
    assert a / 0x1_0000_0000 == HalfWord(a, 3) * 0x1_0000 + HalfWord(a, 2);
    assert a / 0x1_0000 == a / 0x1_0000_0000 * 0x1_0000 + HalfWord(a, 1);
  }

  lemma KeepInZeros2(k: nat, imm: nat)
    requires k < 0x1_0000 && imm < 0x1_0000
    ensures Keep(k * 0x1_0000_0000_0000, 2, imm) == k * 0x1_0000_0000_0000 + imm * 0x1_0000_0000
  {
    QuotRem(k * 0x1_0000_0000_0000, 0x1_0000_0000_0000, k, 0);
    QuotRem(k * 0x1_0000_0000_0000, 0x1_0000_0000, k * 0x1_0000, 0);
  }

  lemma KeepInZeros1(k: nat, imm: nat)
    requires k < 0x1_0000_0000 && imm < 0x1_0000
    ensures Keep(k * 0x1_0000_0000, 1, imm) == k * 0x1_0000_0000 + imm * 0x1_0000
  {
    QuotRem(k * 0x1_0000_0000, 0x1_0000_0000, k, 0);
    QuotRem(k * 0x1_0000_0000, 0x1_0000, k * 0x1_0000, 0);
  }

  lemma KeepInZeros0(k: nat, imm: nat)
    requires k < 0x1_0000_0000_0000 && imm < 0x1_0000
    ensures Keep(k * 0x1_0000, 0, imm) == k * 0x1_0000 + imm
  {
  }

  // x16 after i of the four moves
  function Partial(a: u64, i: nat): u64
    requires 0 < i <= 4
  {
    Keep(if i == 1 then 0 else Partial(a, i - 1), 4 - i, HalfWord(a, 4 - i))
  }

  // movz and three movk leave the whole address in the register.
  lemma HalvesMakeAddress(a: u64)
    ensures Partial(a, 4) == a
  {
    HalvesOf(a);
    assert Partial(a, 1) == HalfWord(a, 3) * 0x1_0000_0000_0000;
    hide HalfWord, Keep;
    var h3, h2, h1, h0 := HalfWord(a, 3), HalfWord(a, 2), HalfWord(a, 1), HalfWord(a, 0);
    KeepInZeros2(h3, h2);
    KeepInZeros1(h3 * 0x1_0000 + h2, h1);
    KeepInZeros0(h3 * 0x1_0000_0000 + h2 * 0x1_0000 + h1, h0);
    assert Partial(a, 2) == h3 * 0x1_0000_0000_0000 + h2 * 0x1_0000_0000;
    assert Partial(a, 3) == h3 * 0x1_0000_0000_0000 + h2 * 0x1_0000_0000 + h1 * 0x1_0000;
  }

  // ---- the code in memory ----

  ghost predicate HasWord(m: Mem, at: int, w: nat)
  {
    Mapped(m, at, 4) && Read(m, at, 4) == w
  }

  // the machine i moves into the trampoline
  function Inside(x: map<nat, u64>, at: int, target: u64, i: nat): Cpu
    requires i <= 4 && 0 <= at && at + 20 <= 0x1_0000_0000_0000
  {
    Cpu(at + 4 * i, if i == 0 then x else x[16 := Partial(target, i)])
  }

  lemma OneMove(m: Mem, x: map<nat, u64>, at: int, target: u64, i: nat)
    requires i < 4 && 16 in x && 0 <= at && at + 20 <= 0x1_0000_0000_0000
    requires HasWord(m, at + 4 * i, Code(target)[i])
    ensures Step(m, Inside(x, at, target, i)) == Some(Inside(x, at, target, i + 1))
  {
    CodeWords(target);
    hide Code, Execute, HalfWord, Keep;
    var c := Inside(x, at, target, i);
    ExecuteMove(m, c, Read32(m, c.pc), if i == 0 then 0x1a5 else 0x1e5, 3 - i, HalfWord(target, 3 - i));
    assert c.x[16 := Partial(target, i + 1)] == x[16 := Partial(target, i + 1)];
  }

  lemma LastBranch(m: Mem, x: map<nat, u64>, at: int, target: u64)
    requires 0 <= at && at + 20 <= 0x1_0000_0000_0000
    requires HasWord(m, at + 16, Code(target)[4])
    ensures Step(m, Inside(x, at, target, 4)) == Some(Cpu(target, x[16 := target]))
  {
    ExecuteBr(m, Inside(x, at, target, 4));
    HalvesMakeAddress(target);
    CodeWords(target);
    hide Code, Execute, Partial;
  }

  ghost predicate HasCode(m: Mem, at: int, target: u64)
  {
    forall i :: 0 <= i < 5 ==> HasWord(m, at + 4 * i, Code(target)[i])
  }

  // Started at its first instruction, the trampoline arrives at its target after five instructions,
  // whatever the registers held; only x16 is lost.
  lemma StubJumps(m: Mem, x: map<nat, u64>, at: int, target: u64)
    requires HasCode(m, at, target) && 0 <= at && at + 20 <= 0x1_0000_0000_0000 && 16 in x
    ensures Run(m, Cpu(at, x), 5) == Some(Cpu(target, x[16 := target]))
  {
    hide Code, Step, HasWord;
    OneMove(m, x, at, target, 0);
    OneMove(m, x, at, target, 1);
    OneMove(m, x, at, target, 2);
    OneMove(m, x, at, target, 3);
    assert HasWord(m, at + 4 * 4, Code(target)[4]);
    LastBranch(m, x, at, target);
    hide Inside;
    assert Run(m, Inside(x, at, target, 4), 1) == Some(Cpu(target, x[16 := target]));
    assert Run(m, Inside(x, at, target, 3), 2) == Some(Cpu(target, x[16 := target]));
    assert Run(m, Inside(x, at, target, 2), 3) == Some(Cpu(target, x[16 := target]));
    assert Run(m, Inside(x, at, target, 1), 4) == Some(Cpu(target, x[16 := target]));
  }
}
