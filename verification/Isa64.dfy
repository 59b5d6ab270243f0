// The A64 instructions that the linker writes or patches, as the Arm Architecture Reference Manual
// for ARMv8-A (section C6.2) defines them.
module Isa64 {
  import opened Bits
  import opened Memory
  import opened Results
  import opened Words

  // General registers X0..X30; register number 31 is not one of them.
  datatype Cpu = Cpu(pc: u64, x: map<nat, u64>)

  // ---- fields ----

  function Rd(w: u32): nat { w % 32 }

  function Rn(w: u32): nat { w / 32 % 32 }

  function Imm26(w: u32): nat { w % 0x400_0000 }

  function Imm12(w: u32): nat { w / 0x400 % 0x1000 }

  function Imm16(w: u32): nat { w / 32 % 0x1_0000 }

  function Hw(w: u32): nat { w / 0x20_0000 % 4 }

  // immhi:immlo
  function AdrImm(w: u32): nat { w / 32 % 0x8_0000 * 4 + w / 0x2000_0000 % 4 }

  function Signed(bitsPower: int, v: int): int
  {
    if v < bitsPower / 2 then v else v - bitsPower
  }

  // ---- opcodes ----

  predicate IsB(w: u32) { w / 0x400_0000 == 0x05 }

  predicate IsBl(w: u32) { w / 0x400_0000 == 0x25 }

  predicate IsAdrp(w: u32) { w / 0x8000_0000 == 1 && w / 0x100_0000 % 32 == 0x10 }

  // ADD Xd, Xn, #imm12 (no shift)
  predicate IsAddImm(w: u32) { w / 0x40_0000 == 0x244 }

  predicate IsMovz(w: u32) { w / 0x80_0000 == 0x1a5 }

  predicate IsMovk(w: u32) { w / 0x80_0000 == 0x1e5 }

  predicate IsBr(w: u32) { w / 0x400 == 0x3587c0 && w % 32 == 0 }

  // loads and stores with unsigned immediate offset
  predicate IsLdSt(w: u32) { w / 0x800_0000 % 8 == 7 && w / 0x100_0000 % 4 == 1 }

  predicate IsSimd(w: u32) { w / 0x400_0000 % 2 == 1 }

  // LDR Xt, [Xn, #pimm]
  predicate IsLdr64(w: u32) { w / 0x40_0000 == 0x3e5 }

  // log2 of the access size in bytes: size, or opc<1>:size for a SIMD&FP register
  function Scale(w: u32): nat
  {
    if IsSimd(w) && w / 0x80_0000 % 2 == 1 then 4 + w / 0x4000_0000 else w / 0x4000_0000
  }

  function Pow(scale: nat): int
  {
    if scale == 0 then 1 else if scale == 1 then 2 else if scale == 2 then 4 else if scale == 3 then 8 else 16
  }

  // ---- effects ----

  function BranchTarget(pc: u64, w: u32): u64
  {
    U64(pc + Signed(0x400_0000, Imm26(w)) * 4)
  }

  function PageOf(a: u64): u64 { a - a % 0x1000 }

  function AdrpValue(pc: u64, w: u32): u64
  {
    U64(PageOf(pc) + Signed(0x20_0000, AdrImm(w)) * 0x1000)
  }

  // the address a load or store with unsigned immediate accesses
  function LdStAddress(base: u64, w: u32): u64
  {
    U64(base + Imm12(w) * Pow(Scale(w)))
  }

  // insert a half word
  function Keep(old_: u64, hw: nat, imm16: nat): u64
    requires hw < 4 && imm16 < 0x1_0000
  {
    if hw == 0 then old_ / 0x1_0000 * 0x1_0000 + imm16
    else if hw == 1 then old_ / 0x1_0000_0000 * 0x1_0000_0000 + imm16 * 0x1_0000 + old_ % 0x1_0000
    else if hw == 2 then old_ / 0x1_0000_0000_0000 * 0x1_0000_0000_0000 + imm16 * 0x1_0000_0000 + old_ % 0x1_0000_0000
    else imm16 * 0x1_0000_0000_0000 + old_ % 0x1_0000_0000_0000
  }

  // One instruction; None for everything this machine does not know.
  function Execute(m: Mem, c: Cpu, w: u32): Option<Cpu>
  {
    var next := U64(c.pc + 4);
    if IsB(w) then Some(c.(pc := BranchTarget(c.pc, w)))
    else if IsBl(w) then Some(Cpu(BranchTarget(c.pc, w), c.x[30 := next]))
    else if IsBr(w) then
      if Rn(w) in c.x then Some(c.(pc := c.x[Rn(w)])) else None
    else if Rd(w) == 31 then None
    else if IsAdrp(w) then Some(Cpu(next, c.x[Rd(w) := AdrpValue(c.pc, w)]))
    else if IsMovz(w) then Some(Cpu(next, c.x[Rd(w) := Keep(0, Hw(w), Imm16(w))]))
    else if IsMovk(w) then
      if Rd(w) in c.x then Some(Cpu(next, c.x[Rd(w) := Keep(c.x[Rd(w)], Hw(w), Imm16(w))])) else None
    else if Rn(w) == 31 || Rn(w) !in c.x then None
    else if IsAddImm(w) then Some(Cpu(next, c.x[Rd(w) := U64(c.x[Rn(w)] + Imm12(w))]))
    else if IsLdr64(w) then
      var a := LdStAddress(c.x[Rn(w)], w);
      if IsMapped(m, a, 8) then Some(Cpu(next, c.x[Rd(w) := Read64(m, a)])) else None
    else None
  }

  // 64-bit load
  function Read64(m: Mem, a: int): u64
    requires Mapped(m, a, 8)
  {
    NumberOfBytes(Load(m, a, 8));
    LargePowers();
    Read(m, a, 8)
  }

  // fetch an instruction
  function Read32(m: Mem, a: int): u32
    requires Mapped(m, a, 4)
  {
    NumberOfBytes(Load(m, a, 4));
    LargePowers();
    Read(m, a, 4)
  }

  function Step(m: Mem, c: Cpu): Option<Cpu>
  {
    if IsMapped(m, c.pc, 4) then Execute(m, c, Read32(m, c.pc)) else None
  }

  function Run(m: Mem, c: Cpu, n: nat): Option<Cpu>
    decreases n
  {
    if n == 0 then Some(c)
    else match Step(m, c)
      case None => None
      case Some(d) => Run(m, d, n - 1)
  }
}
