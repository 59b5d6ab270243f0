// The A32 instructions that the linker writes or patches, as the Arm Architecture Reference Manual
// for ARMv7-A (section A8.8) defines them. A condition other than "unconditional" is taken to hold.
module Isa32 {
  import opened Bits
  import opened Memory
  import opened Results
  import opened Words

  // registers r0..r14; an instruction at pc reads pc + 8 as the program counter
  datatype Cpu = Cpu(pc: u32, r: map<nat, u32>)

  function Cond(w: u32): nat { w / 0x1000_0000 }

  function Imm24(w: u32): nat { w % 0x100_0000 }

  function Rd(w: u32): nat { w / 0x1000 % 16 }

  // imm4:imm12
  function Imm16(w: u32): nat { w / 0x1_0000 % 16 * 0x1000 + w % 0x1000 }

  function Signed24(v: int): int { if v < 0x80_0000 then v else v - 0x100_0000 }

  // B and BL; with condition 1111 the encoding is BLX, which leaves the A32 state
  predicate IsBranch(w: u32) { Cond(w) != 15 && w / 0x200_0000 % 8 == 5 }

  predicate Links(w: u32) { w / 0x100_0000 % 2 == 1 }

  predicate IsMovw(w: u32) { Cond(w) != 15 && w / 0x10_0000 % 0x100 == 0x30 }

  predicate IsMovt(w: u32) { Cond(w) != 15 && w / 0x10_0000 % 0x100 == 0x34 }

  predicate IsBx(w: u32) { Cond(w) != 15 && w / 16 % 0x100_0000 == 0x12fff1 }

  function BranchTarget(pc: u32, w: u32): u32
  {
    U32(pc + 8 + Signed24(Imm24(w)) * 4)
  }

  // One instruction; None for everything this machine does not know, leaving A32 state included.
  function Execute(c: Cpu, w: u32): Option<Cpu>
  {
    var next := U32(c.pc + 4);
    if IsBranch(w) then Some(Cpu(BranchTarget(c.pc, w), if Links(w) then c.r[14 := next] else c.r))
    else if IsBx(w) then
      var rm := w % 16;
      if rm in c.r && c.r[rm] % 4 == 0 then Some(c.(pc := c.r[rm])) else None
    else if Rd(w) == 15 then None
    else if IsMovw(w) then Some(Cpu(next, c.r[Rd(w) := Imm16(w)]))
    else if IsMovt(w) then
      if Rd(w) in c.r then Some(Cpu(next, c.r[Rd(w) := Imm16(w) * 0x1_0000 + c.r[Rd(w)] % 0x1_0000])) else None
    else None
  }

  function Fetch(m: Mem, a: int): u32
    requires Mapped(m, a, 4)
  {
    NumberOfBytes(Load(m, a, 4));
    LargePowers();
    Read(m, a, 4)
  }

  function Step(m: Mem, c: Cpu): Option<Cpu>
  {
    if IsMapped(m, c.pc, 4) then Execute(c, Fetch(m, c.pc)) else None
  }

  function Run(m: Mem, c: Cpu, n: nat): Option<Cpu>
    decreases n
  {
    if n == 0 then Some(c)
    else match Step(m, c)
      case None => None
      case Some(d) => Run(m, d, n - 1)
  }
}
