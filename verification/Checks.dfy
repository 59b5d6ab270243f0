// What compute_addend and encodeAddend demand of a relocation before they patch its place: a condition on the type
// code, the place P, the address S and the GOT slot G of the symbol, the addend A, and the word w at the place.
module Checks {
  import opened Bits
  import opened Memory
  import opened Results
  import opened Types
  import opened Words
  import opened Target
  import opened Pass
  import Isa64

  // ---- arm64 ----

  // v is a signed number of 32 bits.
  predicate Signed32(v: int) { -0x8000_0000 <= v < 0x8000_0000 }

  predicate Signed16(v: int) { -0x8000 <= v < 0x8000 }

  // From the page of P to the page of x
  function PageDistance(P: u64, x: u64): int
  {
    S64(x / 0x1000 * 0x1000 - P / 0x1000 * 0x1000)
  }

  // The size that a load or store with unsigned offset accesses, as log2 of its bytes; 0 for other instructions
  function AccessSize(w: u32): nat
  {
    var size := w / 0x4000_0000;
    if !(w / 0x800_0000 % 8 == 7 && w / 0x100_0000 % 4 == 1) then 0
    else if size == 0 && w / 0x400_0000 % 2 == 1 && w / 0x80_0000 % 2 == 1 then 4
    else size
  }

  // The low 12 bits of x can be patched into w: they are 0, or w accesses 2^size bytes.
  predicate LowBitsFit(x: u64, size: nat, w: u32)
  {
    x % 0x1000 == 0 || AccessSize(w) == size
  }

  predicate Accepts64(t: nat, P: u64, S: u64, G: u64, A: int, w: u32)
  {
    var x, g := U64(S + A), U64(G + A);
    if t == 0x101 || t == 0x104 || t == 0x11a || t == 0x11b then true
    else if t == 0x102 then Signed32(S64(S + A))
    else if t == 0x103 then Signed16(S64(S + A))
    else if t == 0x105 then Signed32(S64(S + A - P))
    else if t == 0x106 then Signed16(S64(S + A - P))
    else if t == 0x113 then Signed32(PageDistance(P, x))
    else if t == 0x115 || t == 0x116 then LowBitsFit(x, 0, w)
    else if t == 0x11c then x % 2 == 0 && LowBitsFit(x, 1, w)
    else if t == 0x11d then x % 4 == 0 && LowBitsFit(x, 2, w)
    else if t == 0x11e then x % 8 == 0 && LowBitsFit(x, 3, w)
    else if t == 0x12b then x % 16 == 0 && LowBitsFit(x, 4, w)
    else if t == 0x137 then G != 0 && Signed32(PageDistance(P, g))
    else t == 0x138 && G != 0 && g % 8 == 0 && LowBitsFit(g, 3, w)
  }

  predicate AtPlace64(sec: SectionInfo, P: u64)
  {
    P != 0 && sec.start <= P <= U64(sec.start + sec.size)
  }

  // what the two steps of the code do with one relocation
  predicate Passes64(t: nat, sec: SectionInfo, P: u64, S: u64, G: u64, A: int, w: nat)
    requires Arm64.Width(t) == 4 ==> w < 0x1_0000_0000
  {
    var plan := Arm64.Compute(t, sec, P, S, G, A);
    plan.Ok? && (plan.value.Direct? ==> Arm64.Encode(t, w, plan.value.value).Ok?)
  }

  lemma SizeIsShift(w: u32)
    ensures AccessSize(w) == Arm64.ShiftOf(w)
  {
    Arm64.ClassOf(w);
    hide Arm64.IsLoadStore, Arm64.IsVectorOp;
  }

  lemma DataAccepts64(t: nat, sec: SectionInfo, P: u64, S: u64, G: u64, A: int, w: nat)
    requires 0x101 <= t <= 0x106
    requires Arm64.Width(t) == 4 ==> w < 0x1_0000_0000
    ensures Passes64(t, sec, P, S, G, A, w) <==> AtPlace64(sec, P) && S != 0 && Accepts64(t, P, S, G, A, U32(w))
  {
    Ranges(S64(S + A));
    Ranges(S64(S + A - P));
    hide S64, U64, IsInt64;
  }

  lemma PageIsPage(x: u64)
    ensures Isa64.PageOf(x) == x / 0x1000 * 0x1000
  {
  }

  lemma PageDistanceIs(P: u64, x: u64)
    ensures PageDistance(P, x) == S64(Isa64.PageOf(x) - Isa64.PageOf(P)) && PageDistance(P, x) % 0x1000 == 0
  {
    PageIsPage(x);
    PageIsPage(P);
    var q := S64Congruent(x / 0x1000 * 0x1000 - P / 0x1000 * 0x1000);
    hide S64, Isa64.PageOf;
  }

  lemma PageAccepts64(t: nat, sec: SectionInfo, P: u64, S: u64, G: u64, A: int, w: nat)
    requires t == 0x113 || t == 0x137
    requires Arm64.Width(t) == 4 ==> w < 0x1_0000_0000
    ensures Passes64(t, sec, P, S, G, A, w) <==> AtPlace64(sec, P) && S != 0 && Accepts64(t, P, S, G, A, U32(w))
  {
    PageDistanceIs(P, U64(S + A));
    PageDistanceIs(P, U64(G + A));
    Ranges(PageDistance(P, U64(S + A)));
    Ranges(PageDistance(P, U64(G + A)));
    hide S64, U64, IsInt64, PageDistance, Isa64.PageOf, Arm64.PatchAdr;
  }

  // the size that the type of a relocation is for
  function SizeOf(t: nat): nat
  {
    if t == 0x11c then 1 else if t == 0x11d then 2 else if t == 0x11e || t == 0x138 then 3 else if t == 0x12b then 4
    else 0
  }

  predicate IsLow(t: nat)
  {
    t == 0x115 || t == 0x116 || t == 0x11c || t == 0x11d || t == 0x11e || t == 0x12b || t == 0x138
  }

  lemma LowEncodes(t: nat, w: u32, x: u64)
    requires IsLow(t) && (t == 0x138 ==> x % 8 == 0)
    ensures Arm64.Encode(t, w, x % 0x1000).Ok? <==> LowBitsFit(x, SizeOf(t), w)
  {
    SizeIsShift(w);
    hide AccessSize, Arm64.ShiftOf, Arm64.PatchImm12;
    assert t == 0x138 ==> x % 0x1000 % 8 == 0;
  }

  // The value of the low 12 bits, with the conditions on alignment and slot
  lemma LowComputes(t: nat, sec: SectionInfo, P: u64, S: u64, G: u64, A: int)
    requires IsLow(t)
    ensures var x := if t == 0x138 then U64(G + A) else U64(S + A);
      var aligned := if t == 0x138 then G != 0 else x % Isa64.Pow(SizeOf(t)) == 0;
      Arm64.Compute(t, sec, P, S, G, A)
      == if AtPlace64(sec, P) && S != 0 && aligned then Ok(Direct(x % 0x1000)) else Abort
  {
    assert Isa64.Pow(0) == 1;
    hide U64;
  }

  lemma LowAccepts64(t: nat, sec: SectionInfo, P: u64, S: u64, G: u64, A: int, w: nat)
    requires IsLow(t)
    requires Arm64.Width(t) == 4 ==> w < 0x1_0000_0000
    ensures Passes64(t, sec, P, S, G, A, w) <==> AtPlace64(sec, P) && S != 0 && Accepts64(t, P, S, G, A, U32(w))
  {
    var x := if t == 0x138 then U64(G + A) else U64(S + A);
    assert U32(w) == w;
    assert Isa64.Pow(0) == 1;
    LowComputes(t, sec, P, S, G, A);
    hide U64, LowBitsFit, Arm64.Compute, AtPlace64, Arm64.Encode;
    if t != 0x138 || x % 8 == 0 {
      LowEncodes(t, w, x);
    } else {
      LowRest(x);
      SlotRefused(w, x);
    }
  }

  lemma SlotRefused(w: u32, x: u64)
    requires x % 0x1000 % 8 != 0
    ensures Arm64.Encode(0x138, w, x % 0x1000).Abort?
  {
    hide Arm64.ShiftOf, Arm64.PatchImm12;
  }

  lemma LowRest(x: u64)
    ensures x % 0x1000 % 8 == x % 8
  {
  }

  lemma BranchAccepts64(t: nat, sec: SectionInfo, P: u64, S: u64, G: u64, A: int, w: nat)
    requires t == 0x11a || t == 0x11b
    requires Arm64.Width(t) == 4 ==> w < 0x1_0000_0000
    ensures Passes64(t, sec, P, S, G, A, w) <==> AtPlace64(sec, P) && S != 0 && Accepts64(t, P, S, G, A, U32(w))
  {
    hide U64, S64, IsInt64, Arm64.PatchBranch;
  }

  lemma NoOther64(t: nat, sec: SectionInfo, P: u64, S: u64, G: u64, A: int)
    requires !(0x101 <= t <= 0x106) && t != 0x113 && t != 0x137 && !IsLow(t) && t != 0x11a && t != 0x11b
    ensures Arm64.Compute(t, sec, P, S, G, A).Abort?
  {
  }

  // Exactly the relocations that the code accepts pass both steps.
  lemma Accepted64(t: nat, sec: SectionInfo, P: u64, S: u64, G: u64, A: int, w: nat)
    requires Arm64.Width(t) == 4 ==> w < 0x1_0000_0000
    ensures Passes64(t, sec, P, S, G, A, w) <==> AtPlace64(sec, P) && S != 0 && Accepts64(t, P, S, G, A, U32(w))
  {
    hide Passes64, AtPlace64, Accepts64, U32;
    if 0x101 <= t <= 0x106 {
      DataAccepts64(t, sec, P, S, G, A, w);
    } else if t == 0x113 || t == 0x137 {
      PageAccepts64(t, sec, P, S, G, A, w);
    } else if IsLow(t) {
      LowAccepts64(t, sec, P, S, G, A, w);
    } else if t == 0x11a || t == 0x11b {
      BranchAccepts64(t, sec, P, S, G, A, w);
    } else {
      OtherRefused64(t, sec, P, S, G, A, w);
    }
  }

  lemma OtherRefused64(t: nat, sec: SectionInfo, P: u64, S: u64, G: u64, A: int, w: nat)
    requires !(0x101 <= t <= 0x106) && t != 0x113 && t != 0x137 && !IsLow(t) && t != 0x11a && t != 0x11b
    requires Arm64.Width(t) == 4 ==> w < 0x1_0000_0000
    ensures !Passes64(t, sec, P, S, G, A, w) && !Accepts64(t, P, S, G, A, U32(w))
  {
    NoOther64(t, sec, P, S, G, A);
    hide Arm64.Compute, Arm64.Encode;
  }

  // ---- arm ----

  // A branch instruction with an implicit addend must not be a BLX to a halfword: condition 1111 and bit 24.
  predicate Decodes32(t: nat, w: u32)
  {
    (t == 0x1c || t == 0x1d) && w / 0x1000_0000 == 0xf ==> w / 0x100_0000 % 2 == 0
  }

  predicate Accepts32(t: nat, S: u32, G: u32, implicit: bool, w: u32)
  {
    && S != 0
    && (t == 0x02 || t == 0x03 || t == 0x2a || t == 0x1c || t == 0x1d || (t == 0x60 && G != 0))
    && (implicit ==> Decodes32(t, w))
  }

  predicate Passes32(t: nat, P: u32, S: u32, G: u32, A: int, implicit: bool, w: u32)
  {
    var d := if implicit then Arm.Decode(t, w) else Ok(A);
    && d.Ok?
    && var plan := Arm.Compute(t, P, S, G, d.value);
       plan.Ok? && (plan.value.Direct? ==> Arm.Encode(t, w, plan.value.value).Ok?)
  }

  lemma Decoded32(t: nat, w: u32)
    requires t == 0x02 || t == 0x03 || t == 0x2a || t == 0x1c || t == 0x1d || t == 0x60
    ensures Arm.Decode(t, w).Ok? <==> Decodes32(t, w)
  {
    Arm.TopDecodes(w);
    DivDiv(w, 0x100_0000, 16);
    hide Arm.Decodes;
  }

  lemma Computed32(t: nat, P: u32, S: u32, G: u32, A: int, w: u32)
    ensures var plan := Arm.Compute(t, P, S, G, A);
      plan.Ok? && (plan.value.Direct? ==> Arm.Encode(t, w, plan.value.value).Ok?)
      <==> P != 0 && Accepts32(t, S, G, false, w)
  {
    hide S32, U32, IsInt32, Arm.PatchBranch;
  }

  lemma Accepted32(t: nat, P: u32, S: u32, G: u32, A: int, implicit: bool, w: u32)
    ensures Passes32(t, P, S, G, A, implicit, w) <==> P != 0 && Accepts32(t, S, G, implicit, w)
  {
    hide Arm.Compute, Arm.Encode, Arm.Decode, Decodes32;
    if implicit {
      if Arm.Decode(t, w).Ok? {
        Computed32(t, P, S, G, Arm.Decode(t, w).value, w);
      }
      if Accepts32(t, S, G, false, w) {
        Decoded32(t, w);
      }
    } else {
      Computed32(t, P, S, G, A, w);
    }
  }

  // ---- one relocation in memory ----

  // bytes that are patched
  function PlaceSize(arch: Arch, t: nat): nat
  {
    if arch.AArch64? && (t == 0x101 || t == 0x104) then 8 else if arch.AArch64? && (t == 0x103 || t == 0x106) then 2
    else 4
  }

  // The code accepts the relocation at its place in memory m; whether a stub can be made and reached is not part of it.
  ghost predicate Accepted(arch: Arch, sec: SectionInfo, m: Mem, j: Job)
  {
    var P, t := Addr(arch, sec.start + j.offset), j.rtype;
    && j.symbol.Some? && Mapped(m, P, PlaceSize(arch, t))
    && var S, G, w := Addr(arch, j.symbol.value.addr), Addr(arch, j.symbol.value.gotAddr), U32(Read(m, P,
                                                                                                    PlaceSize(arch,
                                                                                                              t)));
       if arch.AArch64? then !j.implicit && AtPlace64(sec, P) && S != 0 && Accepts64(t, P, S, G, j.addend, w)
       else P != 0 && Accepts32(t, S, G, j.implicit, w)
  }

  lemma SizeIsWidth(arch: Arch, t: nat)
    ensures PlaceSize(arch, t) == Width(arch, t)
  {
  }

  lemma AddrTwice(arch: Arch, x: int)
    ensures Addr(arch, Addr(arch, x)) == Addr(arch, x)
    ensures arch.AArch64? ==> U64(Addr(arch, x)) == Addr(arch, x)
    ensures arch.AArch32? ==> U32(Addr(arch, x)) == Addr(arch, x)
    ensures 0 <= x < 0x1_0000_0000 ==> U32(x) == x
  {
  }

  // ---- stubs ----

  // the relocation types that stubs are counted for
  predicate IsBranchCode(arch: Arch, t: nat)
  {
    if arch.AArch64? then t == 0x11a || t == 0x11b
    else t == 0x01 || t == 0x0a || t == 0x1c || t == 0x1d || t == 0x1e || t == 0x33
  }

  lemma CountedCodes(arch: Arch, t: nat)
    ensures NeedStub(arch, t) <==> IsBranchCode(arch, t)
  {
  }

  predicate GoesThroughStub(t: nat, sec: SectionInfo, P: u64, S: u64, G: u64, A: int)
  {
    var plan := Arm64.Compute(t, sec, P, S, G, A);
    plan.Ok? && plan.value.Via?
  }

  // On arm64 exactly the types are counted of which some relocation goes through a stub.
  lemma CountedIff(t: nat)
    ensures NeedStub(AArch64, t) <==> exists sec, P, S, G, A :: GoesThroughStub(t, sec, P, S, G, A)
  {
    if NeedStub(AArch64, t) {
      var sec := SectionInfo(0x1_0000, 0x10, TEXT, 0x1_0010);
      Ranges(0x6fff_ffff_0000);
      hide IsInt64;
      assert GoesThroughStub(t, sec, 0x1_0000, 0x7000_0000_0000, 0, 0);
    }
    forall sec, P, S, G, A | GoesThroughStub(t, sec, P, S, G, A) ensures NeedStub(AArch64, t) {
      hide IsInt64, U64, S64;
    }
  }
}
