// ADRP and the instruction that adds the low 12 bits: together they form exactly the address a relocation names,
// and through the GOT they load it.
module Pages64 {
  import opened Bits
  import opened Memory
  import opened Results
  import opened Types
  import opened Words
  import opened Target
  import opened Plt
  import opened Pass
  import opened Runs
  import opened Budget
  import opened Isa64
  import opened Calls64

  // S + A, or G + A for the relocations through the GOT
  function Named(j: Job): u64
  {
    if j.symbol.None? then 0
    else if j.rtype == Arm64.ADR_GOT_PAGE || j.rtype == Arm64.LD64_GOT_LO12_NC
    then U64(j.symbol.value.gotAddr + j.addend)
    else U64(j.symbol.value.addr + j.addend)
  }

  // An explicit relocation of the A64 tables on a mapped instruction word
  ghost predicate Site(sec: SectionInfo, m: Mem, j: Job)
  {
    && !j.implicit && j.symbol.Some? && Width(AArch64, j.rtype) == 4
    && Mapped(m, PlaceOf(AArch64, sec, j), 4)
    && j.symbol.value.addr < 0x1_0000_0000_0000_0000 && j.symbol.value.gotAddr < 0x1_0000_0000_0000_0000
  }

  // the instruction at the place, if that is mapped
  function WordAt(sec: SectionInfo, m: Mem, j: Job): u32
  {
    if IsMapped(m, PlaceOf(AArch64, sec, j), 4) then Read32(m, PlaceOf(AArch64, sec, j)) else 0
  }

  // ---- the page ----

  lemma AdrValue(t: nat, sec: SectionInfo, P: u64, S: u64, G: u64, A: int)
    requires Arm64.IsAdr(t) && Arm64.Compute(t, sec, P, S, G, A).Ok?
    ensures Arm64.Compute(t, sec, P, S, G, A)
      == Ok(Direct(S64(PageOf(U64((if t == Arm64.ADR_GOT_PAGE then G else S) + A)) - PageOf(P))))
  {
    hide S64, U64, IsInt64, PageOf;
  }

  lemma AdrPlan(sec: SectionInfo, m: Mem, j: Job)
    requires Site(sec, m, j) && Arm64.IsAdr(j.rtype) && PlanOf(AArch64, sec, m, j).Ok?
    ensures PlanOf(AArch64, sec, m, j) == Ok(Direct(S64(PageOf(Named(j)) - PageOf(PlaceOf(AArch64, sec, j)))))
  {
    assert U64(j.symbol.value.gotAddr) == j.symbol.value.gotAddr;
    hide PlanOf, PlaceOf, S64, U64, PageOf, Arm64.Compute, Width, Read;
    PlanIs(sec, m, j);
    AdrValue(j.rtype, sec, PlaceOf(AArch64, sec, j), j.symbol.value.addr, j.symbol.value.gotAddr, j.addend);
  }

  lemma AdrEncoding(t: nat, w: u32, V: int, r: nat)
    requires Arm64.IsAdr(t) && w < Pow2(8 * Width(AArch64, t)) && Encode(AArch64, t, w, V) == Ok(r)
    ensures r == Arm64.PatchAdr(w, V) && IsInt64(32, V) && V % 0x1000 == 0
  {
    hide Arm64.PatchAdr, IsInt64, Pow2;
  }

  lemma PageIsAddress(D: u64)
    ensures U64(PageOf(D)) == PageOf(D)
  {
  }

  // At the end the ADRP of a place yields the page of the named address, in the same register.
  lemma AdrpAtEnd(sec: SectionInfo, m0: Mem, t: Table, j: Job)
    requires Site(sec, m0, j) && Arm64.IsAdr(j.rtype) && Placed(AArch64, sec, m0, t, j)
    ensures Mapped(t.mem, PlaceOf(AArch64, sec, j), 4)
    ensures var w, r := WordAt(sec, m0, j), WordAt(sec, t.mem, j);
      && IsAdrp(r) == IsAdrp(w) && Rd(r) == Rd(w)
      && AdrpValue(PlaceOf(AArch64, sec, j), r) == PageOf(Named(j))
  {
    hide PlanOf, Encode, Pow2, Read, Named, PlaceOf, S64, U64, IsInt64, IsAdrp, Rd, AdrpValue, Arm64.PatchAdr, PageOf;
    AdrPlan(sec, m0, j);
    PlanIs(sec, m0, j);
    var P, w := PlaceOf(AArch64, sec, j), WordAt(sec, m0, j);
    var V := S64(PageOf(Named(j)) - PageOf(P));
    AdrEncoding(j.rtype, w, V, Read(t.mem, P, 4));
    Arm64.AdrpYields(w, V, P);
    U64Back(PageOf(P), PageOf(Named(j)));
    PageIsAddress(Named(j));
  }

  // ---- the low 12 bits ----

  lemma LowValue(t: nat, sec: SectionInfo, P: u64, S: u64, G: u64, A: int, e: nat)
    requires Arm64.ExpShift(t) == Some(e) && Arm64.Compute(t, sec, P, S, G, A).Ok?
    ensures var D := U64((if t == Arm64.LD64_GOT_LO12_NC then G else S) + A);
      && Arm64.Compute(t, sec, P, S, G, A) == Ok(Direct(D % 0x1000))
      && e <= 4 && (t != Arm64.LD64_GOT_LO12_NC ==> D % Pow(e) == 0)
  {
    assert Pow(0) == 1;
    hide S64, U64, IsInt64, PageOf, Pow;
  }

  lemma LowPlan(sec: SectionInfo, m: Mem, j: Job, e: nat)
    requires Site(sec, m, j) && Arm64.ExpShift(j.rtype) == Some(e) && PlanOf(AArch64, sec, m, j).Ok?
    ensures PlanOf(AArch64, sec, m, j) == Ok(Direct(Named(j) % 0x1000))
    ensures e <= 4 && (j.rtype != Arm64.LD64_GOT_LO12_NC ==> Named(j) % Pow(e) == 0)
  {
    assert U64(j.symbol.value.gotAddr) == j.symbol.value.gotAddr;
    hide PlanOf, PlaceOf, U64, Arm64.Compute, Width, Read, Pow;
    PlanIs(sec, m, j);
    LowValue(j.rtype, sec, PlaceOf(AArch64, sec, j), j.symbol.value.addr, j.symbol.value.gotAddr, j.addend, e);
  }

  lemma LowEncoding(t: nat, w: u32, V: int, r: nat, e: nat)
    requires Arm64.ExpShift(t) == Some(e) && w < Pow2(8 * Width(AArch64, t)) && Encode(AArch64, t, w, V) == Ok(r)
    ensures 0 <= V < 0x1000 && r == Arm64.PatchImm12(w, V, Arm64.ShiftOf(w))
    ensures V == 0 || e == Arm64.ShiftOf(w)
    ensures t == Arm64.LD64_GOT_LO12_NC ==> V % 8 == 0
  {
    hide Arm64.PatchImm12, Arm64.ShiftOf, Pow2;
  }

  // The immediate, scaled back by the shift of the instruction, is the value: no bit is lost.
  lemma LowExact(D: u64, V: nat, e: nat, shift: nat)
    requires V == D % 0x1000 && e <= 4 && (V % Pow(e) == 0) && (V == 0 || e == shift)
    ensures V / Pow(shift) * Pow(shift) == V
  {
  }

  lemma DivisibleLow(D: u64, e: nat)
    requires e <= 4 && D % Pow(e) == 0
    ensures D % 0x1000 % Pow(e) == 0
  {
    var q := D / Pow(e);
    assert D % 0x1000 == D - D / 0x1000 * 0x1000;
    if e == 0 {
    } else if e == 1 {
      QuotRem(D % 0x1000, 2, q - D / 0x1000 * 0x800, 0);
    } else if e == 2 {
      QuotRem(D % 0x1000, 4, q - D / 0x1000 * 0x400, 0);
    } else if e == 3 {
      QuotRem(D % 0x1000, 8, q - D / 0x1000 * 0x200, 0);
    } else {
      QuotRem(D % 0x1000, 16, q - D / 0x1000 * 0x100, 0);
    }
  }

  lemma LowAtEnd(sec: SectionInfo, m0: Mem, t: Table, j: Job, e: nat)
    requires Site(sec, m0, j) && Arm64.ExpShift(j.rtype) == Some(e) && Placed(AArch64, sec, m0, t, j)
    ensures Mapped(t.mem, PlaceOf(AArch64, sec, j), 4)
    ensures var w, r := WordAt(sec, m0, j), WordAt(sec, t.mem, j);
      && r / 0x40_0000 == w / 0x40_0000 && r % 0x400 == w % 0x400
      && Imm12(r) * Pow(Arm64.ShiftOf(w)) == Named(j) % 0x1000
  {
    LowPlan(sec, m0, j, e);
    hide PlanOf, Encode, Pow2, Read, Named, PlaceOf, Arm64.ShiftOf, Imm12, Pow;
    var P, w, D := PlaceOf(AArch64, sec, j), WordAt(sec, m0, j), Named(j);
    LowEncoding(j.rtype, w, D % 0x1000, Read(t.mem, P, 4), e);
    Arm64.Imm12Placed(w, D % 0x1000, Arm64.ShiftOf(w));
    hide Arm64.PatchImm12;
    if j.rtype == Arm64.LD64_GOT_LO12_NC {
      assert Pow(3) == 8;
    } else {
      DivisibleLow(D, e);
    }
    LowExact(D, D % 0x1000, e, Arm64.ShiftOf(w));
  }

  // ---- the instructions ----

  lemma AdrpIsNoOther(r: u32)
    requires IsAdrp(r)
    ensures !IsB(r) && !IsBl(r) && !IsBr(r)
  {
  }

  lemma TopIsNoOther(r: u32, top: nat)
    requires r / 0x40_0000 == top && (top == 0x244 || top == 0x3e5)
    ensures !IsB(r) && !IsBl(r) && !IsBr(r) && !IsAdrp(r) && !IsMovz(r) && !IsMovk(r)
    ensures top == 0x244 ==> !IsLdSt(r)
    ensures top == 0x3e5 ==> IsLdSt(r) && Scale(r) == 3
  {
    DivDiv(r, 0x40_0000, 2);
    DivDiv(r, 0x40_0000, 4);
    DivDiv(r, 0x40_0000, 16);
    DivDiv(r, 0x40_0000, 32);
    DivDiv(r, 0x40_0000, 256);
    DivDiv(r, 0x40_0000, 512);
    DivDiv(r, 0x400, 0x1000);
  }

  // The access size the linker reads from the instruction is the one the architecture uses.
  lemma ShiftIsScale(w: u32)
    ensures IsLdSt(w) && Scale(w) <= 4 ==> Arm64.ShiftOf(w) == Scale(w)
    ensures !IsLdSt(w) ==> Arm64.ShiftOf(w) == 0
  {
    Arm64.ClassOf(w);
    hide Arm64.IsLoadStore, Arm64.IsVectorOp, IsLdSt, IsSimd;
  }

  lemma PageAndLow(D: u64)
    ensures U64(PageOf(D) + D % 0x1000) == D
  {
  }

  // The instruction at P takes the machine to the next instruction, with registers y.
  ghost predicate Steps(m: Mem, P: nat, x: map<nat, u64>, y: map<nat, u64>)
  {
    P < 0x1_0000_0000_0000_0000 && Isa64.Step(m, Cpu(P, x)) == Some(Cpu(U64(P + 4), y))
  }

  lemma ExecuteAdrp(m: Mem, P: u64, x: map<nat, u64>, page: u64)
    requires Mapped(m, P, 4)
    requires var r := Read32(m, P); IsAdrp(r) && Rd(r) != 31 && AdrpValue(P, r) == page
    ensures Steps(m, P, x, x[Rd(Read32(m, P)) := page])
  {
    hide IsAdrp, AdrpValue, IsB, IsBl, IsBr, Rd, Read, U64;
    AdrpIsNoOther(Read32(m, P));
  }

  lemma ExecuteAdd(m: Mem, P: u64, x: map<nat, u64>, D: u64)
    requires Mapped(m, P, 4)
    requires var r := Read32(m, P);
      && IsAddImm(r) && Rd(r) != 31 && Rn(r) != 31 && Rn(r) in x
      && x[Rn(r)] == PageOf(D) && Imm12(r) == D % 0x1000
    ensures Steps(m, P, x, x[Rd(Read32(m, P)) := D])
  {
    TopIsNoOther(Read32(m, P), 0x244);
    PageAndLow(D);
    hide IsAdrp, IsMovz, IsMovk, IsB, IsBl, IsBr, Rd, Rn, Imm12, Read, U64, PageOf, IsAddImm;
  }

  // LDR Xt, [Xn, #lo12] on a mapped address loads the double word there.
  lemma ExecuteLdr(m: Mem, P: u64, x: map<nat, u64>, D: u64)
    requires Mapped(m, P, 4) && Mapped(m, D, 8)
    requires var r := Read32(m, P);
      && IsLdr64(r) && Rd(r) != 31 && Rn(r) != 31 && Rn(r) in x
      && LdStAddress(x[Rn(r)], r) == D
    ensures Steps(m, P, x, x[Rd(Read32(m, P)) := Read64(m, D)])
  {
    var r := Read32(m, P);
    TopIsNoOther(r, 0x3e5);
    assert !IsAddImm(r);
    hide IsAdrp, IsMovz, IsMovk, IsB, IsBl, IsBr, Rd, Rn, LdStAddress, Read, U64, IsAddImm, IsLdr64;
  }

  // ---- the places at the end of the pass ----

  ghost predicate AdrpSite(sec: SectionInfo, m: Mem, j: Job, n: nat)
  {
    Site(sec, m, j) && Arm64.IsAdr(j.rtype) && IsAdrp(WordAt(sec, m, j)) && Rd(WordAt(sec, m, j)) == n != 31
  }

  ghost predicate AddSite(sec: SectionInfo, m: Mem, j: Job, d: nat, n: nat)
  {
    && Site(sec, m, j) && j.rtype == Arm64.ADD_ABS_LO12_NC && IsAddImm(WordAt(sec, m, j))
    && Rd(WordAt(sec, m, j)) == d != 31 && Rn(WordAt(sec, m, j)) == n != 31
  }

  // a load or store of any size, or the load from the GOT
  ghost predicate LdStSite(sec: SectionInfo, m: Mem, j: Job, n: nat)
  {
    && Site(sec, m, j) && Arm64.ExpShift(j.rtype).Some? && j.rtype != Arm64.ADD_ABS_LO12_NC
    && IsLdSt(WordAt(sec, m, j)) && Scale(WordAt(sec, m, j)) <= 4 && Rn(WordAt(sec, m, j)) == n != 31
  }

  // ADRP at its place puts the page of the named address into its register.
  lemma AdrpRuns(sec: SectionInfo, m0: Mem, t: Table, j: Job, n: nat, x: map<nat, u64>)
    requires AdrpSite(sec, m0, j, n) && Placed(AArch64, sec, m0, t, j)
    ensures Steps(t.mem, PlaceOf(AArch64, sec, j), x, x[n := PageOf(Named(j))])
  {
    hide Placed, PlaceOf, Width, Named, IsAdrp, AdrpValue, PageOf, Rd, Read, Steps;
    PlanIs(sec, m0, j);
    AdrpAtEnd(sec, m0, t, j);
    PageIsAddress(Named(j));
    ExecuteAdrp(t.mem, PlaceOf(AArch64, sec, j), x, PageOf(Named(j)));
  }

  lemma AddAtEnd(sec: SectionInfo, m0: Mem, t: Table, j: Job, d: nat, n: nat)
    requires AddSite(sec, m0, j, d, n) && Placed(AArch64, sec, m0, t, j)
    ensures Mapped(t.mem, PlaceOf(AArch64, sec, j), 4)
    ensures var r := WordAt(sec, t.mem, j);
      IsAddImm(r) && Rd(r) == d && Rn(r) == n && Imm12(r) == Named(j) % 0x1000
  {
    hide Placed, PlaceOf, Width, Named, Rd, Rn, Imm12, Read, Arm64.ShiftOf, IsLdSt, Scale;
    LowAtEnd(sec, m0, t, j, 0);
    SameRegisters(WordAt(sec, m0, j), WordAt(sec, t.mem, j));
    TopIsNoOther(WordAt(sec, m0, j), 0x244);
    ShiftIsScale(WordAt(sec, m0, j));
  }

  // ADD at its place, on a register with the page, yields the named address.
  lemma AddRuns(sec: SectionInfo, m0: Mem, t: Table, j: Job, d: nat, n: nat, x: map<nat, u64>)
    requires AddSite(sec, m0, j, d, n) && Placed(AArch64, sec, m0, t, j)
    requires n in x && x[n] == PageOf(Named(j))
    ensures Steps(t.mem, PlaceOf(AArch64, sec, j), x, x[d := Named(j)])
  {
    hide Placed, PlaceOf, Width, Named, Rd, Rn, Imm12, Read, IsAddImm, PageOf, Steps;
    PlanIs(sec, m0, j);
    AddAtEnd(sec, m0, t, j, d, n);
    ExecuteAdd(t.mem, PlaceOf(AArch64, sec, j), x, Named(j));
  }

  // r is w with another immediate, and addresses D over a register n that holds D's page.
  predicate Accesses(w: u32, r: u32, n: nat, D: u64)
  {
    IsLdSt(r) && Rn(r) == n && Rd(r) == Rd(w) && r / 0x40_0000 == w / 0x40_0000 && LdStAddress(PageOf(D), r) == D
  }

  // A load or store of 8 to 128 bits at its place, on a register with the page, accesses the named address.
  lemma LdStAccesses(sec: SectionInfo, m0: Mem, t: Table, j: Job, n: nat)
    requires LdStSite(sec, m0, j, n) && Placed(AArch64, sec, m0, t, j)
    ensures Mapped(t.mem, PlaceOf(AArch64, sec, j), 4)
    ensures Accesses(WordAt(sec, m0, j), WordAt(sec, t.mem, j), n, Named(j))
  {
    hide Placed, PlaceOf, Width, Named, Rd, Rn, Imm12, Read, Arm64.ShiftOf, IsLdSt, Scale, Pow, PageOf, U64, IsLdr64,
         IsAddImm;
    var w := WordAt(sec, m0, j);
    LowAtEnd(sec, m0, t, j, Arm64.ExpShift(j.rtype).value);
    var r := WordAt(sec, t.mem, j);
    SameRegisters(w, r);
    Arm64.TopDecides(w, r);
    ShiftIsScale(w);
    PageIsAddress(Named(j));
    PageAndLow(Named(j));
  }

  lemma SameRegisters(w: u32, r: u32)
    requires w % 0x400 == r % 0x400
    ensures Rd(w) == Rd(r) && Rn(w) == Rn(r)
  {
    RegistersLow(w);
    RegistersLow(r);
  }

  lemma RegistersLow(w: u32)
    ensures Rd(w) == w % 0x400 % 32 && Rn(w) == w % 0x400 / 32
  {
    var q, s := w / 0x400, w % 0x400;
    QuotRem(w, 32, q * 32 + s / 32, s % 32);
    QuotRem(w / 32, 32, q, s / 32);
  }

  // ---- end to end ----

  // When the pass is over, ADRP at its place puts the page of the address it names into its register.
  lemma PageFormed(secs: seq<SectionInfo>, st: State, jobs: seq<Job>, r: State, a: nat, n: nat, x: map<nat, u64>)
    requires Fresh(AArch64, secs, st, jobs) && RunsTo(AArch64, secs, st, jobs, r)
    requires a < |jobs| && jobs[a].sec < |secs| && AdrpSite(secs[jobs[a].sec], st.mem, jobs[a], n)
    ensures Steps(r.mem, PlaceOf(AArch64, secs[jobs[a].sec], jobs[a]), x, x[n := PageOf(Named(jobs[a]))])
  {
    hide Fresh, RunsTo, TableOk, Region, FarTargets, Placed, InSection, AdrpSite, Steps, PlaceOf, PageOf, Named;
    AtEnd(AArch64, secs, st, jobs, r, a);
    AdrpRuns(secs[jobs[a].sec], st.mem, Table(r.mem, r.tables[jobs[a].sec]), jobs[a], n, x);
  }

  // An ADD for the same address, at any other place, run on registers with that page, yields exactly S + A.
  lemma AddressFormed(secs: seq<SectionInfo>, st: State, jobs: seq<Job>, r: State, b: nat, d: nat, n: nat,
                      x: map<nat, u64>)
    requires Fresh(AArch64, secs, st, jobs) && RunsTo(AArch64, secs, st, jobs, r)
    requires b < |jobs| && jobs[b].sec < |secs| && AddSite(secs[jobs[b].sec], st.mem, jobs[b], d, n)
    requires n in x && x[n] == PageOf(Named(jobs[b]))
    ensures Steps(r.mem, PlaceOf(AArch64, secs[jobs[b].sec], jobs[b]), x, x[d := Named(jobs[b])])
  {
    hide Fresh, RunsTo, TableOk, Region, FarTargets, Placed, InSection, AddSite, Steps, PlaceOf, PageOf, Named;
    AtEnd(AArch64, secs, st, jobs, r, b);
    AddRuns(secs[jobs[b].sec], st.mem, Table(r.mem, r.tables[jobs[b].sec]), jobs[b], d, n, x);
  }

  // A load or store of 8, 16, 32, 64 or 128 bits for the same address accesses exactly S + A.
  lemma AddressAccessed(secs: seq<SectionInfo>, st: State, jobs: seq<Job>, r: State, b: nat, n: nat)
    requires Fresh(AArch64, secs, st, jobs) && RunsTo(AArch64, secs, st, jobs, r)
    requires b < |jobs| && jobs[b].sec < |secs| && LdStSite(secs[jobs[b].sec], st.mem, jobs[b], n)
    ensures Mapped(r.mem, PlaceOf(AArch64, secs[jobs[b].sec], jobs[b]), 4)
    ensures Accesses(WordAt(secs[jobs[b].sec], st.mem, jobs[b]), WordAt(secs[jobs[b].sec], r.mem, jobs[b]), n,
                     Named(jobs[b]))
  {
    hide Fresh, RunsTo, TableOk, Region, FarTargets, Placed, InSection, LdStSite, Accesses, PlaceOf, Named, WordAt;
    AtEnd(AArch64, secs, st, jobs, r, b);
    LdStAccesses(secs[jobs[b].sec], st.mem, Table(r.mem, r.tables[jobs[b].sec]), jobs[b], n);
  }

  lemma LdrAtEnd(sec: SectionInfo, m0: Mem, m: Mem, j: Job, d: nat, n: nat, x: map<nat, u64>)
    requires Mapped(m, PlaceOf(AArch64, sec, j), 4) && Accesses(WordAt(sec, m0, j), WordAt(sec, m, j), n, Named(j))
    requires LdStSite(sec, m0, j, n)
    requires IsLdr64(WordAt(sec, m0, j)) && Rd(WordAt(sec, m0, j)) == d != 31
    requires n in x && x[n] == PageOf(Named(j))
    requires Mapped(m, Named(j), 8)
    ensures Steps(m, PlaceOf(AArch64, sec, j), x, x[d := Read64(m, Named(j))])
  {
    assert PlaceOf(AArch64, sec, j) < 0x1_0000_0000_0000_0000;
    hide PlaceOf, Named, Steps, PageOf, Rd, Rn, Read, LdStAddress, IsLdSt, Scale, Width;
    ExecuteLdr(m, PlaceOf(AArch64, sec, j), x, Named(j));
  }
}
