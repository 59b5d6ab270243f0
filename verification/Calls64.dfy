// What an A64 branch does once the pass is over: it arrives at the address its relocation names.
module Calls64 {
  import opened Bits
  import opened Memory
  import opened Results
  import opened Types
  import opened Words
  import opened Target
  import opened Plt
  import opened Pass
  import opened Runs
  import opened Budget
  import opened Isa64

  predicate IsCallWord(w: u32) { IsB(w) || IsBl(w) }

  // Registers after a B or BL at P
  function Linked(w: u32, P: u64, x: map<nat, u64>): map<nat, u64>
  {
    if IsBl(w) then x[30 := U64(P + 4)] else x
  }

  lemma BranchStep(m: Mem, w: u32, V: int, P: u64, x: map<nat, u64>)
    requires IsCallWord(w) && IsInt64(28, V) && V % 4 == 0
    requires Mapped(m, P, 4) && Read(m, P, 4) == Arm64.PatchBranch(w, V)
    ensures Isa64.Step(m, Cpu(P, x)) == Some(Cpu(U64(P + V), Linked(w, P, x)))
  {
    Arm64.BranchGoesTo(w, V, P);
    hide Arm64.PatchBranch, BranchTarget, U64, IsBr, Rd, IsInt64;
  }

  // A place with the relocation of a branch, on an instruction that is one, where everything is 4-aligned
  ghost predicate CallSite(sec: SectionInfo, m: Mem, j: Job)
  {
    var P := PlaceOf(AArch64, sec, j);
    && Arm64.IsBranch(j.rtype) && !j.implicit && j.symbol.Some? && j.symbol.value.addr < 0x1_0000_0000_0000_0000
    && Mapped(m, P, 4) && IsCallWord(Read32(m, P))
    && P % 4 == 0 && (j.symbol.value.addr + j.addend) % 4 == 0 && sec.stubOffset % 4 == 0
  }

  function SymbolOf(j: Job): nat
    requires j.symbol.Some?
  {
    j.symbol.value.addr
  }

  // The plan is what compute_addend says, on the unwrapped values.
  lemma PlanIs(sec: SectionInfo, m: Mem, j: Job)
    requires !j.implicit && j.symbol.Some? && SymbolOf(j) < 0x1_0000_0000_0000_0000
    ensures PlaceOf(AArch64, sec, j) < 0x1_0000_0000_0000_0000
    ensures PlanOf(AArch64, sec, m, j)
      == Arm64.Compute(j.rtype, sec, PlaceOf(AArch64, sec, j), SymbolOf(j), U64(j.symbol.value.gotAddr), j.addend)
  {
    hide Arm64.Compute, Width;
  }

  lemma CallValue(t: nat, sec: SectionInfo, P: u64, S: u64, G: u64, A: int)
    requires Arm64.IsBranch(t) && Arm64.Compute(t, sec, P, S, G, A).Ok?
    ensures Arm64.Compute(t, sec, P, S, G, A)
      == Ok(if IsInt64(28, S64(S + A - P)) then Direct(S64(S + A - P)) else Via(S, A))
  {
    hide S64, U64, IsInt64;
  }

  lemma NearPlan(sec: SectionInfo, m: Mem, j: Job)
    requires CallSite(sec, m, j) && PlanOf(AArch64, sec, m, j).Ok? && !IsFar(AArch64, sec, m, j)
    ensures var V := S64(SymbolOf(j) + j.addend - PlaceOf(AArch64, sec, j));
      PlanOf(AArch64, sec, m, j) == Ok(Direct(V)) && IsInt64(28, V)
  {
    hide PlanOf, PlaceOf, S64, U64, IsInt64, Arm64.Compute, Read, IsCallWord;
    PlanIs(sec, m, j);
    CallValue(j.rtype, sec, PlaceOf(AArch64, sec, j), SymbolOf(j), U64(j.symbol.value.gotAddr), j.addend);
  }

  // The value of a direct branch leads from P to S + A.
  lemma DirectValue(sec: SectionInfo, m: Mem, j: Job)
    requires CallSite(sec, m, j) && PlanOf(AArch64, sec, m, j).Ok? && !IsFar(AArch64, sec, m, j)
    ensures PlanOf(AArch64, sec, m, j).value.Direct?
    ensures var P, V := PlaceOf(AArch64, sec, j), PlanOf(AArch64, sec, m, j).value.value;
      IsInt64(28, V) && V % 4 == 0 && U64(P + V) == U64(SymbolOf(j) + j.addend)
  {
    hide U64, S64, IsInt64, PlaceOf, PlanOf, IsFar, Read, IsCallWord;
    NearPlan(sec, m, j);
    var P, d := PlaceOf(AArch64, sec, j), SymbolOf(j) + j.addend;
    U64Back(P, d);
    AlignedDistance(P, d);
  }

  lemma AlignedDistance(P: int, d: int)
    requires P % 4 == 0 && d % 4 == 0
    ensures S64(d - P) % 4 == 0
  {
    SignedKeepsAlignment(d - P);
    hide S64;
  }

  // The value of a branch through a stub leads from P to the stub's address plus the addend.
  lemma ViaValue(P: u64, at: u64, A: int)
    requires Arm64.ViaStub(P, at, A).Ok?
    ensures var V := Arm64.ViaStub(P, at, A).value;
      IsInt64(28, V) && V % 4 == (at + A - P) % 4 && U64(P + V) == U64(at + A)
  {
    U64Back(P, at + A);
    SignedKeepsAlignment(at + A - P);
    hide U64, S64, IsInt64;
  }

  lemma FarTargetIsSymbol(sec: SectionInfo, m: Mem, j: Job)
    requires CallSite(sec, m, j) && IsFar(AArch64, sec, m, j)
    ensures PlanOf(AArch64, sec, m, j) == Ok(Via(SymbolOf(j), j.addend))
  {
    hide PlanOf, PlaceOf, S64, U64, IsInt64, Arm64.Compute, Read, IsCallWord;
    PlanIs(sec, m, j);
    CallValue(j.rtype, sec, PlaceOf(AArch64, sec, j), SymbolOf(j), U64(j.symbol.value.gotAddr), j.addend);
  }

  lemma BranchEncoding(j: Job, w: u32, V: int, r: nat)
    requires Arm64.IsBranch(j.rtype) && w < Pow2(8 * Width(AArch64, j.rtype))
    requires Encode(AArch64, j.rtype, w, V) == Ok(r)
    ensures r == Arm64.PatchBranch(w, V)
  {
    hide Arm64.PatchBranch, IsInt64, Pow2;
  }

  // One branch: in reach, it arrives in one step.
  lemma DirectArrives(sec: SectionInfo, m0: Mem, t: Table, j: Job, x: map<nat, u64>)
    requires CallSite(sec, m0, j) && Placed(AArch64, sec, m0, t, j) && !IsFar(AArch64, sec, m0, j)
    ensures var P := PlaceOf(AArch64, sec, j);
      Isa64.Run(t.mem, Cpu(P, x), 1) == Some(Cpu(U64(SymbolOf(j) + j.addend), Linked(Read32(m0, P), P, x)))
  {
    var P := PlaceOf(AArch64, sec, j);
    var V := PlanOf(AArch64, sec, m0, j).value.value;
    DirectValue(sec, m0, j);
    var w := Read32(m0, P);
    assert Width(AArch64, j.rtype) == 4;
    BranchEncoding(j, w, V, Read(t.mem, P, 4));
    hide PlanOf, PlaceOf, Encode, Pow2, U64, IsInt64, IsFar, Linked, Isa64.Step, IsB, IsBl, Read;
    BranchStep(t.mem, w, V, P, x);
    assert Isa64.Run(t.mem, Cpu(U64(P + V), Linked(w, P, x)), 0) == Some(Cpu(U64(P + V), Linked(w, P, x)));
  }

  lemma StubInTable(sec: SectionInfo, far: set<int>, t: Table, target: u64)
    requires TableOk(AArch64, sec, far, t) && Region(AArch64, sec, |far|) && sec.stubOffset % 4 == 0
    requires FindStub(t.stubs, target).Some?
    ensures var at := FindStub(t.stubs, target).value;
      0 <= at && at + 20 <= 0x1_0000_0000_0000 && at % 4 == 0 && PltArm64.HasCode(t.mem, at, target)
  {
    hide FindStub, StubCode, TableOk, PltArm64.HasCode;
    TableFits(AArch64, sec, far, t);
    var k := FoundStub(AArch64, sec, far, t, target);
    SlotBehind(AArch64, sec, |far|, t.stubs[k], k);
    StubWords64(t.mem, t.stubs[k].addr, target);
  }

  lemma ThroughStub(sec: SectionInfo, m0: Mem, t: Table, j: Job)
    requires CallSite(sec, m0, j) && Placed(AArch64, sec, m0, t, j) && IsFar(AArch64, sec, m0, j)
    ensures FindStub(t.stubs, SymbolOf(j)).Some?
    ensures var P, at := PlaceOf(AArch64, sec, j), FindStub(t.stubs, SymbolOf(j)).value;
      && ViaStub(AArch64, P, at, j.addend).Ok? && Mapped(t.mem, P, 4)
      && Read(t.mem, P, 4) == Arm64.PatchBranch(Read32(m0, P), ViaStub(AArch64, P, at, j.addend).value)
  {
    FarTargetIsSymbol(sec, m0, j);
    hide PlanOf, PlaceOf, FindStub, IsFar, IsB, IsBl, Read, Encode, Pow2, ViaStub;
    assert Width(AArch64, j.rtype) == 4;
    var P, at := PlaceOf(AArch64, sec, j), FindStub(t.stubs, SymbolOf(j)).value;
    BranchEncoding(j, Read32(m0, P), ViaStub(AArch64, P, at, j.addend).value, Read(t.mem, P, 4));
  }

  lemma SameAddresses(P: u64, at: u64, A: int)
    ensures ViaStub(AArch64, P, at, A) == Arm64.ViaStub(P, at, A)
  {
    hide Arm64.ViaStub;
  }

  lemma HopTo(m: Mem, w: u32, P: u64, at: u64, A: int, x: map<nat, u64>)
    requires IsCallWord(w) && P % 4 == 0 && at % 4 == 0 && A % 4 == 0
    requires ViaStub(AArch64, P, at, A).Ok? && Mapped(m, P, 4)
    requires Read(m, P, 4) == Arm64.PatchBranch(w, ViaStub(AArch64, P, at, A).value)
    ensures Isa64.Step(m, Cpu(P, x)) == Some(Cpu(U64(at + A), Linked(w, P, x)))
  {
    hide Arm64.ViaStub, U64, IsInt64, Isa64.Step, Linked, IsCallWord, Arm64.PatchBranch, Read;
    SameAddresses(P, at, A);
    hide ViaStub;
    ViaValue(P, at, A);
    BranchStep(m, w, Arm64.ViaStub(P, at, A).value, P, x);
  }

  // The branch of a far relocation leads to the stub's address plus the addend.
  lemma FirstHop(sec: SectionInfo, far: set<int>, m0: Mem, t: Table, j: Job, x: map<nat, u64>)
    requires CallSite(sec, m0, j) && Placed(AArch64, sec, m0, t, j) && IsFar(AArch64, sec, m0, j)
    requires TableOk(AArch64, sec, far, t) && Region(AArch64, sec, |far|) && j.addend % 4 == 0
    ensures FindStub(t.stubs, SymbolOf(j)).Some?
    ensures var P, at := PlaceOf(AArch64, sec, j), FindStub(t.stubs, SymbolOf(j)).value;
      Isa64.Step(t.mem, Cpu(P, x)) == Some(Cpu(U64(at + j.addend), Linked(Read32(m0, P), P, x)))
  {
    hide TableOk, Region, Placed, FindStub, IsFar, Read, ViaStub, PltArm64.HasCode, U64, Isa64.Step, Linked, IsCallWord;
    ThroughStub(sec, m0, t, j);
    StubInTable(sec, far, t, SymbolOf(j));
    HopTo(t.mem, Read32(m0, PlaceOf(AArch64, sec, j)), PlaceOf(AArch64, sec, j), FindStub(t.stubs, SymbolOf(j)).value,
          j.addend, x);
  }

  lemma FarEntersIff(sec: SectionInfo, far: set<int>, m0: Mem, t: Table, j: Job, x: map<nat, u64>)
    requires CallSite(sec, m0, j) && Placed(AArch64, sec, m0, t, j) && IsFar(AArch64, sec, m0, j)
    requires TableOk(AArch64, sec, far, t) && Region(AArch64, sec, |far|) && j.addend % 4 == 0
    requires -0x8000_0000_0000_0000 <= j.addend < 0x8000_0000_0000_0000
    ensures FindStub(t.stubs, SymbolOf(j)).Some? && Isa64.Step(t.mem, Cpu(PlaceOf(AArch64, sec, j), x)).Some?
    ensures Isa64.Step(t.mem, Cpu(PlaceOf(AArch64, sec, j), x)).value.pc == FindStub(t.stubs, SymbolOf(j)).value
      <==> j.addend == 0
  {
    hide TableOk, Region, Placed, PlaceOf, FindStub, IsFar, Read, PltArm64.HasCode, Isa64.Step, Linked;
    FirstHop(sec, far, m0, t, j, x);
    StubInTable(sec, far, t, SymbolOf(j));
  }

  // A far branch with addend 0 arrives at the symbol: one step to the stub, five through it.
  lemma FarArrives(sec: SectionInfo, far: set<int>, m0: Mem, t: Table, j: Job, x: map<nat, u64>)
    requires CallSite(sec, m0, j) && Placed(AArch64, sec, m0, t, j) && IsFar(AArch64, sec, m0, j)
    requires TableOk(AArch64, sec, far, t) && Region(AArch64, sec, |far|) && j.addend == 0 && 16 in x
    ensures var P := PlaceOf(AArch64, sec, j);
      Isa64.Run(t.mem, Cpu(P, x), 6) == Some(Cpu(SymbolOf(j), Linked(Read32(m0, P), P, x)[16 := SymbolOf(j)]))
  {
    hide TableOk, Region, Placed, FindStub, IsFar, Read, PltArm64.HasCode, Isa64.Step, IsCallWord;
    FirstHop(sec, far, m0, t, j, x);
    StubInTable(sec, far, t, SymbolOf(j));
    var P, at := PlaceOf(AArch64, sec, j), FindStub(t.stubs, SymbolOf(j)).value;
    var y := Linked(Read32(m0, P), P, x);
    assert 16 in y;
    hide Linked;
    PltArm64.StubJumps(t.mem, y, at, SymbolOf(j));
    assert Isa64.Step(t.mem, Cpu(P, x)) == Some(Cpu(at, y));
  }

  // Run from the call site in m, with any registers x, the branch arrives at S + A: in one step, or in six through
  // its stub. Only x16 (through the stub) and the link register (BL) are changed.
  ghost predicate CallArrives(sec: SectionInfo, m0: Mem, m: Mem, j: Job, x: map<nat, u64>)
    requires CallSite(sec, m0, j)
  {
    var P, S := PlaceOf(AArch64, sec, j), SymbolOf(j);
    var y := Linked(Read32(m0, P), P, x);
    if IsFar(AArch64, sec, m0, j)
    then Isa64.Run(m, Cpu(P, x), 6) == Some(Cpu(U64(S + j.addend), y[16 := S]))
    else Isa64.Run(m, Cpu(P, x), 1) == Some(Cpu(U64(S + j.addend), y))
  }

  lemma CallDone(sec: SectionInfo, far: set<int>, m0: Mem, t: Table, j: Job, x: map<nat, u64>)
    requires CallSite(sec, m0, j) && Placed(AArch64, sec, m0, t, j)
    requires TableOk(AArch64, sec, far, t) && Region(AArch64, sec, |far|) && 16 in x
    requires IsFar(AArch64, sec, m0, j) ==> j.addend == 0
    ensures CallArrives(sec, m0, t.mem, j, x)
  {
    hide TableOk, Region, IsFar, Placed, Linked, Isa64.Run, IsCallWord, Read;
    if IsFar(AArch64, sec, m0, j) {
      FarArrives(sec, far, m0, t, j, x);
    } else {
      DirectArrives(sec, m0, t, j, x);
    }
  }

  // End to end: when the pass is over, every B and BL with a call relocation arrives at S + A, by itself or through
  // its stub. Through a stub this takes the addend 0.
  lemma EveryCallArrives(secs: seq<SectionInfo>, st: State, jobs: seq<Job>, r: State, k: nat, x: map<nat, u64>)
    requires Fresh(AArch64, secs, st, jobs) && RunsTo(AArch64, secs, st, jobs, r)
    requires k < |jobs| && jobs[k].sec < |secs| && CallSite(secs[jobs[k].sec], st.mem, jobs[k]) && 16 in x
    requires IsFar(AArch64, secs[jobs[k].sec], st.mem, jobs[k]) ==> jobs[k].addend == 0
    ensures CallArrives(secs[jobs[k].sec], st.mem, r.mem, jobs[k], x)
  {
    hide Fresh, RunsTo, TableOk, Region, FarTargets, IsFar, Placed, InSection, CallSite, CallArrives;
    AtEnd(AArch64, secs, st, jobs, r, k);
    var j := jobs[k];
    CallDone(secs[j.sec], FarTargets(AArch64, secs[j.sec], st.mem, jobs, j.sec), st.mem, Table(r.mem, r.tables[j.sec]),
             j, x);
  }

  // When the pass is over, the first step of a far branch lands on the stub of its symbol exactly if the addend is 0.
  lemma EntersStubIff(secs: seq<SectionInfo>, st: State, jobs: seq<Job>, r: State, k: nat, x: map<nat, u64>)
    requires Fresh(AArch64, secs, st, jobs) && RunsTo(AArch64, secs, st, jobs, r)
    requires k < |jobs| && jobs[k].sec < |secs| && CallSite(secs[jobs[k].sec], st.mem, jobs[k])
    requires IsFar(AArch64, secs[jobs[k].sec], st.mem, jobs[k]) && jobs[k].addend % 4 == 0
    requires -0x8000_0000_0000_0000 <= jobs[k].addend < 0x8000_0000_0000_0000
    ensures jobs[k].sec < |r.tables| && FindStub(r.tables[jobs[k].sec], SymbolOf(jobs[k])).Some?
    ensures var c := Isa64.Step(r.mem, Cpu(PlaceOf(AArch64, secs[jobs[k].sec], jobs[k]), x));
      c.Some? && (c.value.pc == FindStub(r.tables[jobs[k].sec], SymbolOf(jobs[k])).value <==> jobs[k].addend == 0)
  {
    hide Fresh, RunsTo, TableOk, Region, FarTargets, IsFar, Placed, InSection, CallSite, FindStub, Isa64.Step, PlaceOf;
    AtEnd(AArch64, secs, st, jobs, r, k);
    var j := jobs[k];
    CallHasSymbol(secs[j.sec], st.mem, j);
    FarEntersIff(secs[j.sec], FarTargets(AArch64, secs[j.sec], st.mem, jobs, j.sec), st.mem,
                 Table(r.mem, r.tables[j.sec]), j, x);
  }

  lemma CallHasSymbol(sec: SectionInfo, m: Mem, j: Job)
    requires CallSite(sec, m, j)
    ensures j.symbol.Some? && PlaceOf(AArch64, sec, j) < 0x1_0000_0000_0000_0000
  {
  }
}
