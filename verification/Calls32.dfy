// What an A32 branch does once the pass is over. The processor adds 8 to the place (the PC bias), so both the direct
// branch and the branch through a stub arrive at S + A + 8.
module Calls32 {
  import opened Bits
  import opened Memory
  import opened Results
  import opened Types
  import opened Words
  import opened Target
  import opened Plt
  import opened Pass
  import opened Runs
  import opened Budget
  import opened Isa32

  // the word at the place, if that is mapped
  function WordAt(sec: SectionInfo, m: Mem, j: Job): u32
  {
    if IsMapped(m, PlaceOf(AArch32, sec, j), 4) then Fetch(m, PlaceOf(AArch32, sec, j)) else 0
  }

  // explicit addend, or the one in the instruction
  function AddendOf(sec: SectionInfo, m: Mem, j: Job): int
  {
    if j.implicit then Signed24(Imm24(WordAt(sec, m, j))) * 4 else j.addend
  }

  function SymbolOf(j: Job): nat
  {
    if j.symbol.Some? then j.symbol.value.addr else 0
  }

  // A place with the relocation of a branch, on an instruction that is one, where everything is 4-aligned
  ghost predicate CallSite(sec: SectionInfo, m: Mem, j: Job)
  {
    && Arm.IsCall(j.rtype) && j.symbol.Some? && SymbolOf(j) < 0x1_0000_0000
    && Mapped(m, PlaceOf(AArch32, sec, j), 4) && IsBranch(WordAt(sec, m, j))
    && PlaceOf(AArch32, sec, j) % 4 == 0 && (SymbolOf(j) + AddendOf(sec, m, j)) % 4 == 0 && sec.stubOffset % 4 == 0
  }

  function Linked(w: u32, P: u32, r: map<nat, u32>): map<nat, u32>
  {
    if Links(w) then r[14 := U32(P + 4)] else r
  }

  // ---- the value ----

  lemma CallValue(t: nat, P: u32, S: u32, G: u32, A: int)
    requires Arm.IsCall(t) && Arm.Compute(t, P, S, G, A).Ok?
    ensures var V := S32(U32(S + A) - P);
      Arm.Compute(t, P, S, G, A) == Ok(if IsInt32(26, V) then Direct(V) else Via(U32(U32(S + A) + 8), -8))
  {
    hide S32, U32, IsInt32;
  }

  lemma ImplicitAddend(sec: SectionInfo, m: Mem, j: Job)
    requires CallSite(sec, m, j)
    ensures DecodeAddend(AArch32, j.rtype, m, PlaceOf(AArch32, sec, j)) == Ok(Signed24(Imm24(WordAt(sec, m, j))) * 4)
  {
    var w := WordAt(sec, m, j);
    assert !Arm.IsBlx(w) && Arm.Decodes(w);
    Arm.DecodedBranch(j.rtype, w);
    hide PlaceOf, Arm.Decode, Signed24, Imm24, Read, IsBranch;
  }

  lemma PlanIs(sec: SectionInfo, m: Mem, j: Job)
    requires CallSite(sec, m, j)
    ensures PlaceOf(AArch32, sec, j) < 0x1_0000_0000
    ensures PlanOf(AArch32, sec, m, j)
      == Arm.Compute(j.rtype, PlaceOf(AArch32, sec, j), SymbolOf(j), U32(j.symbol.value.gotAddr), AddendOf(sec, m, j))
  {
    var P := PlaceOf(AArch32, sec, j);
    assert P < 0x1_0000_0000 && U32(P) == P && U32(SymbolOf(j)) == SymbolOf(j);
    hide Arm.Compute, DecodeAddend, Signed24, Imm24, Read, IsBranch, WordAt, PlaceOf, U32;
    ImplicitAddend(sec, m, j);
  }

  lemma CallPlan(sec: SectionInfo, m: Mem, j: Job)
    requires CallSite(sec, m, j) && PlanOf(AArch32, sec, m, j).Ok?
    ensures PlaceOf(AArch32, sec, j) < 0x1_0000_0000
    ensures var d := U32(SymbolOf(j) + AddendOf(sec, m, j));
      var V := S32(d - PlaceOf(AArch32, sec, j));
      PlanOf(AArch32, sec, m, j) == Ok(if IsInt32(26, V) then Direct(V) else Via(U32(d + 8), -8))
  {
    hide PlanOf, PlaceOf, S32, U32, IsInt32, Arm.Compute, Read, IsBranch, AddendOf;
    PlanIs(sec, m, j);
    CallValue(j.rtype, PlaceOf(AArch32, sec, j), SymbolOf(j), U32(j.symbol.value.gotAddr), AddendOf(sec, m, j));
  }

  // ---- the instruction ----

  lemma BranchStep(m: Mem, w: u32, V: int, P: u32, r: map<nat, u32>)
    requires IsBranch(w) && IsInt32(26, V) && V % 4 == 0
    requires Mapped(m, P, 4) && Read(m, P, 4) == Arm.PatchBranch(w, V)
    ensures Isa32.Step(m, Cpu(P, r)) == Some(Cpu(U32(P + 8 + V), Linked(w, P, r)))
  {
    Arm.BranchGoesTo(w, V, P);
    SameTop(w, Arm.PatchBranch(w, V));
    hide Arm.PatchBranch, BranchTarget, U32, IsBx, Rd, IsInt32, IsBranch, Links, Read;
  }

  lemma SameTop(w: u32, q: u32)
    requires w / 0x100_0000 == q / 0x100_0000
    ensures IsBranch(w) == IsBranch(q) && Links(w) == Links(q)
  {
    DivDiv(w, 0x100_0000, 2);
    DivDiv(q, 0x100_0000, 2);
    DivDiv(w, 0x100_0000, 16);
    DivDiv(q, 0x100_0000, 16);
  }

  lemma BranchEncoding(j: Job, w: u32, V: int, q: nat)
    requires Arm.IsCall(j.rtype) && w < Pow2(8 * Width(AArch32, j.rtype))
    requires Encode(AArch32, j.rtype, w, V) == Ok(q)
    ensures q == Arm.PatchBranch(w, V) && IsInt32(26, V)
  {
    hide Arm.PatchBranch, IsInt32, Pow2;
  }

  // U32(P + 8 + V) for a direct branch
  lemma DirectGoal(P: u32, x: int, V: int)
    requires V == S32(U32(x) - P)
    ensures U32(P + 8 + V) == U32(x + 8)
  {
    hide S32, U32;
    var q := S32Congruent(U32(x) - P);
    var k := U32Congruent(x);
    U32Shift(x + 8, -q - k);
  }

  lemma DirectAligned(P: u32, x: int)
    requires P % 4 == 0 && x % 4 == 0
    ensures S32(U32(x) - P) % 4 == 0
  {
    hide S32, U32;
    U32KeepsAlignment(x);
    SignedKeepsAlignment(U32(x) - P);
  }

  // U32(P + 8 + V) for a branch through the stub at address at: the bias cancels
  lemma ViaGoal(P: u32, at: u32, V: int)
    requires V == S32(at - 8 - P) && P % 4 == 0 && at % 4 == 0
    ensures V % 4 == 0 && U32(P + 8 + V) == at
  {
    SignedKeepsAlignment(at - 8 - P);
    var q := S32Congruent(at - 8 - P);
    assert U32(at) == at;
    hide S32, U32;
    U32Shift(at, -q);
    assert P + 8 + V == at + -q * 0x1_0000_0000;
  }

  // ---- at the end of the pass ----

  lemma DirectArrives(sec: SectionInfo, m0: Mem, t: Table, j: Job, r: map<nat, u32>)
    requires CallSite(sec, m0, j) && Placed(AArch32, sec, m0, t, j) && !IsFar(AArch32, sec, m0, j)
    ensures var P := PlaceOf(AArch32, sec, j);
      Isa32.Run(t.mem, Cpu(P, r), 1) == Some(Cpu(Goal(sec, m0, j), Linked(WordAt(sec, m0, j), P, r)))
  {
    hide PlanOf, PlaceOf, Encode, Pow2, U32, S32, IsInt32, Linked, Isa32.Step, IsBranch, Read, AddendOf;
    CallPlan(sec, m0, j);
    var P := PlaceOf(AArch32, sec, j);
    var V := S32(U32(SymbolOf(j) + AddendOf(sec, m0, j)) - P);
    var w := WordAt(sec, m0, j);
    BranchEncoding(j, w, V, Read(t.mem, P, 4));
    DirectGoal(P, SymbolOf(j) + AddendOf(sec, m0, j), V);
    DirectAligned(P, SymbolOf(j) + AddendOf(sec, m0, j));
    BranchStep(t.mem, w, V, P, r);
    var c := Cpu(U32(P + 8 + V), Linked(w, P, r));
    assert Isa32.Run(t.mem, c, 0) == Some(c);
  }

  lemma StubInTable(sec: SectionInfo, far: set<int>, t: Table, target: u32)
    requires TableOk(AArch32, sec, far, t) && Region(AArch32, sec, |far|) && sec.stubOffset % 4 == 0
    requires FindStub(t.stubs, target).Some?
    ensures var at := FindStub(t.stubs, target).value;
      0 <= at && at + 12 <= 0x1_0000_0000 && at % 4 == 0 && PltArm.HasCode(t.mem, at, target)
  {
    hide FindStub, StubCode, TableOk, PltArm.HasCode;
    TableFits(AArch32, sec, far, t);
    var k := FoundStub(AArch32, sec, far, t, target);
    SlotBehind(AArch32, sec, |far|, t.stubs[k], k);
    StubWords32(t.mem, t.stubs[k].addr, target);
  }

  function Goal(sec: SectionInfo, m: Mem, j: Job): u32
  {
    U32(SymbolOf(j) + AddendOf(sec, m, j) + 8)
  }

  // A far branch has a stub for S + A + 8 and goes through it.
  lemma ThroughStub(sec: SectionInfo, m0: Mem, t: Table, j: Job)
    requires CallSite(sec, m0, j) && Placed(AArch32, sec, m0, t, j) && IsFar(AArch32, sec, m0, j)
    ensures FindStub(t.stubs, Goal(sec, m0, j)).Some?
    ensures ValueIn(AArch32, t.stubs, PlanOf(AArch32, sec, m0, j).value, PlaceOf(AArch32, sec, j))
      == ViaStub(AArch32, PlaceOf(AArch32, sec, j), FindStub(t.stubs, Goal(sec, m0, j)).value, -8)
  {
    GoalWraps(sec, m0, j);
    hide PlaceOf, S32, U32, IsInt32, IsBranch, Read, AddendOf, FindStub, Encode, Pow2, Goal, ViaStub;
    CallPlan(sec, m0, j);
    hide PlanOf;
  }

  lemma GoalWraps(sec: SectionInfo, m: Mem, j: Job)
    requires CallSite(sec, m, j)
    ensures Goal(sec, m, j) == U32(U32(SymbolOf(j) + AddendOf(sec, m, j)) + 8) && Goal(sec, m, j) % 4 == 0
  {
    hide PlaceOf, WordAt, AddendOf;
    var x := SymbolOf(j) + AddendOf(sec, m, j);
    var q := U32Congruent(x);
    U32Shift(U32(x) + 8, q);
    assert U32(x + 8) % 4 == 0;
  }

  lemma ViaValue(P: u32, at: u32)
    requires ViaStub(AArch32, P, at, -8).Ok?
    ensures ViaStub(AArch32, P, at, -8).value == S32(at - 8 - P) && IsInt32(26, S32(at - 8 - P))
  {
    assert U32(P) == P && U32(at) == at;
    hide S32, IsInt32, U32;
  }

  // The branch of a far relocation enters the stub.
  lemma FirstHop(sec: SectionInfo, m0: Mem, t: Table, j: Job, r: map<nat, u32>, at: u32)
    requires CallSite(sec, m0, j) && Placed(AArch32, sec, m0, t, j) && IsFar(AArch32, sec, m0, j)
    requires FindStub(t.stubs, Goal(sec, m0, j)) == Some(at) && at % 4 == 0
    ensures PlaceOf(AArch32, sec, j) < 0x1_0000_0000
    ensures Isa32.Step(t.mem, Cpu(PlaceOf(AArch32, sec, j), r))
      == Some(Cpu(at, Linked(WordAt(sec, m0, j), PlaceOf(AArch32, sec, j), r)))
  {
    hide PlanOf, PlaceOf, Encode, Pow2, S32, U32, IsInt32, Linked, Isa32.Step, IsBranch, Read, AddendOf, FindStub, Goal,
         IsFar, ValueIn, ViaStub;
    PlanIs(sec, m0, j);
    ThroughStub(sec, m0, t, j);
    var P, w := PlaceOf(AArch32, sec, j), WordAt(sec, m0, j);
    ViaValue(P, at);
    var V := S32(at - 8 - P);
    BranchEncoding(j, w, V, Read(t.mem, P, 4));
    ViaGoal(P, at, V);
    BranchStep(t.mem, w, V, P, r);
  }

  lemma FarArrives(sec: SectionInfo, far: set<int>, m0: Mem, t: Table, j: Job, r: map<nat, u32>)
    requires CallSite(sec, m0, j) && Placed(AArch32, sec, m0, t, j) && IsFar(AArch32, sec, m0, j)
    requires TableOk(AArch32, sec, far, t) && Region(AArch32, sec, |far|) && 12 in r
    ensures PlaceOf(AArch32, sec, j) < 0x1_0000_0000
    ensures var P, d := PlaceOf(AArch32, sec, j), Goal(sec, m0, j);
      Isa32.Run(t.mem, Cpu(P, r), 4) == Some(Cpu(d, Linked(WordAt(sec, m0, j), P, r)[12 := d]))
  {
    hide TableOk, Region, Placed, IsFar, PlaceOf, FindStub, Read, U32, AddendOf, Goal, PltArm.HasCode, Isa32.Step,
         IsBranch, WordAt;
    var P, d := PlaceOf(AArch32, sec, j), Goal(sec, m0, j);
    GoalWraps(sec, m0, j);
    ThroughStub(sec, m0, t, j);
    StubInTable(sec, far, t, d);
    var at := FindStub(t.stubs, d).value;
    FirstHop(sec, m0, t, j, r, at);
    var y := Linked(WordAt(sec, m0, j), P, r);
    assert 12 in y;
    hide Linked;
    PltArm.StubJumps(t.mem, y, at, d);
  }

  // Run from the call site in m, with any registers r, the branch arrives at S + A + 8: in one step, or in four
  // through its stub. Only r12 (through the stub) and the link register (BL) are changed.
  ghost predicate CallArrives(sec: SectionInfo, m0: Mem, m: Mem, j: Job, r: map<nat, u32>)
  {
    var P, d := PlaceOf(AArch32, sec, j), Goal(sec, m0, j);
    var y := Linked(WordAt(sec, m0, j), U32(P), r);
    if IsFar(AArch32, sec, m0, j)
    then Isa32.Run(m, Cpu(U32(P), r), 4) == Some(Cpu(d, y[12 := d]))
    else Isa32.Run(m, Cpu(U32(P), r), 1) == Some(Cpu(d, y))
  }

  lemma CallDone(sec: SectionInfo, far: set<int>, m0: Mem, t: Table, j: Job, r: map<nat, u32>)
    requires CallSite(sec, m0, j) && Placed(AArch32, sec, m0, t, j)
    requires TableOk(AArch32, sec, far, t) && Region(AArch32, sec, |far|) && 12 in r
    ensures CallArrives(sec, m0, t.mem, j, r)
  {
    hide TableOk, Region, IsFar, Placed, Linked, Isa32.Run, CallSite, WordAt, AddendOf, Goal;
    if IsFar(AArch32, sec, m0, j) {
      FarArrives(sec, far, m0, t, j, r);
    } else {
      DirectArrives(sec, m0, t, j, r);
    }
  }

  // End to end, for every relocated branch of every REL and RELA table, with implicit and explicit addends alike.
  lemma EveryCallArrives(secs: seq<SectionInfo>, st: State, jobs: seq<Job>, end: State, k: nat, r: map<nat, u32>)
    requires Fresh(AArch32, secs, st, jobs) && RunsTo(AArch32, secs, st, jobs, end)
    requires k < |jobs| && jobs[k].sec < |secs| && CallSite(secs[jobs[k].sec], st.mem, jobs[k]) && 12 in r
    ensures CallArrives(secs[jobs[k].sec], st.mem, end.mem, jobs[k], r)
  {
    hide Fresh, RunsTo, TableOk, Region, FarTargets, Placed, InSection, CallSite, CallArrives;
    AtEnd(AArch32, secs, st, jobs, end, k);
    var j := jobs[k];
    CallDone(secs[j.sec], FarTargets(AArch32, secs[j.sec], st.mem, jobs, j.sec), st.mem,
             Table(end.mem, end.tables[j.sec]), j, r);
  }
}
