// Where the code keeps less than it could: inputs on which a stub leaves its memory, a branch misses its stub, and a
// second pass changes code.
module Limits {
  import opened Bits
  import opened Memory
  import opened Results
  import opened Types
  import opened Words
  import opened Sections
  import opened Target
  import opened Plt
  import opened Pass
  import opened Runs
  import opened Budget
  import opened Again
  import opened Calls64
  import Calls32
  import RepeatArm

  const START := 0x1_0000
  const FARAWAY := 0x7000_0000_0000

  // one or more zeroed pages
  function Pages(count: nat): Mem
  {
    map x: int | START <= x < START + 0x1000 * count && InPages(START, 0x1000 * count, x) :: 0
  }

  lemma PagesHave(count: nat, a: int, n: nat)
    ensures Mapped(Pages(count), a, n) <==> n == 0 || (START <= a && a + n <= START + 0x1000 * count)
  {
    assert forall x :: START <= x < START + 0x1000 * count ==> InPages(START, 0x1000 * count, x);
    if n > 0 && Mapped(Pages(count), a, n) {
      assert a + 0 in Pages(count) && a + (n - 1) in Pages(count);
    }
  }

  function CallTo(addr: nat, addend: int): Job
  {
    Job(0, 0, Arm64.CALL26, Some(SymbolView(addr, 0)), false, addend)
  }

  function Text(size: nat): SectionInfo { SectionInfo(START, size, TEXT, START + size) }

  lemma FarDistance(A: int)
    requires 0 <= A < 8
    ensures !IsInt64(28, S64(FARAWAY + A - START))
  {
    Ranges(FARAWAY + A - START);
    assert S64(FARAWAY + A - START) == FARAWAY + A - START;
  }

  lemma FarPlan(size: nat, m: Mem, addend: int)
    requires 4 <= size < 0x1000 && 0 <= addend < 8
    ensures PlaceOf(AArch64, Text(size), CallTo(FARAWAY, addend)) == START
    ensures PlanOf(AArch64, Text(size), m, CallTo(FARAWAY, addend)) == Ok(Via(FARAWAY, addend))
  {
    assert U64(START) == START && U64(START + size) == START + size && U64(FARAWAY) == FARAWAY;
    hide IsInt64, S64, U64;
    FarDistance(addend);
  }

  lemma OneStubCounted(addend: int)
    ensures NumberOfStubs(AArch64, [CallTo(FARAWAY, addend)], 0) == 1
  {
    assert [CallTo(FARAWAY, addend)][1..] == [];
  }

  // A pass of one relocation
  lemma RunOfOne(sec: SectionInfo, m: Mem, j: Job)
    requires j.sec == 0
    ensures Fits([sec], State(m, [[]]), [j])
    ensures Relocate(AArch64, sec, Table(m, []), j).Abort? ==> Run(AArch64, [sec], State(m, [[]]), [j]) == Abort
    ensures Relocate(AArch64, sec, Table(m, []), j).Ok? ==>
      var t := Relocate(AArch64, sec, Table(m, []), j).value;
      RunsTo(AArch64, [sec], State(m, [[]]), [j], State(t.mem, [t.stubs]))
  {
    hide Relocate;
    assert [j][1..] == [];
    if Relocate(AArch64, sec, Table(m, []), j).Ok? {
      var t := Relocate(AArch64, sec, Table(m, []), j).value;
      var st, r := State(m, [[]]), State(t.mem, [t.stubs]);
      assert st.tables[0] == [] && st.tables[0 := t.stubs] == r.tables;
      assert Step(AArch64, [sec], st, j) == Ok(r);
      assert Run(AArch64, [sec], r, []) == Ok(r);
    }
  }

  lemma NoRoomNoStub(sec: SectionInfo, m: Mem, j: Job, target: int, addend: int)
    requires PlanOf(AArch64, sec, m, j) == Ok(Via(target, addend))
    requires MakeStub(AArch64, sec, Table(m, []), target) == Abort
    ensures Relocate(AArch64, sec, Table(m, []), j) == Abort
  {
    hide PlanOf, MakeStub, Patch;
    assert FindStub([], target) == None;
  }

  // The section and the space reserved for one stub fill a page exactly. Its only call is far, so its stub begins 8
  // bytes later than the reserved space and ends behind the page: the pass faults.
  lemma OverrunFaults()
    ensures var jobs := [CallTo(FARAWAY, 0)];
      && NumberOfStubs(AArch64, jobs, 0) == 1 && Text(4076).size + StubBytes(AArch64, 1) == 0x1000
      && Fits([Text(4076)], State(Pages(1), [[]]), jobs)
      && Run(AArch64, [Text(4076)], State(Pages(1), [[]]), jobs) == Abort
  {
    hide PlanOf, Pages, Run, NumberOfStubs, StubCode, Relocate;
    FarPlan(4076, Pages(1), 0);
    OneStubCounted(0);
    assert StubAddress(AArch64, Text(4076), 0) == START + 4084;
    PagesHave(1, START + 4084, 20);
    assert MakeStub(AArch64, Text(4076), Table(Pages(1), []), FARAWAY) == Abort;
    NoRoomNoStub(Text(4076), Pages(1), CallTo(FARAWAY, 0), FARAWAY, 0);
    RunOfOne(Text(4076), Pages(1), CallTo(FARAWAY, 0));
  }

  // ---- an addend behind a stub ----

  // pages that begin with a BL
  function CallPages(count: nat): Mem
    requires count > 0
  {
    PagesHave(count, START, 4);
    Write(Pages(count), START, 4, 0x94000000)
  }

  lemma CallPagesHave(count: nat, a: int, n: nat)
    requires count > 0
    ensures Mapped(CallPages(count), a, n) <==> n == 0 || (START <= a && a + n <= START + 0x1000 * count)
    ensures Mapped(CallPages(count), START, 4) && Read(CallPages(count), START, 4) == 0x94000000
  {
    hide Pages;
    PagesHave(count, a, n);
    PagesHave(count, START, 4);
    LargePowers();
    ReadWritten(Pages(count), START, 4, 0x94000000);
    assert Mapped(Pages(count), a, n) <==>
      Mapped(CallPages(count), a, n) by { SameKeys(Pages(count), CallPages(count), a, n); }
    SameKeys(Pages(count), CallPages(count), START, 4);
  }

  lemma SameKeys(m: Mem, r: Mem, a: int, n: nat)
    requires m.Keys == r.Keys
    ensures Mapped(m, a, n) <==> Mapped(r, a, n)
  {
    assert forall x :: x in m <==> x in r;
  }

  lemma StubFits(size: nat, A: nat)
    requires size < 0x1000 && A < 8
    ensures StubAddress(AArch64, Text(size), 0) == START + size + 8 && StubSize(AArch64) == 20
    ensures ViaStub(AArch64, START, START + size + 8, A) == Ok(size + 8 + A) && BranchRange(AArch64, size + 8 + A)
  {
    hide ViaStub, BranchRange;
    ViaNearStub(AArch64, START, START + size + 8, A);
  }

  lemma SitePlaced(A: nat)
    requires A == 0 || A == 4
    ensures Region(AArch64, Text(4), 1) && InSection(AArch64, Text(4), CallTo(FARAWAY, A))
    ensures Calls64.CallSite(Text(4), CallPages(1), CallTo(FARAWAY, A))
    ensures Calls64.SymbolOf(CallTo(FARAWAY, A)) == FARAWAY
  {
    hide CallPages, Read;
    CallPagesHave(1, START, 4);
    FarPlan(4, CallPages(1), A);
  }

  lemma ResolveNew(sec: SectionInfo, m: Mem, made: Table, target: int, adjust: int, P: nat, at: nat, v: int)
    requires MakeStub(AArch64, sec, Table(m, []), target) == Ok(made) && StubAddress(AArch64, sec, 0) == at
    requires ViaStub(AArch64, P, at, adjust) == Ok(v)
    ensures Resolve(AArch64, sec, Table(m, []), Via(target, adjust), P) == Ok(Resolved(made, v))
  {
    hide MakeStub, StubAddress, ViaStub;
    assert FindStub([], target) == None;
  }

  // the one relocation, piece by piece
  lemma OneRelocation(size: nat, count: nat, A: nat)
    requires 4 <= size < 0x1000 && count > 0 && size + 28 <= 0x1000 * count && (A == 0 || A == 4)
    ensures var t := Relocate(AArch64, Text(size), Table(CallPages(count), []), CallTo(FARAWAY, A));
      t.Ok? && t.value.stubs == [Stub(START + size + 8, FARAWAY)]
  {
    hide CallPages, PlanOf, PlaceOf, StubAddress, ViaStub, BranchRange, Encode, Read, StubCode, PlaceContents, Pow2;
    var m, at := CallPages(count), START + size + 8;
    var t := Table(m, []);
    FarPlan(size, m, A);
    StubFits(size, A);
    CallPagesHave(count, START, 4);
    CallPagesHave(count, at, 20);
    var made := Table(Store(m, at, StubCode(AArch64, FARAWAY)), [Stub(at, FARAWAY)]);
    assert t.stubs + [Stub(at, FARAWAY)] == [Stub(at, FARAWAY)];
    assert IsMapped(m, at, 20);
    assert MakeStub(AArch64, Text(size), t, FARAWAY) == Ok(made);
    ResolveNew(Text(size), m, made, FARAWAY, A, START, at, size + 8 + A);
    SameKeys(m, made.mem, START, 4);
    BranchEncodes(AArch64, Arm64.CALL26, PlaceContents(made.mem, START, 4), size + 8 + A);
  }

  // A branch of this code to FARAWAY + 4 goes to its stub plus 4: it skips the first instruction of the stub.
  lemma AddendMissesStub(x: map<nat, u64>)
    ensures var t := Relocate(AArch64, Text(4), Table(CallPages(1), []), CallTo(FARAWAY, 4));
      && t.Ok? && t.value.stubs == [Stub(START + 12, FARAWAY)]
      && var c := Isa64.Step(t.value.mem, Isa64.Cpu(START, x));
      c.Some? && c.value.pc == START + 16
  {
    hide CallPages, Relocate, PlanOf, PlaceOf, Placed, Region, InSection, Read, Isa64.Step, CallSite, Linked, IsFar,
         TableOk, OnlyChanged;
    OneRelocation(4, 1, 4);
    SitePlaced(4);
    var r := Relocate(AArch64, Text(4), Table(CallPages(1), []), CallTo(FARAWAY, 4)).value;
    OneKept();
    FirstHop(Text(4), {FARAWAY}, CallPages(1), r, CallTo(FARAWAY, 4), x);
    assert FindStub(r.stubs, FARAWAY) == Some(START + 12);
  }

  lemma OneKept()
    ensures var t := Relocate(AArch64, Text(4), Table(CallPages(1), []), CallTo(FARAWAY, 4));
      && t.Ok? && TableOk(AArch64, Text(4), {FARAWAY}, t.value)
      && Placed(AArch64, Text(4), CallPages(1), t.value, CallTo(FARAWAY, 4))
      && IsFar(AArch64, Text(4), CallPages(1), CallTo(FARAWAY, 4))
      && PlaceOf(AArch64, Text(4), CallTo(FARAWAY, 4)) == START
  {
    hide CallPages, Relocate, PlanOf, PlaceOf, Placed, Region, InSection, OnlyChanged, CallSite;
    OneRelocation(4, 1, 4);
    SitePlaced(4);
    FarPlan(4, CallPages(1), 4);
    RelocateKeeps(AArch64, Text(4), {FARAWAY}, Table(CallPages(1), []), CallTo(FARAWAY, 4));
  }

  lemma FarCallFresh()
    ensures Fresh(AArch64, [Text(4)], State(CallPages(1), [[]]), [CallTo(FARAWAY, 0)])
    ensures IsFar(AArch64, Text(4), CallPages(1), CallTo(FARAWAY, 0))
  {
    hide CallPages, PlanOf, PlaceOf, Region, InSection;
    FarPlan(4, CallPages(1), 0);
    SitePlaced(0);
    var j := CallTo(FARAWAY, 0);
    assert [j][1..] == [];
    assert FarTargets(AArch64, Text(4), CallPages(1), [j], 0) == {FARAWAY};
    assert Far(AArch64, [Text(4)], CallPages(1), [j]) == [{FARAWAY}];
  }

  // The same branch to FARAWAY itself arrives: the hypotheses of the theorem about calls hold of this code.
  lemma FarCallArrives(x: map<nat, u64>) returns (r: State)
    requires 16 in x
    ensures Fresh(AArch64, [Text(4)], State(CallPages(1), [[]]), [CallTo(FARAWAY, 0)])
    ensures RunsTo(AArch64, [Text(4)], State(CallPages(1), [[]]), [CallTo(FARAWAY, 0)], r)
    ensures Isa64.Run(r.mem, Isa64.Cpu(START, x), 6) == Some(Isa64.Cpu(FARAWAY, x[30 := START + 4][16 := FARAWAY]))
  {
    hide CallPages, Relocate, Fresh, RunsTo, PlanOf, Isa64.Run, CallSite, IsFar, Read;
    FarCallFresh();
    OneRelocation(4, 1, 0);
    SitePlaced(0);
    var j := CallTo(FARAWAY, 0);
    var t := Relocate(AArch64, Text(4), Table(CallPages(1), []), j).value;
    r := State(t.mem, [t.stubs]);
    RunOfOne(Text(4), CallPages(1), j);
    EveryCallArrives([Text(4)], State(CallPages(1), [[]]), [j], r, 0, x);
    CallPagesHave(1, START, 4);
  }

  // ---- a stub in the next section ----

  lemma FourthWord(target: u64)
    requires target % 0x1_0000 == 0
    ensures PltArm64.Code(target)[3] == 0xf2800010
  {
    PltArm64.CodeWords(target);
    hide PltArm64.Code;
  }

  lemma LowByteFirst(v: nat)
    ensures ToBytes(v, 4)[0] == v % 0x100
  {
  }

  // the fourth word of the stub for FARAWAY begins with this byte
  lemma FourthWordByte()
    ensures StubCode(AArch64, FARAWAY)[12] == 0x10
  {
    hide WordBytes, StubCode, PltArm64.Code, ToBytes;
    StubCodeBytes(FARAWAY);
    FourthWord(FARAWAY);
    var ws := PltArm64.Code(FARAWAY);
    WordBytesAt(ws, 3);
    LowByteFirst(0xf2800010);
    var bytes := WordBytes(ws);
    assert bytes[12] == bytes[12..16][0];
  }

  lemma StubWritten(size: nat, count: nat)
    requires 4 <= size < 0x1000 && count > 0 && size + 28 <= 0x1000 * count
    ensures var t := Relocate(AArch64, Text(size), Table(CallPages(count), []), CallTo(FARAWAY, 0));
      && t.Ok? && Mapped(t.value.mem, START + size + 8, 20)
      && Load(t.value.mem, START + size + 8, 20) == StubCode(AArch64, FARAWAY)
  {
    hide CallPages, Relocate, PlanOf, PlaceOf, Placed, OnlyChanged, StubCode;
    OneRelocation(size, count, 0);
    FarPlan(size, CallPages(count), 0);
    RelocateKeeps(AArch64, Text(size), {FARAWAY}, Table(CallPages(count), []), CallTo(FARAWAY, 0));
    var t := Relocate(AArch64, Text(size), Table(CallPages(count), []), CallTo(FARAWAY, 0)).value;
    assert HoldsCode(AArch64, t.mem, t.stubs[0]);
  }

  // The page with text and reserved stub space of OverrunFaults, followed by a page of read-only data
  function TextAndData(): seq<SectionInfo>
  {
    [Text(4076), SectionInfo(START + 0x1000, 4, RODATA, START + 0x1004)]
  }

  // Where the next page is in use, nothing faults: the pass succeeds, and the end of the stub has overwritten the first
  // bytes of the next section, which no relocation names.
  lemma OverrunCorrupts() returns (r: State)
    ensures var jobs := [CallTo(FARAWAY, 0)];
      && NumberOfStubs(AArch64, jobs, 0) == 1 && Text(4076).size + StubBytes(AArch64, 1) == 0x1000
      && RunsTo(AArch64, TextAndData(), State(CallPages(2), [[], []]), jobs, r)
    ensures START + 0x1000 in CallPages(2) && CallPages(2)[START + 0x1000] == 0
    ensures START + 0x1000 in r.mem && r.mem[START + 0x1000] == 0x10
  {
    NeighbourZero();
    hide CallPages, Relocate, RunsTo, NumberOfStubs, StubCode;
    OneStubCounted(0);
    StubWritten(4076, 2);
    FourthWordByte();
    var j, m := CallTo(FARAWAY, 0), CallPages(2);
    var t := Relocate(AArch64, Text(4076), Table(m, []), j).value;
    assert Load(t.mem, START + 4084, 20)[12] == t.mem[START + 4084 + 12];
    r := State(t.mem, [t.stubs, []]);
    RunOfTwo(TextAndData(), m, j, t);
  }

  lemma NeighbourZero()
    ensures START + 0x1000 in CallPages(2) && CallPages(2)[START + 0x1000] == 0
  {
    PagesHave(2, START + 0x1000, 1);
    assert START + 0x1000 + 0 in Pages(2);
  }

  lemma RunOfTwo(secs: seq<SectionInfo>, m: Mem, j: Job, t: Table)
    requires |secs| == 2 && j.sec == 0 && Relocate(AArch64, secs[0], Table(m, []), j) == Ok(t)
    ensures RunsTo(AArch64, secs, State(m, [[], []]), [j], State(t.mem, [t.stubs, []]))
  {
    hide Relocate;
    assert [j][1..] == [];
    var st, r := State(m, [[], []]), State(t.mem, [t.stubs, []]);
    assert st.tables[0] == [] && st.tables[0 := t.stubs] == r.tables;
    assert Step(AArch64, secs, st, j) == Ok(r);
    assert Run(AArch64, secs, r, []) == Ok(r);
  }

  // ---- implicit addends ----

  // a page that begins with the arm instruction BL with offset 0
  function ArmPage(): Mem
  {
    PagesHave(1, START, 4);
    Write(Pages(1), START, 4, 0xeb000000)
  }

  // a call with implicit addend, to an address in reach
  const NEARBY: Job := Job(0, 0, Arm.CALL, Some(SymbolView(START + 0x100, 0)), true, 0)

  lemma ArmPageHas()
    ensures PlaceOf(AArch32, Text(4), NEARBY) == START
    ensures Mapped(ArmPage(), START, 4) && Read(ArmPage(), START, 4) == 0xeb000000
  {
    hide Pages, Read;
    PagesHave(1, START, 4);
    LargePowers();
    ReadWritten(Pages(1), START, 4, 0xeb000000);
    SameKeys(Pages(1), ArmPage(), START, 4);
  }

  lemma NearbySite()
    ensures Calls32.CallSite(Text(4), ArmPage(), NEARBY)
    ensures Calls32.AddendOf(Text(4), ArmPage(), NEARBY) == 0 && Calls32.SymbolOf(NEARBY) == START + 0x100
  {
    hide ArmPage, Read, PlaceOf;
    ArmPageHas();
    assert Calls32.WordAt(Text(4), ArmPage(), NEARBY) == 0xeb000000;
  }

  lemma NearbyNumbers()
    ensures U32(START + 0x100 + 0) == START + 0x100 && S32(U32(START + 0x100 + 0) - START) == 0x100
    ensures U32(NEARBY.symbol.value.gotAddr) == 0 && IsInt32(26, 0x100)
  {
    Ranges(0x100);
    hide IsInt32;
  }

  lemma NearbyPlan()
    ensures PlanOf(AArch32, Text(4), ArmPage(), NEARBY) == Ok(Direct(0x100)) && IsInt32(26, 0x100)
  {
    hide ArmPage, PlanOf, PlaceOf, Calls32.CallSite, Calls32.AddendOf, Arm.Compute, IsInt32, S32, U32;
    NearbySite();
    ArmPageHas();
    NearbyNumbers();
    Calls32.PlanIs(Text(4), ArmPage(), NEARBY);
    RepeatArm.CallPlan(Arm.CALL, START, START + 0x100, 0, 0);
  }

  lemma NearbyFresh()
    ensures Fresh(AArch32, [Text(4)], State(ArmPage(), [[]]), [NEARBY])
    ensures Far(AArch32, [Text(4)], ArmPage(), [NEARBY]) == [{}]
  {
    hide ArmPage, PlanOf, PlaceOf, IsInt32;
    NearbyPlan();
    assert [NEARBY][1..] == [];
    assert FarTargets(AArch32, Text(4), ArmPage(), [NEARBY], 0) == {};
  }

  lemma NearbyRuns() returns (r: State)
    ensures RunsTo(AArch32, [Text(4)], State(ArmPage(), [[]]), [NEARBY], r)
  {
    hide ArmPage, PlanOf, PlaceOf, Fresh, Run, Far, IsInt32, Encode, PlaceContents, Pow2, Read;
    NearbyFresh();
    NearbyPlan();
    ArmPageHas();
    var secs, st, jobs := [Text(4)], State(ArmPage(), [[]]), [NEARBY];
    BranchEncodes(AArch32, Arm.CALL, PlaceContents(ArmPage(), START, 4), 0x100);
    SucceedsIff(AArch32, secs, st, jobs);
    r := Run(AArch32, secs, st, jobs).value;
  }

  lemma NearbyAgain()
    ensures S32(U32(START + 0x100 + 0x100) - START) == 0x200 && U32(START + 0x100 - START) == 0x100
    ensures IsInt32(26, 0x200) && RepeatArm.Held(0x100) == 0x100
  {
    Ranges(0x200);
    hide IsInt32;
  }

  // it does not branch to its own place, and is still in reach with its new addend
  lemma NearbyUnsettled(stubs: seq<Stub>)
    ensures !RepeatArm.CallSettled(stubs, START, START + 0x100, 0)
  {
    hide FindStub, IsInt32, S32, U32, RepeatArm.Held;
    NearbyNumbers();
    NearbyAgain();
  }

  lemma NearbyDies(stubs: seq<Stub>)
    ensures !RepeatArm.Survives(Text(4), ArmPage(), stubs, NEARBY)
  {
    hide ArmPage, PlaceOf, Calls32.CallSite, Calls32.AddendOf, RepeatArm.CallSettled;
    NearbySite();
    ArmPageHas();
    NearbyUnsettled(stubs);
    assert U32(START) == START && U32(START + 0x100) == START + 0x100;
    hide U32;
  }

  // Relocating this code twice is not the same as once: the second run fails or changes something.
  lemma SecondRunChanges() returns (r: State)
    ensures Fresh(AArch32, [Text(4)], State(ArmPage(), [[]]), [NEARBY])
    ensures RunsTo(AArch32, [Text(4)], State(ArmPage(), [[]]), [NEARBY], r)
    ensures !RunsTo(AArch32, [Text(4)], r, [NEARBY], r)
  {
    hide ArmPage, PlaceOf, Fresh, RunsTo, Calls32.CallSite, RepeatArm.Survives;
    NearbyFresh();
    NearbySite();
    r := NearbyRuns();
    var secs, st, jobs := [Text(4)], State(ArmPage(), [[]]), [NEARBY];
    assert jobs[0].implicit;
    RepeatArm.ArmTwiceIff(secs, st, jobs, r);
    NearbyDies(r.tables[0]);
    assert !RepeatArm.Survives(secs[jobs[0].sec], st.mem, r.tables[jobs[0].sec], jobs[0]);
  }
}
