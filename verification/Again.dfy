// Running the pass a second time, and when a run succeeds at all.
module Again {
  import opened Bits
  import opened Memory
  import opened Results
  import opened Types
  import opened Words
  import opened Target
  import opened Plt
  import opened Pass
  import opened Runs
  import opened Budget
  import opened Checks

  // ---- idempotence ----

  // A relocation with explicit addend whose place is done is found done: nothing is written that is not there.
  lemma RelocateAgain(arch: Arch, sec: SectionInfo, was: Mem, t: Table, j: Job)
    requires Placed(arch, sec, was, t, j) && !j.implicit
    ensures Relocate(arch, sec, t, j) == Ok(t)
  {
    hide PlaceOf, Width, Encode, ViaStub, FindStub, Compute, DecodeAddend, Pow2, Write, Read, MakeStub;
    var P, n := PlaceOf(arch, sec, j), Width(arch, j.rtype);
    var plan := PlanOf(arch, sec, was, j).value;
    assert PlanOf(arch, sec, t.mem, j) == Ok(plan);
    var v := ValueIn(arch, t.stubs, plan, P).value;
    assert Resolve(arch, sec, t, plan, P) == Ok(Resolved(t, v));
    PatchAgain(arch, was, t.mem, P, j.rtype, v);
  }

  lemma PatchAgain(arch: Arch, was: Mem, m: Mem, P: nat, t: nat, v: int)
    requires Mapped(was, P, Width(arch, t)) && Mapped(m, P, Width(arch, t))
    requires Encode(arch, t, PlaceContents(was, P, Width(arch, t)), v) == Ok(Read(m, P, Width(arch, t)))
    ensures Patch(arch, m, P, t, v) == Ok(m)
  {
    hide Encode, Width, Pow2, Write;
    EncodeAgain(arch, t, PlaceContents(was, P, Width(arch, t)), v);
    WriteRead(m, P, Width(arch, t));
  }

  lemma {:induction false} RunAgain(arch: Arch, secs: seq<SectionInfo>, was: Mem, r: State, jobs: seq<Job>)
    requires AllPlaced(arch, secs, was, r, jobs) && |r.tables| == |secs|
    requires forall k :: 0 <= k < |jobs| ==> !jobs[k].implicit
    ensures RunsTo(arch, secs, r, jobs, r)
    decreases |jobs|
  {
    hide Placed, Relocate;
    if jobs != [] {
      var i := jobs[0].sec;
      RelocateAgain(arch, secs[i], was, Table(r.mem, r.tables[i]), jobs[0]);
      assert r.tables[i := r.tables[i]] == r.tables;
      assert Step(arch, secs, r, jobs[0]) == Ok(r);
      hide Step;
      assert forall k :: 0 <= k < |jobs[1..]| ==> jobs[1..][k] == jobs[k + 1];
      RunAgain(arch, secs, was, r, jobs[1..]);
    }
  }

  // The pass over explicit addends is idempotent: a second run changes neither memory nor any stub table.
  lemma SecondRun(arch: Arch, secs: seq<SectionInfo>, st: State, jobs: seq<Job>, r: State)
    requires Fresh(arch, secs, st, jobs) && RunsTo(arch, secs, st, jobs, r)
    requires forall k :: 0 <= k < |jobs| ==> !jobs[k].implicit
    ensures RunsTo(arch, secs, r, jobs, r)
  {
    FreshRun(arch, secs, st, jobs, r);
    hide Fresh, AllPlaced, Far;
    RunAgain(arch, secs, st.mem, r, jobs);
  }

  // ---- success ----

  // Largest distance inside a section and its stubs at which every stub is in reach of every place
  function Reach(arch: Arch): nat
  {
    if arch.AArch64? then 0x800_0000 else 0x200_0000
  }

  // The relocation on its own passes the checks of compute_addend and encodeAddend.
  ghost predicate Passes(arch: Arch, sec: SectionInfo, m: Mem, j: Job)
  {
    var P, n, plan := PlaceOf(arch, sec, j), Width(arch, j.rtype), PlanOf(arch, sec, m, j);
    && plan.Ok? && Mapped(m, P, n)
    && (plan.value.Direct? ==> Encode(arch, j.rtype, PlaceContents(m, P, n), plan.value.value).Ok?)
  }

  lemma PlanIs64(sec: SectionInfo, m: Mem, j: Job)
    requires j.symbol.Some? && !j.implicit
    ensures PlaceOf(AArch64, sec, j) < 0x1_0000_0000_0000_0000
    ensures PlanOf(AArch64, sec, m, j)
      == Arm64.Compute(j.rtype, sec, PlaceOf(AArch64, sec, j), U64(j.symbol.value.addr), U64(j.symbol.value.gotAddr),
                       j.addend)
  {
    AddrTwice(AArch64, sec.start + j.offset);
    hide Arm64.Compute, U64;
  }

  lemma PassesIs64(sec: SectionInfo, m: Mem, j: Job)
    requires j.symbol.Some? && Mapped(m, PlaceOf(AArch64, sec, j), Width(AArch64, j.rtype)) && !j.implicit
    ensures PlaceOf(AArch64, sec, j) < 0x1_0000_0000_0000_0000
    ensures var w := PlaceContents(m, PlaceOf(AArch64, sec, j), Width(AArch64, j.rtype));
      && (Arm64.Width(j.rtype) == 4 ==> w < 0x1_0000_0000)
      && (Passes(AArch64, sec, m, j)
          <==> Passes64(j.rtype, sec, PlaceOf(AArch64, sec, j), U64(j.symbol.value.addr), U64(j.symbol.value.gotAddr),
                        j.addend, w))
  {
    LargePowers();
    PlanIs64(sec, m, j);
    hide PlanOf, PlaceOf, Arm64.Compute, Arm64.Encode, Pow2, U64, Read;
  }

  lemma PassesIff64(sec: SectionInfo, m: Mem, j: Job)
    requires j.symbol.Some? && Mapped(m, PlaceOf(AArch64, sec, j), Width(AArch64, j.rtype)) && !j.implicit
    ensures Passes(AArch64, sec, m, j) <==> Accepted(AArch64, sec, m, j)
  {
    PassesIs64(sec, m, j);
    SizeIsWidth(AArch64, j.rtype);
    hide Passes, Passes64, AtPlace64, Accepts64, Pow2, U64, U32, Read, Width, PlaceSize;
    var P := PlaceOf(AArch64, sec, j);
    Accepted64(j.rtype, sec, P, U64(j.symbol.value.addr), U64(j.symbol.value.gotAddr), j.addend,
               PlaceContents(m, P, Width(AArch64, j.rtype)));
  }

  lemma WordThere(m: Mem, P: int)
    requires Mapped(m, P, 4)
    ensures Read(m, P, 4) < 0x1_0000_0000
  {
    NumberOfBytes(Load(m, P, 4));
    LargePowers();
  }

  lemma DecodesTo(t: nat, m: Mem, P: int)
    requires Mapped(m, P, 4)
    ensures Read(m, P, 4) < 0x1_0000_0000 && DecodeAddend(AArch32, t, m, P) == Arm.Decode(t, Read(m, P, 4))
  {
    hide Arm.Decode, Read;
    WordThere(m, P);
  }

  lemma PlanIs32(sec: SectionInfo, m: Mem, j: Job)
    requires j.symbol.Some? && Mapped(m, PlaceOf(AArch32, sec, j), 4)
    ensures PlaceOf(AArch32, sec, j) < 0x1_0000_0000 && Read(m, PlaceOf(AArch32, sec, j), 4) < 0x1_0000_0000
    ensures var d := if j.implicit then Arm.Decode(j.rtype, Read(m, PlaceOf(AArch32, sec, j), 4)) else Ok(j.addend);
      PlanOf(AArch32, sec, m, j)
      == if d.Ok? then Arm.Compute(j.rtype, PlaceOf(AArch32, sec, j), U32(j.symbol.value.addr),
                                   U32(j.symbol.value.gotAddr), d.value)
         else Abort
  {
    hide Arm.Compute, Arm.Decode, U32, Read, DecodeAddend;
    AddrTwice(AArch32, sec.start + j.offset);
    DecodesTo(j.rtype, m, PlaceOf(AArch32, sec, j));
  }

  lemma PassesIff32(sec: SectionInfo, m: Mem, j: Job)
    requires j.symbol.Some? && Mapped(m, PlaceOf(AArch32, sec, j), 4)
    ensures Passes(AArch32, sec, m, j) <==> Accepted(AArch32, sec, m, j)
  {
    PlanIs32(sec, m, j);
    var P := PlaceOf(AArch32, sec, j);
    var w := Read(m, P, 4);
    AddrTwice(AArch32, w);
    hide PlanOf, Read, Arm.Compute, Arm.Encode, Arm.Decode, Accepts32, Pow2, U32;
    Accepted32(j.rtype, P, U32(j.symbol.value.addr), U32(j.symbol.value.gotAddr), j.addend, j.implicit, w);
  }

  // Exactly the relocations that the code accepts pass.
  lemma PassesIff(arch: Arch, sec: SectionInfo, m: Mem, j: Job)
    ensures Passes(arch, sec, m, j) <==> Accepted(arch, sec, m, j)
  {
    SizeIsWidth(arch, j.rtype);
    if j.symbol.Some? && Mapped(m, PlaceOf(arch, sec, j), Width(arch, j.rtype)) && (arch.AArch64? ==> !j.implicit) {
      hide Passes, Accepted, PlaceOf;
      if arch.AArch64? {
        PassesIff64(sec, m, j);
      } else {
        PassesIff32(sec, m, j);
      }
    } else {
      hide Width, PlaceSize, Compute, Encode, Accepts64, Accepts32, AtPlace64, Read, U64, U32;
    }
  }

  // A region short enough for its branches, with its stub space mapped
  ghost predicate Reachable(arch: Arch, sec: SectionInfo, n: nat, m: Mem)
  {
    && End(arch, sec, n) - sec.start <= Reach(arch)
    && (n > 0 ==> Mapped(m, sec.stubOffset + 8, StubBytes(arch, n)))
  }

  // arm64 adds the addend to the address of the stub; only 0 leaves the stub's entry.
  predicate EntersStub(arch: Arch, sec: SectionInfo, m: Mem, j: Job)
  {
    IsFar(arch, sec, m, j) && arch.AArch64? ==> j.addend == 0
  }

  lemma AdjustOf(arch: Arch, sec: SectionInfo, m: Mem, j: Job)
    requires IsFar(arch, sec, m, j) && EntersStub(arch, sec, m, j)
    ensures -8 <= PlanOf(arch, sec, m, j).value.adjust <= 0
    ensures if arch.AArch64? then Arm64.IsBranch(j.rtype) else Arm.IsCall(j.rtype)
  {
  }

  predicate BranchRange(arch: Arch, v: int)
  {
    if arch.AArch64? then IsInt64(28, v) else IsInt32(26, v)
  }

  lemma ViaNearStub(arch: Arch, P: int, at: int, adjust: int)
    requires 0 <= P < Limit(arch) && 0 <= at < Limit(arch) && 0 <= at + adjust - P < Reach(arch)
    ensures ViaStub(arch, P, at, adjust) == Ok(at + adjust - P) && BranchRange(arch, at + adjust - P)
  {
    SmallSigned(at + adjust - P);
    Ranges(at + adjust - P);
    assert Addr(arch, P) == P && Addr(arch, at) == at;
    hide IsInt64, IsInt32, S64, S32;
  }

  // Every stub of a reachable region is in reach of every place of its section.
  lemma StubInReach(arch: Arch, sec: SectionInfo, n: nat, m: Mem, at: int, P: nat, adjust: int)
    requires Region(arch, sec, n) && Reachable(arch, sec, n, m) && -8 <= adjust <= 0
    requires sec.start <= P < sec.start + sec.size
    requires sec.start + sec.size + 8 <= at && at + StubSize(arch) <= End(arch, sec, n)
    ensures ViaStub(arch, P, at, adjust) == Ok(at + adjust - P) && BranchRange(arch, at + adjust - P)
  {
    hide ViaStub, BranchRange;
    ViaNearStub(arch, P, at, adjust);
  }

  lemma BranchEncodes(arch: Arch, t: nat, w: nat, v: int)
    requires if arch.AArch64? then Arm64.IsBranch(t) else Arm.IsCall(t)
    requires BranchRange(arch, v) && w < Pow2(8 * Width(arch, t))
    ensures Encode(arch, t, w, v).Ok?
  {
    hide IsInt64, IsInt32, Pow2;
  }

  lemma MakeSucceeds(arch: Arch, sec: SectionInfo, n: nat, t: Table, target: int)
    requires Region(arch, sec, n) && Reachable(arch, sec, n, t.mem) && |t.stubs| < n
    ensures MakeStub(arch, sec, t, target).Ok?
  {
    SlotInRegion(arch, sec, n, |t.stubs|);
    hide StubCode, StubAddress, Region;
    assert StubBytes(arch, |t.stubs|) + StubSize(arch) <= StubBytes(arch, n);
  }

  lemma NextInReach(arch: Arch, sec: SectionInfo, n: nat, m: Mem, k: nat, P: nat, adjust: int)
    requires Region(arch, sec, n) && Reachable(arch, sec, n, m) && k < n && -8 <= adjust <= 0
    requires sec.start <= P < sec.start + sec.size
    ensures ViaStub(arch, P, StubAddress(arch, sec, k), adjust).Ok?
    ensures BranchRange(arch, ViaStub(arch, P, StubAddress(arch, sec, k), adjust).value)
  {
    SlotInRegion(arch, sec, n, k);
    var at := StubAddress(arch, sec, k);
    SlotBehind(arch, sec, n, Stub(at, 0), k);
    hide ViaStub, BranchRange, Region, Reachable, End, StubAddress, StubBytes;
    StubInReach(arch, sec, n, m, at, P, adjust);
  }

  // A far branch always gets a stub, and the stub is always in reach.
  lemma ResolveSucceeds(arch: Arch, sec: SectionInfo, far: set<int>, t: Table, plan: Plan, P: nat)
    requires TableOk(arch, sec, far, t) && Region(arch, sec, |far|) && Reachable(arch, sec, |far|, t.mem)
    requires plan.Via? && plan.target in far && -8 <= plan.adjust <= 0
    requires sec.start <= P < sec.start + sec.size
    ensures Resolve(arch, sec, t, plan, P).Ok? && BranchRange(arch, Resolve(arch, sec, t, plan, P).value.value)
  {
    hide TableOk, Region, Reachable, End, StubSize, FindStub, ViaStub, BranchRange, MakeStub, StubAddress, Targets;
    if FindStub(t.stubs, plan.target).Some? {
      var at := FindStub(t.stubs, plan.target).value;
      FoundIffTarget(t.stubs, plan.target);
      SlotsBehind(arch, sec, far, t);
      StubInReach(arch, sec, |far|, t.mem, at, P, plan.adjust);
    } else {
      TableFits(arch, sec, far, t);
      MakeSucceeds(arch, sec, |far|, t, plan.target);
      NextInReach(arch, sec, |far|, t.mem, |t.stubs|, P, plan.adjust);
    }
  }

  // One relocation succeeds if it passes its own checks.
  lemma RelocateSucceeds(arch: Arch, sec: SectionInfo, far: set<int>, t: Table, j: Job)
    requires TableOk(arch, sec, far, t) && Region(arch, sec, |far|) && Reachable(arch, sec, |far|, t.mem)
    requires InSection(arch, sec, j) && AsksFor(arch, sec, far, t.mem, j)
    requires Passes(arch, sec, t.mem, j) && EntersStub(arch, sec, t.mem, j)
    ensures Relocate(arch, sec, t, j).Ok?
  {
    var P, n, plan := PlaceOf(arch, sec, j), Width(arch, j.rtype), PlanOf(arch, sec, t.mem, j).value;
    PlaceInRegion(arch, sec, |far|, j);
    if plan.Via? {
      AdjustOf(arch, sec, t.mem, j);
      WidthPositive(arch, j.rtype);
      hide TableOk, Region, Reachable, PlanOf, PlaceOf, Width, Resolve, BranchRange, Pow2, Encode, Write;
      ResolveSucceeds(arch, sec, far, t, plan, P);
      ResolveKeeps(arch, sec, far, t, plan, P);
      var q := Resolve(arch, sec, t, plan, P).value;
      assert Mapped(q.table.mem, P, n) by { assert forall x :: x in t.mem <==> x in q.table.mem; }
      BranchEncodes(arch, j.rtype, PlaceContents(q.table.mem, P, n), q.value);
    } else {
      hide TableOk, Region, Reachable, PlanOf, PlaceOf, Width, Pow2, Encode, Write;
      assert Resolve(arch, sec, t, plan, P) == Ok(Resolved(t, plan.value));
    }
  }

  lemma WidthPositive(arch: Arch, t: nat)
    ensures Width(arch, t) > 0
  {
  }

  ghost predicate AllReachable(arch: Arch, secs: seq<SectionInfo>, far: seq<set<int>>, m: Mem)
  {
    |far| == |secs|
    && forall i :: 0 <= i < |secs| && Active(secs[i]) ==> Reachable(arch, secs[i], |far[i]|, m)
  }

  ghost predicate AllPass(arch: Arch, secs: seq<SectionInfo>, m: Mem, jobs: seq<Job>)
  {
    forall k :: 0 <= k < |jobs| ==> jobs[k].sec < |secs| && Passes(arch, secs[jobs[k].sec], m, jobs[k])
  }

  // The code accepts every relocation on the original memory.
  ghost predicate AllAccepted(arch: Arch, secs: seq<SectionInfo>, m: Mem, jobs: seq<Job>)
  {
    forall k :: 0 <= k < |jobs| ==> jobs[k].sec < |secs| && Accepted(arch, secs[jobs[k].sec], m, jobs[k])
  }

  lemma AllPassIff(arch: Arch, secs: seq<SectionInfo>, m: Mem, jobs: seq<Job>)
    ensures AllPass(arch, secs, m, jobs) <==> AllAccepted(arch, secs, m, jobs)
  {
    hide Passes, Accepted;
    forall k | 0 <= k < |jobs| && jobs[k].sec < |secs|
      ensures Passes(arch, secs[jobs[k].sec], m, jobs[k]) <==> Accepted(arch, secs[jobs[k].sec], m, jobs[k])
    {
      PassesIff(arch, secs[jobs[k].sec], m, jobs[k]);
    }
  }

  ghost predicate AllEnter(arch: Arch, secs: seq<SectionInfo>, m: Mem, jobs: seq<Job>)
  {
    forall k :: 0 <= k < |jobs| ==> jobs[k].sec < |secs| && EntersStub(arch, secs[jobs[k].sec], m, jobs[k])
  }

  lemma PassesSame(arch: Arch, sec: SectionInfo, m: Mem, r: Mem, j: Job)
    requires SameOn(m, r, PlaceOf(arch, sec, j), Width(arch, j.rtype))
    requires Passes(arch, sec, m, j) && EntersStub(arch, sec, m, j)
    ensures Passes(arch, sec, r, j) && EntersStub(arch, sec, r, j)
  {
    hide PlaceOf, Width, Encode, Pow2;
    PlanSame(arch, sec, m, r, j);
    hide PlanOf;
    LoadSame(m, r, PlaceOf(arch, sec, j), Width(arch, j.rtype));
  }

  lemma ReachableKept(arch: Arch, secs: seq<SectionInfo>, far: seq<set<int>>, m: Mem, r: Mem)
    requires AllReachable(arch, secs, far, m) && m.Keys == r.Keys
    ensures AllReachable(arch, secs, far, r)
  {
    hide End, Reach, StubBytes;
    assert forall x :: x in m <==> x in r;
  }

  lemma StepSucceeds(arch: Arch, secs: seq<SectionInfo>, far: seq<set<int>>, m0: Mem, st: State, jobs: seq<Job>)
    requires Ready(arch, secs, far, m0, st, jobs) && jobs != []
    requires AllPass(arch, secs, m0, jobs) && AllEnter(arch, secs, m0, jobs) && AllReachable(arch, secs, far, st.mem)
    ensures jobs[0].sec < |secs| == |st.tables| && Step(arch, secs, st, jobs[0]).Ok?
  {
    FirstJob(arch, secs, far, m0, st, jobs);
    var j, sec, t := jobs[0], secs[jobs[0].sec], Table(st.mem, st.tables[jobs[0].sec]);
    assert SamePlace(arch, secs, m0, st.mem, j);
    assert Region(arch, sec, |far[j.sec]|);
    assert TableOk(arch, sec, far[j.sec], t);
    assert AllReachable(arch, secs, far, st.mem) && Reachable(arch, sec, |far[j.sec]|, st.mem);
    hide Ready, Layout, TablesOk, TableOk, Region, Reachable, AllReachable, PlanOf, PlaceOf, Width, Relocate, Passes,
         EntersStub, InSection, Encode;
    PassesSame(arch, sec, m0, st.mem, j);
    PlanSame(arch, sec, m0, st.mem, j);
    RelocateSucceeds(arch, sec, far[j.sec], t, j);
  }

  lemma {:induction false} RunSucceeds(arch: Arch, secs: seq<SectionInfo>, far: seq<set<int>>, m0: Mem, st: State,
                                       jobs: seq<Job>)
    returns (r: State)
    requires Ready(arch, secs, far, m0, st, jobs) && Fits(secs, st, jobs)
    requires AllPass(arch, secs, m0, jobs) && AllEnter(arch, secs, m0, jobs) && AllReachable(arch, secs, far, st.mem)
    ensures RunsTo(arch, secs, st, jobs, r)
    decreases |jobs|
  {
    hide Ready, Step, Stepped, AllReachable, Passes, EntersStub;
    if jobs == [] {
      r := st;
    } else {
      StepSucceeds(arch, secs, far, m0, st, jobs);
      StepReady(arch, secs, far, m0, st, jobs);
      FirstJob(arch, secs, far, m0, st, jobs);
      var next := Step(arch, secs, st, jobs[0]).value;
      SteppedTables(arch, secs, far, m0, st, jobs[0], next);
      ReachableKept(arch, secs, far, st.mem, next.mem);
      assert forall k :: 0 <= k < |jobs[1..]| ==> jobs[1..][k] == jobs[k + 1];
      r := RunSucceeds(arch, secs, far, m0, next, jobs[1..]);
    }
  }

  lemma SucceedsByPasses(arch: Arch, secs: seq<SectionInfo>, st: State, jobs: seq<Job>)
    requires Fresh(arch, secs, st, jobs) && Fits(secs, st, jobs)
    requires AllReachable(arch, secs, Far(arch, secs, st.mem, jobs), st.mem) && AllEnter(arch, secs, st.mem, jobs)
    ensures Run(arch, secs, st, jobs).Ok? <==> AllPass(arch, secs, st.mem, jobs)
  {
    if AllPass(arch, secs, st.mem, jobs) {
      FreshReady(arch, secs, st, jobs);
      hide Fresh, Ready, AllReachable, AllEnter, AllPass, Run, Fits, Far;
      var r := RunSucceeds(arch, secs, Far(arch, secs, st.mem, jobs), st.mem, st, jobs);
    } else if Run(arch, secs, st, jobs).Ok? {
      var r := Run(arch, secs, st, jobs).value;
      FreshRun(arch, secs, st, jobs, r);
      hide Fresh, AllReachable, AllEnter, Run, Fits, Far, Encode, PlaceOf, Width, PlanOf;
    }
  }

  // Making stubs never fails a pass: over short regions, with no addend left behind a stub, the pass succeeds
  // exactly when the code accepts every relocation on the original memory.
  lemma SucceedsIff(arch: Arch, secs: seq<SectionInfo>, st: State, jobs: seq<Job>)
    requires Fresh(arch, secs, st, jobs) && Fits(secs, st, jobs)
    requires AllReachable(arch, secs, Far(arch, secs, st.mem, jobs), st.mem) && AllEnter(arch, secs, st.mem, jobs)
    ensures Run(arch, secs, st, jobs).Ok? <==> AllAccepted(arch, secs, st.mem, jobs)
  {
    hide Fresh, AllReachable, AllEnter, Run, Fits, Far, AllPass, AllAccepted;
    SucceedsByPasses(arch, secs, st, jobs);
    AllPassIff(arch, secs, st.mem, jobs);
  }
}
