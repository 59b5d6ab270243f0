// How many stubs a run makes, where they lie, and when they stay inside the space reserved for them.
module Budget {
  import opened Memory
  import opened Types
  import opened Target
  import opened Plt
  import opened Pass
  import opened Runs

  // ---- the targets out of reach ----

  predicate IsFar(arch: Arch, sec: SectionInfo, m: Mem, j: Job)
  {
    var plan := PlanOf(arch, sec, m, j);
    plan.Ok? && plan.value.Via?
  }

  function FarTarget(arch: Arch, sec: SectionInfo, m: Mem, j: Job): int
    requires IsFar(arch, sec, m, j)
  {
    PlanOf(arch, sec, m, j).value.target
  }

  // Targets of section i that its branches cannot reach; a caller can compute them before the pass.
  function FarTargets(arch: Arch, sec: SectionInfo, m: Mem, jobs: seq<Job>, i: nat): set<int>
  {
    if jobs == [] then {}
    else
      FarTargets(arch, sec, m, jobs[1..], i)
      + (if jobs[0].sec == i && IsFar(arch, sec, m, jobs[0]) then {FarTarget(arch, sec, m, jobs[0])} else {})
  }

  function Far(arch: Arch, secs: seq<SectionInfo>, m: Mem, jobs: seq<Job>): (f: seq<set<int>>)
    ensures |f| == |secs|
  {
    seq(|secs|, i requires 0 <= i < |secs| => FarTargets(arch, secs[i], m, jobs, i))
  }

  // numberOfStubsForSection over the flat list
  function NumberOfStubs(arch: Arch, jobs: seq<Job>, i: nat): nat
  {
    if jobs == [] then 0
    else NumberOfStubs(arch, jobs[1..], i) + (if jobs[0].sec == i && NeedStub(arch, jobs[0].rtype) then 1 else 0)
  }

  lemma {:induction false} FarTargetsMember(arch: Arch, sec: SectionInfo, m: Mem, jobs: seq<Job>, i: nat, k: nat)
    requires k < |jobs| && jobs[k].sec == i && IsFar(arch, sec, m, jobs[k])
    ensures FarTarget(arch, sec, m, jobs[k]) in FarTargets(arch, sec, m, jobs, i)
  {
    hide IsFar, FarTarget;
    if k > 0 {
      FarTargetsMember(arch, sec, m, jobs[1..], i, k - 1);
    }
  }

  lemma {:induction false} FarTargetsWitness(arch: Arch, sec: SectionInfo, m: Mem, jobs: seq<Job>, i: nat, x: int)
    returns (k: nat)
    requires x in FarTargets(arch, sec, m, jobs, i)
    ensures k < |jobs| && jobs[k].sec == i && IsFar(arch, sec, m, jobs[k]) && FarTarget(arch, sec, m, jobs[k]) == x
  {
    hide IsFar, FarTarget;
    if jobs[0].sec == i && IsFar(arch, sec, m, jobs[0]) && FarTarget(arch, sec, m, jobs[0]) == x {
      k := 0;
    } else {
      k := FarTargetsWitness(arch, sec, m, jobs[1..], i, x);
      k := k + 1;
    }
  }

  lemma FarNeedsStub(arch: Arch, sec: SectionInfo, m: Mem, j: Job)
    requires IsFar(arch, sec, m, j)
    ensures NeedStub(arch, j.rtype)
  {
  }

  // The budget: distinct far targets never outnumber the relocations that may need a stub.
  lemma {:induction false} WithinBudget(arch: Arch, sec: SectionInfo, m: Mem, jobs: seq<Job>, i: nat)
    ensures |FarTargets(arch, sec, m, jobs, i)| <= NumberOfStubs(arch, jobs, i)
  {
    if jobs != [] {
      WithinBudget(arch, sec, m, jobs[1..], i);
      if jobs[0].sec == i && IsFar(arch, sec, m, jobs[0]) {
        FarNeedsStub(arch, sec, m, jobs[0]);
      }
    }
  }

  // ---- the setting of a pass over freshly loaded sections ----

  // No section has stubs yet; places are apart and inside their sections; the sections' regions, with just the stubs
  // that the far targets ask for, are apart.
  ghost predicate Fresh(arch: Arch, secs: seq<SectionInfo>, st: State, jobs: seq<Job>)
  {
    && Layout(arch, secs, Far(arch, secs, st.mem, jobs))
    && |st.tables| == |secs| && (forall i :: 0 <= i < |secs| ==> st.tables[i] == [])
    && (forall k :: 0 <= k < |jobs| ==>
          jobs[k].sec < |secs| && Active(secs[jobs[k].sec]) && InSection(arch, secs[jobs[k].sec], jobs[k]))
    && (forall k, l :: 0 <= k < l < |jobs| ==> ApartPlaces(arch, jobs[k], jobs[l]))
  }

  lemma FreshReady(arch: Arch, secs: seq<SectionInfo>, st: State, jobs: seq<Job>)
    requires Fresh(arch, secs, st, jobs)
    ensures Ready(arch, secs, Far(arch, secs, st.mem, jobs), st.mem, st, jobs)
  {
    hide Layout, InSection, ApartPlaces;
    var far := Far(arch, secs, st.mem, jobs);
    forall k | 0 <= k < |jobs| ensures JobOk(arch, secs, far, st.mem, jobs[k]) {
      var i := jobs[k].sec;
      assert far[i] == FarTargets(arch, secs[i], st.mem, jobs, i);
      if IsFar(arch, secs[i], st.mem, jobs[k]) {
        FarTargetsMember(arch, secs[i], st.mem, jobs, i, k);
      }
    }
  }

  // ---- the result ----

  lemma FreshRun(arch: Arch, secs: seq<SectionInfo>, st: State, jobs: seq<Job>, r: State)
    requires Fresh(arch, secs, st, jobs) && RunsTo(arch, secs, st, jobs, r)
    ensures AllPlaced(arch, secs, st.mem, r, jobs)
    ensures TablesOk(arch, secs, Far(arch, secs, st.mem, jobs), r)
    ensures r.mem.Keys == st.mem.Keys
    ensures forall i :: 0 <= i < |secs| && !Active(secs[i]) ==> r.tables[i] == []
  {
    var far := Far(arch, secs, st.mem, jobs);
    FreshReady(arch, secs, st, jobs);
    hide Ready, RunsTo, Layout, Far, TablesOk, AllPlaced;
    RunTables(arch, secs, far, st.mem, st, jobs, r);
    RunPlaces(arch, secs, far, st.mem, st, jobs, r);
  }

  lemma FarHasStub(arch: Arch, sec: SectionInfo, m: Mem, t: Table, j: Job)
    requires Placed(arch, sec, m, t, j) && IsFar(arch, sec, m, j)
    ensures FarTarget(arch, sec, m, j) in Targets(t.stubs)
  {
    hide PlanOf, PlaceOf, Width, Encode, ViaStub, FindStub, Targets;
    FoundIffTarget(t.stubs, FarTarget(arch, sec, m, j));
  }

  // A run makes exactly one stub for each distinct far target of a section, and none for anything else.
  lemma StubsMade(arch: Arch, secs: seq<SectionInfo>, st: State, jobs: seq<Job>, r: State, i: nat)
    requires Fresh(arch, secs, st, jobs) && RunsTo(arch, secs, st, jobs, r)
    requires i < |secs| && Active(secs[i])
    ensures i < |r.tables| && Targets(r.tables[i]) == FarTargets(arch, secs[i], st.mem, jobs, i)
    ensures |r.tables[i]| == |FarTargets(arch, secs[i], st.mem, jobs, i)| <= NumberOfStubs(arch, jobs, i)
  {
    hide Fresh, RunsTo, Placed, IsFar, FarTarget, TableOk;
    FreshRun(arch, secs, st, jobs, r);
    var f, t := FarTargets(arch, secs[i], st.mem, jobs, i), Table(r.mem, r.tables[i]);
    TableFits(arch, secs[i], f, t);
    forall x | x in f ensures x in Targets(t.stubs) {
      var k := FarTargetsWitness(arch, secs[i], st.mem, jobs, i, x);
      FarHasStub(arch, secs[i], st.mem, t, jobs[k]);
    }
    TargetsAreFar(arch, secs[i], f, t);
    WithinBudget(arch, secs[i], st.mem, jobs, i);
  }

  lemma TargetsAreFar(arch: Arch, sec: SectionInfo, far: set<int>, t: Table)
    requires TableOk(arch, sec, far, t)
    ensures Targets(t.stubs) <= far
  {
  }

  // The stubs of a section are pairwise disjoint and lie in [stub_offset + 8, stub_offset + 8 + STUB_SIZE * n)
  // for the budget n.
  lemma StubExtents(arch: Arch, secs: seq<SectionInfo>, st: State, jobs: seq<Job>, r: State, i: nat, k: nat)
    requires Fresh(arch, secs, st, jobs) && RunsTo(arch, secs, st, jobs, r)
    requires i < |secs| && Active(secs[i]) && i < |r.tables| && k < |r.tables[i]|
    ensures var lo := secs[i].stubOffset + 8;
      && secs[i].stubOffset == secs[i].start + secs[i].size
      && lo <= r.tables[i][k].addr
      && r.tables[i][k].addr + StubSize(arch) <= lo + StubBytes(arch, NumberOfStubs(arch, jobs, i))
      && forall l :: 0 <= l < k ==> r.tables[i][l].addr + StubSize(arch) <= r.tables[i][k].addr
  {
    FreshRun(arch, secs, st, jobs, r);
    StubsMade(arch, secs, st, jobs, r, i);
    var f, t := FarTargets(arch, secs[i], st.mem, jobs, i), Table(r.mem, r.tables[i]);
    assert TableOk(arch, secs[i], f, t);
    assert Region(arch, secs[i], |f|) by { FarRegion(arch, secs, st, jobs, i); }
    hide Fresh, RunsTo, AllPlaced, Far, FarTargets, NumberOfStubs, HoldsCode, TablesOk;
  }

  lemma FarRegion(arch: Arch, secs: seq<SectionInfo>, st: State, jobs: seq<Job>, i: nat)
    requires Fresh(arch, secs, st, jobs) && i < |secs| && Active(secs[i])
    ensures Region(arch, secs[i], |FarTargets(arch, secs[i], st.mem, jobs, i)|)
  {
    hide Region, InSection, ApartPlaces, FarTargets;
    var far := Far(arch, secs, st.mem, jobs);
    assert far[i] == FarTargets(arch, secs[i], st.mem, jobs, i);
  }

  // What the end of a run means for one relocation and the section it is in
  lemma AtEnd(arch: Arch, secs: seq<SectionInfo>, st: State, jobs: seq<Job>, r: State, k: nat)
    requires Fresh(arch, secs, st, jobs) && RunsTo(arch, secs, st, jobs, r) && k < |jobs|
    ensures var j := jobs[k];
      && j.sec < |secs| == |r.tables| && Active(secs[j.sec]) && InSection(arch, secs[j.sec], j)
      && Placed(arch, secs[j.sec], st.mem, Table(r.mem, r.tables[j.sec]), j)
      && TableOk(arch, secs[j.sec], FarTargets(arch, secs[j.sec], st.mem, jobs, j.sec), Table(r.mem, r.tables[j.sec]))
      && Region(arch, secs[j.sec], |FarTargets(arch, secs[j.sec], st.mem, jobs, j.sec)|)
  {
    hide RunsTo, Placed, TableOk, Region, FarTargets, InSection, ApartPlaces, End;
    FreshRun(arch, secs, st, jobs, r);
    var i := jobs[k].sec;
    assert Far(arch, secs, st.mem, jobs)[i] == FarTargets(arch, secs[i], st.mem, jobs, i);
  }

  // The frame: a byte outside all places and outside all stubs that were made is as it was.
  lemma FrameAtEnd(arch: Arch, secs: seq<SectionInfo>, st: State, jobs: seq<Job>, r: State, x: int)
    requires Fresh(arch, secs, st, jobs) && RunsTo(arch, secs, st, jobs, r)
    requires x in st.mem && !InPlaces(arch, secs, jobs, x)
    requires forall i :: 0 <= i < |r.tables| ==> !InSlots(arch, r.tables[i], x)
    ensures x in r.mem && r.mem[x] == st.mem[x]
  {
    var far := Far(arch, secs, st.mem, jobs);
    FreshReady(arch, secs, st, jobs);
    assert forall i :: 0 <= i < |secs| ==> st.tables[i] == [];
    hide Fresh, Ready, RunsTo, Far, TablesOk, InPlaces, InSlots;
    RunTables(arch, secs, far, st.mem, st, jobs, r);
    assert forall i :: 0 <= i < |r.tables| ==> r.tables[i][0..] == r.tables[i];
    RunFrame(arch, secs, far, st.mem, st, jobs, r, x);
  }

  // In particular everything outside the regions of the relocated sections is as it was.
  lemma OutsideKept(arch: Arch, secs: seq<SectionInfo>, st: State, jobs: seq<Job>, r: State, x: int)
    requires Fresh(arch, secs, st, jobs) && RunsTo(arch, secs, st, jobs, r) && x in st.mem
    requires forall i :: 0 <= i < |secs| && Active(secs[i]) ==>
      x < secs[i].start || End(arch, secs[i], |FarTargets(arch, secs[i], st.mem, jobs, i)|) <= x
    ensures x in r.mem && r.mem[x] == st.mem[x]
  {
    FreshRun(arch, secs, st, jobs, r);
    forall i | 0 <= i < |r.tables| ensures !InSlots(arch, r.tables[i], x) {
      if Active(secs[i]) {
        NotInStubs(arch, secs, st, jobs, r, i, x);
      }
    }
    assert !InPlaces(arch, secs, jobs, x) by { NotInPlaces(arch, secs, st, jobs, x); }
    hide Fresh, RunsTo, Far, TablesOk, AllPlaced, InPlaces, InSlots, FarTargets, End;
    FrameAtEnd(arch, secs, st, jobs, r, x);
  }

  lemma NotInStubs(arch: Arch, secs: seq<SectionInfo>, st: State, jobs: seq<Job>, r: State, i: nat, x: int)
    requires Fresh(arch, secs, st, jobs) && TablesOk(arch, secs, Far(arch, secs, st.mem, jobs), r)
    requires i < |secs| && Active(secs[i])
    requires x < secs[i].start || End(arch, secs[i], |FarTargets(arch, secs[i], st.mem, jobs, i)|) <= x
    ensures !InSlots(arch, r.tables[i], x)
  {
    FarRegion(arch, secs, st, jobs, i);
    var f := FarTargets(arch, secs[i], st.mem, jobs, i);
    assert Far(arch, secs, st.mem, jobs)[i] == f;
    hide Fresh, TableOk, Region, End, Far, FarTargets;
    SlotsBehind(arch, secs[i], f, Table(r.mem, r.tables[i]));
  }

  lemma NotInPlaces(arch: Arch, secs: seq<SectionInfo>, st: State, jobs: seq<Job>, x: int)
    requires Fresh(arch, secs, st, jobs)
    requires forall i :: 0 <= i < |secs| && Active(secs[i]) ==>
      x < secs[i].start || End(arch, secs[i], |FarTargets(arch, secs[i], st.mem, jobs, i)|) <= x
    ensures !InPlaces(arch, secs, jobs, x)
  {
    hide Region, End, PlaceOf, Width, FarTargets, Layout;
    forall k | 0 <= k < |jobs|
      ensures var P := PlaceOf(arch, secs[jobs[k].sec], jobs[k]); !(P <= x < P + Width(arch, jobs[k].rtype))
    {
      var i := jobs[k].sec;
      FarRegion(arch, secs, st, jobs, i);
      PlaceInRegion(arch, secs[i], |FarTargets(arch, secs[i], st.mem, jobs, i)|, jobs[k]);
      BytesBeforeEnd(arch, secs[i], |FarTargets(arch, secs[i], st.mem, jobs, i)|);
    }
  }

  // n bytes at a, outside the regions of all relocated sections, such as a GOT slot
  ghost predicate Beyond(arch: Arch, secs: seq<SectionInfo>, m: Mem, jobs: seq<Job>, a: int, n: nat)
  {
    forall i :: 0 <= i < |secs| && Active(secs[i]) ==>
      a + n <= secs[i].start || End(arch, secs[i], |FarTargets(arch, secs[i], m, jobs, i)|) <= a
  }

  // The pass keeps them.
  lemma BeyondKept(arch: Arch, secs: seq<SectionInfo>, st: State, jobs: seq<Job>, r: State, a: int, n: nat)
    requires Fresh(arch, secs, st, jobs) && RunsTo(arch, secs, st, jobs, r)
    requires Mapped(st.mem, a, n) && Beyond(arch, secs, st.mem, jobs, a, n)
    ensures Mapped(r.mem, a, n) && Read(r.mem, a, n) == Read(st.mem, a, n)
  {
    hide Fresh, RunsTo, FarTargets, End, Active, FromBytes;
    forall x | a <= x < a + n ensures x in r.mem && r.mem[x] == st.mem[x] {
      OutsideKept(arch, secs, st, jobs, r, x);
    }
    LoadSame(st.mem, r.mem, a, n);
  }
}
