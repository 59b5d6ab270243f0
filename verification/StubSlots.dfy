// What a run does to the stub tables in any memory layout, be it sound or not: sections may overlap the stubs of
// others.
module StubSlots {
  import opened Memory
  import opened Types
  import opened Target
  import opened Plt
  import opened Pass
  import opened Runs
  import opened Budget

  // Stub k is at slot k, and no target has two stubs.
  ghost predicate InSlotOrder(arch: Arch, sec: SectionInfo, stubs: seq<Stub>)
  {
    && (forall k :: 0 <= k < |stubs| ==> stubs[k].addr == sec.stubOffset + 8 + StubBytes(arch, k))
    && forall k, l :: 0 <= k < l < |stubs| ==> stubs[k].target != stubs[l].target
  }

  // The first n slots do not wrap around the end of the address space.
  predicate BelowLimit(arch: Arch, sec: SectionInfo, n: nat)
  {
    0 <= sec.stubOffset && sec.stubOffset + 8 + StubBytes(arch, n) <= Limit(arch)
  }

  // A relocation makes a stub exactly if its branch is far and no stub has its target.
  lemma TableAfter(arch: Arch, sec: SectionInfo, t: Table, j: Job)
    requires Relocate(arch, sec, t, j).Ok?
    ensures var r := Relocate(arch, sec, t, j).value;
      r.stubs == if IsFar(arch, sec, t.mem, j) && FarTarget(arch, sec, t.mem, j) !in Targets(t.stubs)
                 then t.stubs + [Stub(StubAddress(arch, sec, |t.stubs|), FarTarget(arch, sec, t.mem, j))]
                 else t.stubs
  {
    hide PlanOf, ViaStub, FindStub, StubAddress, StubCode, Patch, Targets;
    if IsFar(arch, sec, t.mem, j) {
      FoundIffTarget(t.stubs, FarTarget(arch, sec, t.mem, j));
    }
  }

  lemma SlotAddress(arch: Arch, sec: SectionInfo, n: nat, k: nat)
    requires BelowLimit(arch, sec, n) && k < n
    ensures StubAddress(arch, sec, k) == sec.stubOffset + 8 + StubBytes(arch, k)
  {
  }

  lemma OneMore(arch: Arch, sec: SectionInfo, stubs: seq<Stub>, s: Stub)
    requires InSlotOrder(arch, sec, stubs) && s.target !in Targets(stubs)
    requires s.addr == sec.stubOffset + 8 + StubBytes(arch, |stubs|)
    ensures InSlotOrder(arch, sec, stubs + [s]) && Targets(stubs + [s]) == Targets(stubs) + {s.target}
  {
    hide StubBytes;
    forall k | 0 <= k < |stubs| ensures stubs[k].target != s.target {
      assert stubs[k] in stubs;
    }
    forall x ensures x in Targets(stubs + [s]) <==> x in Targets(stubs) + {s.target} {
      assert forall y :: y in stubs + [s] <==> y in stubs || y == s;
      if x == s.target {
        assert s in stubs + [s];
      }
    }
  }

  // The part of the first relocation that matters for the table of section i
  lemma FirstStep(arch: Arch, secs: seq<SectionInfo>, st: State, j: Job, i: nat, n: nat)
    requires j.sec < |secs| == |st.tables| && i < |secs| && Step(arch, secs, st, j).Ok?
    requires InSlotOrder(arch, secs[i], st.tables[i])
    requires BelowLimit(arch, secs[i], n) && |st.tables[i]| + NumberOfStubs(arch, [j], i) <= n
    ensures var t, q := st.tables[i], Step(arch, secs, st, j).value.tables[i];
      && InSlotOrder(arch, secs[i], q) && |t| <= |q| <= |t| + NumberOfStubs(arch, [j], i)
      && Targets(q) == Targets(t) + FarTargets(arch, secs[i], st.mem, [j], i)
  {
    hide Relocate, InSlotOrder, StubAddress, IsFar, FarTarget, Targets, BelowLimit, StubBytes;
    assert [j][1..] == [];
    if j.sec == i {
      var sec, t := secs[i], Table(st.mem, st.tables[i]);
      TableAfter(arch, sec, t, j);
      if IsFar(arch, sec, st.mem, j) {
        FarNeedsStub(arch, sec, st.mem, j);
        if FarTarget(arch, sec, st.mem, j) !in Targets(t.stubs) {
          SlotAddress(arch, sec, n, |t.stubs|);
          OneMore(arch, sec, t.stubs, Stub(StubAddress(arch, sec, |t.stubs|), FarTarget(arch, sec, st.mem, j)));
        }
      }
    }
  }

  // the branches of section i have explicit addends
  predicate Explicit(jobs: seq<Job>, i: nat)
  {
    forall k :: 0 <= k < |jobs| && jobs[k].sec == i ==> !jobs[k].implicit
  }

  // Explicit addends do not depend on memory.
  lemma FarAnywhere(arch: Arch, sec: SectionInfo, m: Mem, r: Mem, j: Job)
    requires !j.implicit
    ensures IsFar(arch, sec, m, j) == IsFar(arch, sec, r, j)
    ensures IsFar(arch, sec, m, j) ==> FarTarget(arch, sec, m, j) == FarTarget(arch, sec, r, j)
  {
    hide Compute, PlaceOf;
  }

  lemma FarOfFirst(arch: Arch, sec: SectionInfo, m: Mem, r: Mem, jobs: seq<Job>, i: nat)
    requires jobs != [] && Explicit(jobs, i)
    ensures FarTargets(arch, sec, m, jobs, i)
      == FarTargets(arch, sec, r, [jobs[0]], i) + FarTargets(arch, sec, m, jobs[1..], i)
  {
    hide IsFar, FarTarget;
    assert [jobs[0]][1..] == [];
    FarAnywhereIf(arch, sec, m, r, jobs[0], i);
  }

  lemma FarAnywhereIf(arch: Arch, sec: SectionInfo, m: Mem, r: Mem, j: Job, i: nat)
    requires j.sec == i ==> !j.implicit
    ensures j.sec == i ==> IsFar(arch, sec, m, j) == IsFar(arch, sec, r, j)
    ensures j.sec == i && IsFar(arch, sec, m, j) ==> FarTarget(arch, sec, m, j) == FarTarget(arch, sec, r, j)
  {
    hide IsFar, FarTarget;
    if j.sec == i {
      FarAnywhere(arch, sec, m, r, j);
    }
  }

  // In every layout the stubs of a section stand in their slots, no more than relocations counted; with explicit
  // addends there is exactly one for each far target that had none.
  lemma {:induction false} TableAnyway(arch: Arch, secs: seq<SectionInfo>, m: Mem, st: State, jobs: seq<Job>, r: State,
                                       i: nat, n: nat)
    requires RunsTo(arch, secs, st, jobs, r) && i < |secs| == |st.tables| && InSlotOrder(arch, secs[i], st.tables[i])
    requires BelowLimit(arch, secs[i], n) && |st.tables[i]| + NumberOfStubs(arch, jobs, i) <= n
    ensures i < |r.tables| && InSlotOrder(arch, secs[i], r.tables[i])
    ensures |st.tables[i]| <= |r.tables[i]| <= |st.tables[i]| + NumberOfStubs(arch, jobs, i)
    ensures Explicit(jobs, i) ==> Targets(r.tables[i]) == Targets(st.tables[i]) + FarTargets(arch, secs[i], m, jobs, i)
    decreases |jobs|
  {
    hide Run, RunsTo, Step, InSlotOrder, Targets, BelowLimit, IsFar, FarTarget;
    if jobs == [] {
      RunsNot(arch, secs, st, r);
    } else {
      RunsOn(arch, secs, st, jobs, r);
      HeadFits(arch, secs, st, jobs, r);
      var next := Step(arch, secs, st, jobs[0]).value;
      CountOfFirst(arch, jobs, i);
      hide NumberOfStubs, FarTargets;
      FirstStep(arch, secs, st, jobs[0], i, n);
      TableAnyway(arch, secs, m, next, jobs[1..], r, i, n);
      if Explicit(jobs, i) {
        FarOfFirst(arch, secs[i], m, st.mem, jobs, i);
        assert Explicit(jobs[1..], i);
      }
    }
  }

  lemma HeadFits(arch: Arch, secs: seq<SectionInfo>, st: State, jobs: seq<Job>, r: State)
    requires RunsTo(arch, secs, st, jobs, r) && jobs != []
    ensures jobs[0].sec < |secs| == |st.tables|
  {
    hide Run;
  }

  lemma CountOfFirst(arch: Arch, jobs: seq<Job>, i: nat)
    requires jobs != []
    ensures NumberOfStubs(arch, jobs, i) == NumberOfStubs(arch, [jobs[0]], i) + NumberOfStubs(arch, jobs[1..], i)
  {
    assert [jobs[0]][1..] == [];
  }

  lemma DistinctInOrder(arch: Arch, sec: SectionInfo, stubs: seq<Stub>)
    requires InSlotOrder(arch, sec, stubs)
    ensures |Targets(stubs)| == |stubs|
  {
    DistinctTargets(stubs);
  }

  // A run that starts without stubs, whatever lies behind the section. With implicit addends a stub may overwrite the
  // place of a later branch, so only their number is known.
  lemma StubsAnyway(arch: Arch, secs: seq<SectionInfo>, st: State, jobs: seq<Job>, r: State, i: nat)
    requires RunsTo(arch, secs, st, jobs, r) && i < |secs| == |st.tables| && st.tables[i] == []
    requires BelowLimit(arch, secs[i], NumberOfStubs(arch, jobs, i))
    ensures i < |r.tables| && InSlotOrder(arch, secs[i], r.tables[i])
    ensures |r.tables[i]| <= NumberOfStubs(arch, jobs, i)
    ensures Explicit(jobs, i) ==> |r.tables[i]| == |FarTargets(arch, secs[i], st.mem, jobs, i)|
  {
    assert InSlotOrder(arch, secs[i], st.tables[i]) && Targets(st.tables[i]) == {};
    hide RunsTo, NumberOfStubs, FarTargets, InSlotOrder, BelowLimit, Targets;
    TableAnyway(arch, secs, st.mem, st, jobs, r, i, NumberOfStubs(arch, jobs, i));
    DistinctInOrder(arch, secs[i], r.tables[i]);
    assert Explicit(jobs, i) ==> Targets(r.tables[i]) == FarTargets(arch, secs[i], st.mem, jobs, i);
  }

  // ---- the reserved space ----

  // load_sections reserves STUB_SIZE * n bytes from stub_offset on, but stubs start 8 bytes later.
  ghost predicate InsideReserved(arch: Arch, sec: SectionInfo, stubs: seq<Stub>, n: nat)
  {
    forall s :: s in stubs ==>
      sec.stubOffset <= s.addr && s.addr + StubSize(arch) <= sec.stubOffset + StubBytes(arch, n)
  }

  // no stub, or fewer than the n counted
  predicate NotAll(n: nat, k: nat) { k == 0 || k < n }

  lemma ReservedByCount(arch: Arch, sec: SectionInfo, stubs: seq<Stub>, n: nat)
    requires InSlotOrder(arch, sec, stubs) && |stubs| <= n
    ensures InsideReserved(arch, sec, stubs, n) <==> NotAll(n, |stubs|)
  {
    if stubs != [] && |stubs| == n {
      assert stubs[n - 1] in stubs;
    }
    if |stubs| < n {
      forall s | s in stubs
        ensures sec.stubOffset <= s.addr && s.addr + StubSize(arch) <= sec.stubOffset + StubBytes(arch, n)
      {
        var k :| 0 <= k < |stubs| && stubs[k] == s;
      }
    }
  }

  // Exactly when the reserved space suffices, in every layout: if no stub is made, or if some relocation of the budget
  // gets no stub of its own. With explicit addends the stubs made are the distinct far targets, known before the pass.
  lemma ReservedIff(arch: Arch, secs: seq<SectionInfo>, st: State, jobs: seq<Job>, r: State, i: nat)
    requires RunsTo(arch, secs, st, jobs, r) && i < |secs| == |st.tables| && st.tables[i] == []
    requires BelowLimit(arch, secs[i], NumberOfStubs(arch, jobs, i))
    ensures i < |r.tables|
    ensures var n := NumberOfStubs(arch, jobs, i);
      && (InsideReserved(arch, secs[i], r.tables[i], n) <==> NotAll(n, |r.tables[i]|))
      && (Explicit(jobs, i) ==> |r.tables[i]| == |FarTargets(arch, secs[i], st.mem, jobs, i)|)
  {
    hide RunsTo, NumberOfStubs, FarTargets, BelowLimit, Explicit, InSlotOrder, InsideReserved;
    StubsAnyway(arch, secs, st, jobs, r, i);
    ReservedByCount(arch, secs[i], r.tables[i], NumberOfStubs(arch, jobs, i));
  }
}
