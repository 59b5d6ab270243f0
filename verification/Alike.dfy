// The pass reads and writes the regions of its sections only: over memories that agree there it does the same.
module Alike {
  import opened Memory
  import opened Types
  import opened Target
  import opened Plt
  import opened Pass
  import opened Runs

  // Wherever m and r agree, p and q do.
  ghost predicate Follows(m: Mem, r: Mem, p: Mem, q: Mem)
  {
    forall a :: Same(m, r, a) ==> Same(p, q, a)
  }

  ghost predicate SameRegion(arch: Arch, sec: SectionInfo, n: nat, m: Mem, r: Mem)
  {
    forall a :: sec.start <= a < End(arch, sec, n) ==> Same(m, r, a)
  }

  ghost predicate SameRegions(arch: Arch, secs: seq<SectionInfo>, far: seq<set<int>>, m: Mem, r: Mem)
    requires |far| == |secs|
  {
    forall i :: 0 <= i < |secs| && Active(secs[i]) ==> SameRegion(arch, secs[i], |far[i]|, m, r)
  }

  lemma StoreSame(m: Mem, r: Mem, a: int, bs: seq<u8>)
    requires Mapped(m, a, |bs|) && Mapped(r, a, |bs|)
    ensures Follows(m, r, Store(m, a, bs), Store(r, a, bs))
  {
  }

  lemma RangeSame(arch: Arch, sec: SectionInfo, n: nat, m: Mem, r: Mem, a: int, k: nat)
    requires SameRegion(arch, sec, n, m, r) && sec.start <= a && a + k <= End(arch, sec, n)
    ensures SameOn(m, r, a, k) && (Mapped(m, a, k) <==> Mapped(r, a, k))
  {
    hide End;
    forall i | a <= i < a + k ensures (i in m <==> i in r) && (i in m ==> m[i] == r[i]) {
      assert Same(m, r, i);
    }
    assert forall i :: a <= i < a + k ==> (i in m <==> i in r);
  }

  // ---- one relocation ----

  lemma MakeAlike(arch: Arch, sec: SectionInfo, n: nat, t: Table, r: Mem, target: int)
    requires Region(arch, sec, n) && |t.stubs| < n && SameRegion(arch, sec, n, t.mem, r)
    ensures var a, b := MakeStub(arch, sec, t, target), MakeStub(arch, sec, Table(r, t.stubs), target);
      && (a.Ok? <==> b.Ok?)
      && (a.Ok? ==> a.value.stubs == b.value.stubs && Follows(t.mem, r, a.value.mem, b.value.mem))
  {
    var at := StubAddress(arch, sec, |t.stubs|);
    SlotInRegion(arch, sec, n, |t.stubs|);
    assert StubBytes(arch, |t.stubs|) >= 0;
    hide StubCode, Region, End, StubAddress, SameRegion, Follows;
    RangeSame(arch, sec, n, t.mem, r, at, StubSize(arch));
    if IsMapped(t.mem, at, StubSize(arch)) {
      StoreSame(t.mem, r, at, StubCode(arch, target));
    }
  }

  lemma ResolveAlike(arch: Arch, sec: SectionInfo, far: set<int>, t: Table, r: Mem, plan: Plan, P: nat)
    requires TableOk(arch, sec, far, t) && Region(arch, sec, |far|) && SameRegion(arch, sec, |far|, t.mem, r)
    requires plan.Via? ==> plan.target in far
    ensures var a, b := Pass.Resolve(arch, sec, t, plan, P), Pass.Resolve(arch, sec, Table(r, t.stubs), plan, P);
      && (a.Ok? <==> b.Ok?)
      && (a.Ok? ==>
            && a.value.value == b.value.value && a.value.table.stubs == b.value.table.stubs
            && Follows(t.mem, r, a.value.table.mem, b.value.table.mem))
  {
    hide TableOk, Region, SameRegion, ViaStub, FindStub, MakeStub, StubAddress, Same;
    if plan.Via? && FindStub(t.stubs, plan.target).None? {
      TableFits(arch, sec, far, t);
      MakeAlike(arch, sec, |far|, t, r, plan.target);
    }
  }

  lemma PatchAlike(arch: Arch, m: Mem, r: Mem, P: nat, t: nat, v: int)
    requires SameOn(m, r, P, Width(arch, t))
    ensures var a, b := Patch(arch, m, P, t, v), Patch(arch, r, P, t, v);
      && (a.Ok? <==> b.Ok?) && (a.Ok? ==> Follows(m, r, a.value, b.value))
  {
    var n := Width(arch, t);
    hide Encode, Width, Follows;
    if IsMapped(m, P, n) {
      LoadSame(m, r, P, n);
      var w := Encode(arch, t, PlaceContents(m, P, n), v);
      if w.Ok? {
        StoreSame(m, r, P, ToBytes(w.value, n));
      }
    } else {
      assert !Mapped(r, P, n);
    }
  }

  lemma RelocateAlike(arch: Arch, sec: SectionInfo, far: set<int>, t: Table, r: Mem, j: Job)
    requires TableOk(arch, sec, far, t) && Region(arch, sec, |far|) && SameRegion(arch, sec, |far|, t.mem, r)
    requires InSection(arch, sec, j) && AsksFor(arch, sec, far, t.mem, j)
    ensures var a, b := Relocate(arch, sec, t, j), Relocate(arch, sec, Table(r, t.stubs), j);
      && (a.Ok? <==> b.Ok?)
      && (a.Ok? ==> a.value.stubs == b.value.stubs && Follows(t.mem, r, a.value.mem, b.value.mem))
  {
    var P, n, plan := PlaceOf(arch, sec, j), Width(arch, j.rtype), PlanOf(arch, sec, t.mem, j);
    PlaceInRegion(arch, sec, |far|, j);
    BytesBeforeEnd(arch, sec, |far|);
    RangeSame(arch, sec, |far|, t.mem, r, P, n);
    PlanSame(arch, sec, t.mem, r, j);
    hide TableOk, Region, SameRegion, PlanOf, PlaceOf, Width, Pass.Resolve, Patch, End, Same;
    if plan.Ok? {
      ResolveAlike(arch, sec, far, t, r, plan.value, P);
      var a, b := Pass.Resolve(arch, sec, t, plan.value, P), Pass.Resolve(arch, sec, Table(r, t.stubs), plan.value, P);
      if a.Ok? {
        FollowOn(t.mem, r, a.value.table.mem, b.value.table.mem, P, n);
        PatchAlike(arch, a.value.table.mem, b.value.table.mem, P, j.rtype, a.value.value);
      }
    }
  }

  lemma FollowOn(m: Mem, r: Mem, p: Mem, q: Mem, a: int, n: nat)
    requires SameOn(m, r, a, n) && Follows(m, r, p, q)
    ensures SameOn(p, q, a, n)
  {
    forall i | a <= i < a + n ensures (i in p <==> i in q) && (i in p ==> p[i] == q[i]) {
      assert Same(m, r, i);
      assert Same(p, q, i);
    }
  }

  // ---- whole runs ----

  lemma RegionsFollow(arch: Arch, secs: seq<SectionInfo>, far: seq<set<int>>, m: Mem, r: Mem, p: Mem, q: Mem)
    requires |far| == |secs| && SameRegions(arch, secs, far, m, r) && Follows(m, r, p, q)
    ensures SameRegions(arch, secs, far, p, q)
  {
    hide End, Same, Active;
  }

  lemma StepAlike(arch: Arch, secs: seq<SectionInfo>, far: seq<set<int>>, m0: Mem, st: State, r: Mem, jobs: seq<Job>)
    requires Ready(arch, secs, far, m0, st, jobs) && jobs != [] && SameRegions(arch, secs, far, st.mem, r)
    ensures jobs[0].sec < |secs| == |st.tables|
    ensures var a, b := Step(arch, secs, st, jobs[0]), Step(arch, secs, State(r, st.tables), jobs[0]);
      && (a.Ok? <==> b.Ok?)
      && (a.Ok? ==> a.value.tables == b.value.tables && Follows(st.mem, r, a.value.mem, b.value.mem))
  {
    FirstJob(arch, secs, far, m0, st, jobs);
    var j, sec, t := jobs[0], secs[jobs[0].sec], Table(st.mem, st.tables[jobs[0].sec]);
    assert SamePlace(arch, secs, m0, st.mem, j);
    assert Region(arch, sec, |far[j.sec]|) && TableOk(arch, sec, far[j.sec], t);
    hide Ready, Layout, TablesOk, TableOk, Region, SameRegion, PlanOf, PlaceOf, Width, Relocate, InSection, Same;
    PlanSame(arch, sec, m0, st.mem, j);
    RelocateAlike(arch, sec, far[j.sec], t, r, j);
  }

  // Two runs over memories that agree on the regions make the same stubs and the same changes.
  lemma {:induction false} RunAlike(arch: Arch, secs: seq<SectionInfo>, far: seq<set<int>>, m0: Mem, st: State, r: Mem,
                                    jobs: seq<Job>)
    requires Ready(arch, secs, far, m0, st, jobs) && Fits(secs, st, jobs) && SameRegions(arch, secs, far, st.mem, r)
    ensures Fits(secs, State(r, st.tables), jobs)
    ensures var a, b := Run(arch, secs, st, jobs), Run(arch, secs, State(r, st.tables), jobs);
      && (a.Ok? <==> b.Ok?)
      && (a.Ok? ==> a.value.tables == b.value.tables && Follows(st.mem, r, a.value.mem, b.value.mem))
    decreases |jobs|
  {
    hide Ready, Step, Stepped, SameRegions, Same;
    if jobs != [] {
      FirstJob(arch, secs, far, m0, st, jobs);
      StepAlike(arch, secs, far, m0, st, r, jobs);
      var a, b := Step(arch, secs, st, jobs[0]), Step(arch, secs, State(r, st.tables), jobs[0]);
      if a.Ok? {
        StepReady(arch, secs, far, m0, st, jobs);
        RegionsFollow(arch, secs, far, st.mem, r, a.value.mem, b.value.mem);
        assert forall k :: 0 <= k < |jobs[1..]| ==> jobs[1..][k] == jobs[k + 1];
        assert b.value == State(b.value.mem, a.value.tables);
        RunAlike(arch, secs, far, m0, a.value, b.value.mem, jobs[1..]);
      }
    }
  }
}
