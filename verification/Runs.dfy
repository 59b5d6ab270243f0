// Whole runs of the relocation pass: what holds at the end for every relocation, every stub and every other byte.
module Runs {
  import opened Memory
  import opened Results
  import opened Types
  import opened Target
  import opened Plt
  import opened Pass

  // ---- the setting ----

  predicate Active(sec: SectionInfo) { sec.kind != OTHER }

  // Sections that are relocated lie apart, each with room for the stubs of the targets far[i] behind it.
  ghost predicate Layout(arch: Arch, secs: seq<SectionInfo>, far: seq<set<int>>)
  {
    && |far| == |secs|
    && (forall i :: 0 <= i < |secs| && Active(secs[i]) ==> Region(arch, secs[i], |far[i]|))
    && (forall i, k :: 0 <= i < k < |secs| && Active(secs[i]) && Active(secs[k]) ==>
          End(arch, secs[i], |far[i]|) <= secs[k].start || End(arch, secs[k], |far[k]|) <= secs[i].start)
  }

  ghost predicate TablesOk(arch: Arch, secs: seq<SectionInfo>, far: seq<set<int>>, st: State)
    requires |far| == |secs|
  {
    && |st.tables| == |secs|
    && forall i :: 0 <= i < |secs| && Active(secs[i]) ==> TableOk(arch, secs[i], far[i], Table(st.mem, st.tables[i]))
  }

  // A relocation of an active section whose place lies in the section; its stub target is among far.
  ghost predicate JobOk(arch: Arch, secs: seq<SectionInfo>, far: seq<set<int>>, m0: Mem, j: Job)
    requires |far| == |secs|
  {
    && j.sec < |secs| && Active(secs[j.sec])
    && InSection(arch, secs[j.sec], j) && AsksFor(arch, secs[j.sec], far[j.sec], m0, j)
  }

  predicate ApartPlaces(arch: Arch, a: Job, b: Job)
  {
    a.sec == b.sec ==> Disjoint(a.offset, Width(arch, a.rtype), b.offset, Width(arch, b.rtype))
  }

  ghost predicate SamePlace(arch: Arch, secs: seq<SectionInfo>, m0: Mem, m: Mem, j: Job)
    requires j.sec < |secs|
  {
    SameOn(m0, m, PlaceOf(arch, secs[j.sec], j), Width(arch, j.rtype))
  }

  // The pass is about to run jobs from st, and memory at their places is still that of m0.
  ghost predicate Ready(arch: Arch, secs: seq<SectionInfo>, far: seq<set<int>>, m0: Mem, st: State, jobs: seq<Job>)
  {
    && Layout(arch, secs, far) && TablesOk(arch, secs, far, st)
    && (forall k :: 0 <= k < |jobs| ==> JobOk(arch, secs, far, m0, jobs[k]))
    && (forall k, l :: 0 <= k < l < |jobs| ==> ApartPlaces(arch, jobs[k], jobs[l]))
    && (forall k :: 0 <= k < |jobs| ==> SamePlace(arch, secs, m0, st.mem, jobs[k]))
  }

  // ---- one step ----

  lemma PlanSame(arch: Arch, sec: SectionInfo, m: Mem, r: Mem, j: Job)
    requires SameOn(m, r, PlaceOf(arch, sec, j), Width(arch, j.rtype))
    ensures PlanOf(arch, sec, m, j) == PlanOf(arch, sec, r, j)
  {
    hide Compute, PlaceOf;
    var P := PlaceOf(arch, sec, j);
    if arch.AArch32? && Mapped(m, P, 4) {
      LoadSame(m, r, P, 4);
    }
    assert arch.AArch32? ==> (Mapped(m, P, 4) <==> Mapped(r, P, 4));
  }

  lemma PlacedSame(arch: Arch, sec: SectionInfo, m: Mem, r: Mem, t: Table, j: Job)
    requires SameOn(m, r, PlaceOf(arch, sec, j), Width(arch, j.rtype)) && Placed(arch, sec, m, t, j)
    ensures Placed(arch, sec, r, t, j)
  {
    hide PlaceOf, Encode, ValueIn;
    PlanSame(arch, sec, m, r, j);
    hide PlanOf;
    LoadSame(m, r, PlaceOf(arch, sec, j), Width(arch, j.rtype));
  }

  // The writes of one relocation stay in the region of its section.
  lemma ChangesInside(arch: Arch, sec: SectionInfo, far: set<int>, m: Mem, t: Table, old_: nat, P: nat, n: nat, x: int)
    requires TableOk(arch, sec, far, t) && Region(arch, sec, |far|) && old_ <= |t.stubs|
    requires sec.start <= P && P + n <= sec.start + sec.size
    requires OnlyChanged(arch, m, t.mem, P, n, t.stubs[old_..]) && x in m
    requires x < sec.start || End(arch, sec, |far|) <= x || (x < sec.start + sec.size && !(P <= x < P + n))
    ensures m[x] == t.mem[x]
  {
    SlotsBehind(arch, sec, far, t);
    assert sec.start + sec.size <= End(arch, sec, |far|);
    hide TableOk, Region, End, StubSize;
    forall s | s in t.stubs[old_..] ensures !(s.addr <= x < s.addr + StubSize(arch)) {
      assert s in t.stubs;
    }
  }

  // What the step for the first relocation changes, and that it ends with its own encoding in place
  ghost predicate Stepped(arch: Arch, secs: seq<SectionInfo>, far: seq<set<int>>, m0: Mem, st: State, j: Job, r: State)
    requires j.sec < |secs| == |far| == |st.tables|
  {
    && |r.tables| == |secs|
    && r.tables == st.tables[j.sec := r.tables[j.sec]] && st.tables[j.sec] <= r.tables[j.sec]
    && OnlyChanged(arch, st.mem, r.mem, PlaceOf(arch, secs[j.sec], j), Width(arch, j.rtype),
                   r.tables[j.sec][|st.tables[j.sec]|..])
    && TableOk(arch, secs[j.sec], far[j.sec], Table(r.mem, r.tables[j.sec]))
    && Placed(arch, secs[j.sec], m0, Table(r.mem, r.tables[j.sec]), j)
  }

  lemma StepDoes(arch: Arch, secs: seq<SectionInfo>, far: seq<set<int>>, m0: Mem, st: State, j: Job)
    requires Layout(arch, secs, far) && TablesOk(arch, secs, far, st)
    requires JobOk(arch, secs, far, m0, j) && SamePlace(arch, secs, m0, st.mem, j)
    requires Step(arch, secs, st, j).Ok?
    ensures Stepped(arch, secs, far, m0, st, j, Step(arch, secs, st, j).value)
  {
    hide Relocate, TableOk, Region, PlanOf, PlaceOf, Width, Placed, OnlyChanged, InSection;
    var sec, t := secs[j.sec], Table(st.mem, st.tables[j.sec]);
    PlanSame(arch, sec, m0, st.mem, j);
    RelocateKeeps(arch, sec, far[j.sec], t, j);
    var r := Relocate(arch, sec, t, j).value;
    BackToFirst(arch, sec, m0, st.mem, r, j);
  }

  lemma BackToFirst(arch: Arch, sec: SectionInfo, m0: Mem, m: Mem, r: Table, j: Job)
    requires SameOn(m0, m, PlaceOf(arch, sec, j), Width(arch, j.rtype)) && Placed(arch, sec, m, r, j)
    ensures Placed(arch, sec, m0, r, j)
  {
    hide PlaceOf, Width, Placed;
    assert SameOn(m, m0, PlaceOf(arch, sec, j), Width(arch, j.rtype));
    PlacedSame(arch, sec, m, m0, r, j);
  }

  // The tables of the other sections are out of reach of the step.
  lemma OthersKept(arch: Arch, secs: seq<SectionInfo>, far: seq<set<int>>, m0: Mem, st: State, j: Job, r: State, i: nat)
    requires Layout(arch, secs, far) && TablesOk(arch, secs, far, st) && JobOk(arch, secs, far, m0, j)
    requires Stepped(arch, secs, far, m0, st, j, r)
    requires i < |secs| && i != j.sec && Active(secs[i])
    ensures TableOk(arch, secs[i], far[i], Table(r.mem, r.tables[i]))
  {
    var t := Table(st.mem, st.tables[i]);
    var sec := secs[j.sec];
    SlotsBehind(arch, secs[i], far[i], t);
    PlaceInRegion(arch, sec, |far[j.sec]|, j);
    var P, n := PlaceOf(arch, sec, j), Width(arch, j.rtype);
    assert Region(arch, secs[i], |far[i]|) && Region(arch, sec, |far[j.sec]|);
    hide TableOk, Region, PlaceOf, Width, OnlyChanged, StubSize, Placed;
    forall k | 0 <= k < |t.stubs| ensures SameOn(st.mem, r.mem, t.stubs[k].addr, StubSize(arch)) {
      assert t.stubs[k] in t.stubs;
      ChangedOutside(arch, sec, far[j.sec], st.mem, Table(r.mem, r.tables[j.sec]), |st.tables[j.sec]|, P, n,
                     t.stubs[k].addr, StubSize(arch));
    }
    TableKept(arch, secs[i], far[i], t, r.mem);
  }

  // A range outside the region of the section, or inside its bytes but away from the place, is the same afterwards.
  lemma ChangedOutside(arch: Arch, sec: SectionInfo, far: set<int>, m: Mem, t: Table, old_: nat, P: nat, n: nat, a: int,
                       k: nat)
    requires TableOk(arch, sec, far, t) && Region(arch, sec, |far|) && old_ <= |t.stubs|
    requires sec.start <= P && P + n <= sec.start + sec.size
    requires OnlyChanged(arch, m, t.mem, P, n, t.stubs[old_..])
    requires a + k <= sec.start || End(arch, sec, |far|) <= a || (a + k <= sec.start + sec.size && Disjoint(a, k, P, n))
    ensures SameOn(m, t.mem, a, k)
  {
    assert forall x :: x in m <==> x in t.mem;
    hide TableOk, Region, OnlyChanged, End;
    forall x | a <= x < a + k && x in m ensures m[x] == t.mem[x] {
      ChangesInside(arch, sec, far, m, t, old_, P, n, x);
    }
  }

  lemma OtherPlaceKept(arch: Arch, secs: seq<SectionInfo>, far: seq<set<int>>, m0: Mem, st: State, j: Job, r: State,
                       o: Job)
    requires Layout(arch, secs, far) && TablesOk(arch, secs, far, st)
    requires JobOk(arch, secs, far, m0, j) && JobOk(arch, secs, far, m0, o) && ApartPlaces(arch, j, o)
    requires Stepped(arch, secs, far, m0, st, j, r)
    ensures SamePlace(arch, secs, st.mem, r.mem, o)
  {
    var sec := secs[j.sec];
    assert Region(arch, secs[o.sec], |far[o.sec]|) && Region(arch, sec, |far[j.sec]|);
    PlaceInRegion(arch, sec, |far[j.sec]|, j);
    PlaceInRegion(arch, secs[o.sec], |far[o.sec]|, o);
    var P, n := PlaceOf(arch, sec, j), Width(arch, j.rtype);
    var Q, k := PlaceOf(arch, secs[o.sec], o), Width(arch, o.rtype);
    BytesBeforeEnd(arch, secs[o.sec], |far[o.sec]|);
    hide TableOk, Region, PlaceOf, Width, OnlyChanged, Placed, InSection, End, AsksFor;
    ChangedOutside(arch, sec, far[j.sec], st.mem, Table(r.mem, r.tables[j.sec]), |st.tables[j.sec]|, P, n, Q, k);
  }

  lemma BytesBeforeEnd(arch: Arch, sec: SectionInfo, n: nat)
    requires Region(arch, sec, n)
    ensures sec.start + sec.size <= End(arch, sec, n)
  {
  }

  lemma SameTrans(m: Mem, r: Mem, q: Mem, a: int, n: nat)
    requires SameOn(m, r, a, n) && SameOn(r, q, a, n)
    ensures SameOn(m, q, a, n)
  {
  }

  // After a step the pass is ready for the rest.
  lemma StepReady(arch: Arch, secs: seq<SectionInfo>, far: seq<set<int>>, m0: Mem, st: State, jobs: seq<Job>)
    requires Ready(arch, secs, far, m0, st, jobs) && jobs != []
    requires Step(arch, secs, st, jobs[0]).Ok?
    ensures Stepped(arch, secs, far, m0, st, jobs[0], Step(arch, secs, st, jobs[0]).value)
    ensures Ready(arch, secs, far, m0, Step(arch, secs, st, jobs[0]).value, jobs[1..])
  {
    hide Step, TableOk, SameOn, PlaceOf, Region, End, InSection, AsksFor, ApartPlaces, Placed, OnlyChanged;
    var j, rest := jobs[0], jobs[1..];
    assert JobOk(arch, secs, far, m0, j) && SamePlace(arch, secs, m0, st.mem, j);
    StepDoes(arch, secs, far, m0, st, j);
    var r := Step(arch, secs, st, j).value;
    forall i | 0 <= i < |secs| && Active(secs[i]) ensures TableOk(arch, secs[i], far[i], Table(r.mem, r.tables[i])) {
      if i != j.sec {
        OthersKept(arch, secs, far, m0, st, j, r, i);
      }
    }
    forall k | 0 <= k < |rest| ensures SamePlace(arch, secs, m0, r.mem, rest[k]) {
      var o := jobs[k + 1];
      assert JobOk(arch, secs, far, m0, o) && ApartPlaces(arch, j, o) && SamePlace(arch, secs, m0, st.mem, o);
      OtherPlaceKept(arch, secs, far, m0, st, j, r, o);
      SameTrans(m0, st.mem, r.mem, PlaceOf(arch, secs[o.sec], o), Width(arch, o.rtype));
    }
    assert forall k :: 0 <= k < |rest| ==> rest[k] == jobs[k + 1];
  }

  // ---- whole runs ----

  ghost predicate Grown(before: seq<seq<Stub>>, after: seq<seq<Stub>>)
  {
    |before| == |after| && forall i :: 0 <= i < |before| ==> before[i] <= after[i]
  }

  ghost predicate InNewStub(arch: Arch, before: seq<seq<Stub>>, after: seq<seq<Stub>>, x: int)
    requires Grown(before, after)
  {
    exists i :: 0 <= i < |before| && InSlots(arch, after[i][|before[i]|..], x)
  }

  ghost predicate InPlaces(arch: Arch, secs: seq<SectionInfo>, jobs: seq<Job>, x: int)
  {
    exists k :: 0 <= k < |jobs| && jobs[k].sec < |secs|
      && PlaceOf(arch, secs[jobs[k].sec], jobs[k]) <= x < PlaceOf(arch, secs[jobs[k].sec], jobs[k])
        + Width(arch, jobs[k].rtype)
  }

  ghost predicate RunsTo(arch: Arch, secs: seq<SectionInfo>, st: State, jobs: seq<Job>, r: State)
  {
    Fits(secs, st, jobs) && Run(arch, secs, st, jobs) == Ok(r)
  }

  lemma RunsOn(arch: Arch, secs: seq<SectionInfo>, st: State, jobs: seq<Job>, r: State)
    requires RunsTo(arch, secs, st, jobs, r) && jobs != []
    ensures Step(arch, secs, st, jobs[0]).Ok? && RunsTo(arch, secs, Step(arch, secs, st, jobs[0]).value, jobs[1..], r)
  {
    hide Step;
  }

  lemma RunsNot(arch: Arch, secs: seq<SectionInfo>, st: State, r: State)
    requires RunsTo(arch, secs, st, [], r)
    ensures r == st
  {
  }

  // the part of a step that matters for the tables
  lemma SteppedTables(arch: Arch, secs: seq<SectionInfo>, far: seq<set<int>>, m0: Mem, st: State, j: Job, r: State)
    requires j.sec < |secs| == |far| == |st.tables| && Stepped(arch, secs, far, m0, st, j, r)
    ensures Grown(st.tables, r.tables) && r.mem.Keys == st.mem.Keys
    ensures forall i :: 0 <= i < |secs| && i != j.sec ==> r.tables[i] == st.tables[i]
  {
    hide Placed, TableOk, PlaceOf, Width;
  }

  // Every stub table is sound at the end, and tables only grow, those of sections of other kinds not at all.
  lemma {:induction false} RunTables(arch: Arch, secs: seq<SectionInfo>, far: seq<set<int>>, m0: Mem, st: State,
                                     jobs: seq<Job>, r: State)
    requires Ready(arch, secs, far, m0, st, jobs) && RunsTo(arch, secs, st, jobs, r)
    ensures TablesOk(arch, secs, far, r) && Grown(st.tables, r.tables) && r.mem.Keys == st.mem.Keys
    ensures forall i :: 0 <= i < |secs| && !Active(secs[i]) ==> r.tables[i] == st.tables[i]
    decreases |jobs|
  {
    hide Step, Stepped, RunsTo, Run, TableOk, Layout, JobOk, ApartPlaces, SamePlace;
    if jobs == [] {
      RunsNot(arch, secs, st, r);
    } else {
      var j := jobs[0];
      RunsOn(arch, secs, st, jobs, r);
      StepReady(arch, secs, far, m0, st, jobs);
      FirstJob(arch, secs, far, m0, st, jobs);
      var next := Step(arch, secs, st, j).value;
      hide Ready, TablesOk;
      SteppedTables(arch, secs, far, m0, st, j, next);
      RunTables(arch, secs, far, m0, next, jobs[1..], r);
    }
  }

  lemma FirstJob(arch: Arch, secs: seq<SectionInfo>, far: seq<set<int>>, m0: Mem, st: State, jobs: seq<Job>)
    requires Ready(arch, secs, far, m0, st, jobs) && jobs != []
    ensures jobs[0].sec < |secs| == |far| == |st.tables| && Active(secs[jobs[0].sec])
    ensures JobOk(arch, secs, far, m0, jobs[0])
    ensures forall k :: 0 <= k < |jobs[1..]| ==> ApartPlaces(arch, jobs[0], jobs[1..][k])
  {
    hide TableOk, Region, InSection, AsksFor, ApartPlaces, SamePlace;
    assert JobOk(arch, secs, far, m0, jobs[0]);
  }

  // The frame of the whole pass: a byte outside all places and all new stubs is never changed.
  lemma {:induction false} RunFrame(arch: Arch, secs: seq<SectionInfo>, far: seq<set<int>>, m0: Mem, st: State,
                                    jobs: seq<Job>, r: State, x: int)
    requires Ready(arch, secs, far, m0, st, jobs) && RunsTo(arch, secs, st, jobs, r) && Grown(st.tables, r.tables)
    requires x in st.mem && !InPlaces(arch, secs, jobs, x) && !InNewStub(arch, st.tables, r.tables, x)
    ensures x in r.mem && r.mem[x] == st.mem[x]
    decreases |jobs|
  {
    hide Step, Stepped, RunsTo, Run, Ready, InPlaces, InNewStub;
    if jobs == [] {
      RunsNot(arch, secs, st, r);
    } else {
      RunsOn(arch, secs, st, jobs, r);
      StepReady(arch, secs, far, m0, st, jobs);
      FirstJob(arch, secs, far, m0, st, jobs);
      var next := Step(arch, secs, st, jobs[0]).value;
      RunTables(arch, secs, far, m0, next, jobs[1..], r);
      FrameStep(arch, secs, far, m0, st, jobs, next, r.tables, x);
      RunFrame(arch, secs, far, m0, next, jobs[1..], r, x);
    }
  }

  lemma FrameStep(arch: Arch, secs: seq<SectionInfo>, far: seq<set<int>>, m0: Mem, st: State, jobs: seq<Job>,
                  next: State, final: seq<seq<Stub>>, x: int)
    requires jobs != [] && jobs[0].sec < |secs| == |far| == |st.tables|
    requires Stepped(arch, secs, far, m0, st, jobs[0], next)
    requires Grown(st.tables, final) && Grown(next.tables, final)
    requires x in st.mem && !InPlaces(arch, secs, jobs, x) && !InNewStub(arch, st.tables, final, x)
    ensures x in next.mem && next.mem[x] == st.mem[x]
    ensures !InPlaces(arch, secs, jobs[1..], x) && !InNewStub(arch, next.tables, final, x)
  {
    hide PlaceOf, Width, TableOk, Placed, StubSize;
    var i := jobs[0].sec;
    forall k | 0 <= k < |st.tables| ensures !InSlots(arch, final[k][|next.tables[k]|..], x) {
      SlotsOfSuffix(arch, final[k], |st.tables[k]|, |next.tables[k]|, x);
    }
    assert !InSlots(arch, next.tables[i][|st.tables[i]|..], x) by {
      assert next.tables[i] == final[i][..|next.tables[i]|];
      SlotsOfPrefix(arch, final[i], |st.tables[i]|, |next.tables[i]|, x);
    }
    assert forall k :: 0 <= k < |jobs[1..]| ==> jobs[1..][k] == jobs[k + 1];
  }

  lemma SlotsOfSuffix(arch: Arch, stubs: seq<Stub>, a: nat, b: nat, x: int)
    requires a <= b <= |stubs| && !InSlots(arch, stubs[a..], x)
    ensures !InSlots(arch, stubs[b..], x)
  {
    forall s | s in stubs[b..] ensures s in stubs[a..] {
      var k :| 0 <= k < |stubs[b..]| && stubs[b..][k] == s;
      assert s == stubs[a..][b - a + k];
    }
  }

  lemma SlotsOfPrefix(arch: Arch, stubs: seq<Stub>, a: nat, b: nat, x: int)
    requires a <= b <= |stubs| && !InSlots(arch, stubs[a..], x)
    ensures !InSlots(arch, stubs[..b][a..], x)
  {
    forall s | s in stubs[..b][a..] ensures s in stubs[a..] {
      var k :| 0 <= k < |stubs[..b][a..]| && stubs[..b][a..][k] == s;
      assert s == stubs[a..][k];
    }
  }

  // Stubs lie in the regions of active sections, behind their bytes.
  lemma NoStubThere(arch: Arch, secs: seq<SectionInfo>, far: seq<set<int>>, before: seq<seq<Stub>>, r: State, i: nat,
                    x: int)
    requires Layout(arch, secs, far) && TablesOk(arch, secs, far, r)
    requires Grown(before, r.tables)
    requires forall k :: 0 <= k < |secs| && !Active(secs[k]) ==> r.tables[k] == before[k]
    requires i < |secs| && Active(secs[i]) && secs[i].start <= x < secs[i].start + secs[i].size
    ensures !InNewStub(arch, before, r.tables, x)
  {
    hide TableOk, Region, End;
    forall k | 0 <= k < |before| ensures !InSlots(arch, r.tables[k][|before[k]|..], x) {
      if Active(secs[k]) {
        SlotsBehind(arch, secs[k], far[k], Table(r.mem, r.tables[k]));
        BytesBeforeEnd(arch, secs[i], |far[i]|);
        forall s | s in r.tables[k][|before[k]|..] ensures !(s.addr <= x < s.addr + StubSize(arch)) {
          assert s in r.tables[k];
        }
      }
    }
  }

  // A byte of the place of j is in no other place.
  lemma NoPlaceThere(arch: Arch, secs: seq<SectionInfo>, far: seq<set<int>>, m0: Mem, j: Job, rest: seq<Job>, x: int)
    requires Layout(arch, secs, far) && JobOk(arch, secs, far, m0, j)
    requires forall k :: 0 <= k < |rest| ==> JobOk(arch, secs, far, m0, rest[k]) && ApartPlaces(arch, j, rest[k])
    requires PlaceOf(arch, secs[j.sec], j) <= x < PlaceOf(arch, secs[j.sec], j) + Width(arch, j.rtype)
    ensures !InPlaces(arch, secs, rest, x)
    ensures secs[j.sec].start <= x < secs[j.sec].start + secs[j.sec].size
  {
    PlaceInRegion(arch, secs[j.sec], |far[j.sec]|, j);
    forall k | 0 <= k < |rest|
      ensures !(PlaceOf(arch, secs[rest[k].sec], rest[k]) <= x
                < PlaceOf(arch, secs[rest[k].sec], rest[k]) + Width(arch, rest[k].rtype))
    {
      var o := rest[k];
      assert JobOk(arch, secs, far, m0, o) && ApartPlaces(arch, j, o);
      OnePlaceApart(arch, secs, far, j, o, x);
    }
  }

  lemma OnePlaceApart(arch: Arch, secs: seq<SectionInfo>, far: seq<set<int>>, j: Job, o: Job, x: int)
    requires Layout(arch, secs, far) && ApartPlaces(arch, j, o)
    requires j.sec < |secs| && Active(secs[j.sec]) && InSection(arch, secs[j.sec], j)
    requires o.sec < |secs| && Active(secs[o.sec]) && InSection(arch, secs[o.sec], o)
    requires PlaceOf(arch, secs[j.sec], j) <= x < PlaceOf(arch, secs[j.sec], j) + Width(arch, j.rtype)
    ensures !(PlaceOf(arch, secs[o.sec], o) <= x < PlaceOf(arch, secs[o.sec], o) + Width(arch, o.rtype))
  {
    PlaceInRegion(arch, secs[j.sec], |far[j.sec]|, j);
    PlaceInRegion(arch, secs[o.sec], |far[o.sec]|, o);
    BytesBeforeEnd(arch, secs[j.sec], |far[j.sec]|);
    BytesBeforeEnd(arch, secs[o.sec], |far[o.sec]|);
    hide Region, End, PlaceOf, Width, InSection;
  }

  lemma PlacedLater(arch: Arch, sec: SectionInfo, was: Mem, t: Table, r: Table, j: Job)
    requires Placed(arch, sec, was, t, j) && t.stubs <= r.stubs
    requires SameOn(t.mem, r.mem, PlaceOf(arch, sec, j), Width(arch, j.rtype))
    ensures Placed(arch, sec, was, r, j)
  {
    var plan := PlanOf(arch, sec, was, j).value;
    if plan.Via? {
      FindInLonger(t.stubs, r.stubs[|t.stubs|..], plan.target);
      assert t.stubs + r.stubs[|t.stubs|..] == r.stubs;
    }
    hide PlanOf, PlaceOf, Width, Encode, ViaStub, FindStub;
    LoadSame(t.mem, r.mem, PlaceOf(arch, sec, j), Width(arch, j.rtype));
  }

  ghost predicate AllPlaced(arch: Arch, secs: seq<SectionInfo>, m0: Mem, r: State, jobs: seq<Job>)
  {
    forall k :: 0 <= k < |jobs| ==>
      && jobs[k].sec < |secs| && jobs[k].sec < |r.tables|
      && Placed(arch, secs[jobs[k].sec], m0, Table(r.mem, r.tables[jobs[k].sec]), jobs[k])
  }

  lemma FirstPlaceStays(arch: Arch, secs: seq<SectionInfo>, far: seq<set<int>>, m0: Mem, st: State, jobs: seq<Job>,
                        next: State, r: State)
    requires Ready(arch, secs, far, m0, st, jobs) && jobs != [] && jobs[0].sec < |secs| == |far| == |st.tables|
    requires Stepped(arch, secs, far, m0, st, jobs[0], next)
    requires Ready(arch, secs, far, m0, next, jobs[1..]) && RunsTo(arch, secs, next, jobs[1..], r)
    ensures jobs[0].sec < |r.tables|
    ensures Placed(arch, secs[jobs[0].sec], m0, Table(r.mem, r.tables[jobs[0].sec]), jobs[0])
  {
    FirstJob(arch, secs, far, m0, st, jobs);
    hide RunsTo, Run, Ready, Placed, TableOk, PlaceOf, Width, Region, End, AsksFor, InSection, InPlaces, InNewStub,
         ApartPlaces, SamePlace, OnlyChanged, JobOk;
    var j, rest := jobs[0], jobs[1..];
    RunTables(arch, secs, far, m0, next, rest, r);
    var P, n := PlaceOf(arch, secs[j.sec], j), Width(arch, j.rtype);
    forall x | P <= x < P + n ensures x in next.mem <==> x in r.mem
      ensures x in next.mem ==> next.mem[x] == r.mem[x]
    {
      PlaceByteStays(arch, secs, far, m0, j, rest, next, r, x);
    }
    PlacedLater(arch, secs[j.sec], m0, Table(next.mem, next.tables[j.sec]), Table(r.mem, r.tables[j.sec]), j);
  }

  lemma PlaceByteStays(arch: Arch, secs: seq<SectionInfo>, far: seq<set<int>>, m0: Mem, j: Job, rest: seq<Job>,
                       next: State, r: State, x: int)
    requires Ready(arch, secs, far, m0, next, rest) && RunsTo(arch, secs, next, rest, r)
    requires JobOk(arch, secs, far, m0, j)
    requires forall k :: 0 <= k < |rest| ==> ApartPlaces(arch, j, rest[k])
    requires PlaceOf(arch, secs[j.sec], j) <= x < PlaceOf(arch, secs[j.sec], j) + Width(arch, j.rtype)
    ensures x in next.mem <==> x in r.mem
    ensures x in next.mem ==> next.mem[x] == r.mem[x]
  {
    hide RunsTo, Run, TableOk, PlaceOf, Width, Region, End, InPlaces, InNewStub, ApartPlaces, SamePlace;
    RunTables(arch, secs, far, m0, next, rest, r);
    NoPlaceThere(arch, secs, far, m0, j, rest, x);
    NoStubThere(arch, secs, far, next.tables, r, j.sec, x);
    if x in next.mem {
      RunFrame(arch, secs, far, m0, next, rest, r, x);
    }
  }

  // The refinement: at the end every place holds the encoding, over what it held in the beginning, of the value of
  // its own relocation, with branches out of range going through the final stub table.
  lemma {:induction false} RunPlaces(arch: Arch, secs: seq<SectionInfo>, far: seq<set<int>>, m0: Mem, st: State,
                                     jobs: seq<Job>, r: State)
    requires Ready(arch, secs, far, m0, st, jobs) && RunsTo(arch, secs, st, jobs, r)
    ensures AllPlaced(arch, secs, m0, r, jobs)
    decreases |jobs|
  {
    hide Step, Stepped, RunsTo, Run, Ready, Placed;
    if jobs != [] {
      RunsOn(arch, secs, st, jobs, r);
      StepReady(arch, secs, far, m0, st, jobs);
      FirstJob(arch, secs, far, m0, st, jobs);
      var next := Step(arch, secs, st, jobs[0]).value;
      FirstPlaceStays(arch, secs, far, m0, st, jobs, next, r);
      RunPlaces(arch, secs, far, m0, next, jobs[1..], r);
      assert forall k :: 0 <= k < |jobs[1..]| ==> jobs[1..][k] == jobs[k + 1];
    }
  }
}
