// When a second run of the pass changes nothing: exactly if each of its relocations, by itself, changes nothing.
module Repeat {
  import opened Results
  import opened Types
  import opened Target
  import opened Plt
  import opened Pass
  import opened Runs
  import opened Budget
  import opened StubSlots

  // Relocating again finds memory and stubs as the relocation would leave them.
  ghost predicate Idle(arch: Arch, secs: seq<SectionInfo>, r: State, j: Job)
  {
    j.sec < |secs| && j.sec < |r.tables|
    && Relocate(arch, secs[j.sec], Table(r.mem, r.tables[j.sec]), j) == Ok(Table(r.mem, r.tables[j.sec]))
  }

  lemma IdleStep(arch: Arch, secs: seq<SectionInfo>, r: State, j: Job)
    requires j.sec < |secs| == |r.tables|
    ensures Idle(arch, secs, r, j) <==> Step(arch, secs, r, j) == Ok(r)
  {
    hide Relocate;
    var i := j.sec;
    assert r.tables[i := r.tables[i]] == r.tables;
    if Step(arch, secs, r, j) == Ok(r) {
      var t := Relocate(arch, secs[i], Table(r.mem, r.tables[i]), j).value;
      assert r.tables[i := t.stubs][i] == t.stubs;
    }
  }

  lemma {:induction false} IdleRun(arch: Arch, secs: seq<SectionInfo>, r: State, jobs: seq<Job>)
    requires |r.tables| == |secs| && forall k :: 0 <= k < |jobs| ==> Idle(arch, secs, r, jobs[k])
    ensures RunsTo(arch, secs, r, jobs, r)
    decreases |jobs|
  {
    hide Idle, Step;
    if jobs != [] {
      InRange(arch, secs, r, jobs);
      IdleStep(arch, secs, r, jobs[0]);
      assert forall k :: 0 <= k < |jobs[1..]| ==> jobs[1..][k] == jobs[k + 1];
      IdleRun(arch, secs, r, jobs[1..]);
    }
  }

  lemma InRange(arch: Arch, secs: seq<SectionInfo>, r: State, jobs: seq<Job>)
    requires forall k :: 0 <= k < |jobs| ==> Idle(arch, secs, r, jobs[k])
    ensures forall k :: 0 <= k < |jobs| ==> jobs[k].sec < |secs|
  {
    hide Relocate;
  }

  // ---- a run that makes no stub ----

  // Tables only grow, in every layout.
  lemma {:induction false} OnlyGrows(arch: Arch, secs: seq<SectionInfo>, st: State, jobs: seq<Job>, r: State)
    requires RunsTo(arch, secs, st, jobs, r)
    ensures Grown(st.tables, r.tables)
    decreases |jobs|
  {
    hide Run, RunsTo, Step;
    if jobs == [] {
      RunsNot(arch, secs, st, r);
    } else {
      RunsOn(arch, secs, st, jobs, r);
      HeadFits(arch, secs, st, jobs, r);
      StepGrows(arch, secs, st, jobs[0]);
      OnlyGrows(arch, secs, Step(arch, secs, st, jobs[0]).value, jobs[1..], r);
    }
  }

  lemma StepGrows(arch: Arch, secs: seq<SectionInfo>, st: State, j: Job)
    requires j.sec < |secs| == |st.tables| && Step(arch, secs, st, j).Ok?
    ensures Grown(st.tables, Step(arch, secs, st, j).value.tables)
  {
    hide Relocate, IsFar, FarTarget, StubAddress;
    TableAfter(arch, secs[j.sec], Table(st.mem, st.tables[j.sec]), j);
  }

  lemma Between(a: seq<seq<Stub>>, b: seq<seq<Stub>>)
    requires Grown(a, b) && Grown(b, a)
    ensures a == b
  {
    forall i | 0 <= i < |a| ensures a[i] == b[i] {
      assert |a[i]| == |b[i]|;
    }
  }

  // A relocation that makes no stub writes to its place only.
  lemma PlaceOnly(arch: Arch, sec: SectionInfo, t: Table, j: Job)
    requires Relocate(arch, sec, t, j).Ok? && Relocate(arch, sec, t, j).value.stubs == t.stubs
    ensures OnlyChanged(arch, t.mem, Relocate(arch, sec, t, j).value.mem, PlaceOf(arch, sec, j), Width(arch, j.rtype),
                        [])
  {
    hide PlanOf, PlaceOf, Width, Encode, ViaStub, StubAddress, StubCode, Patch, FindStub, OnlyChanged;
    var plan := PlanOf(arch, sec, t.mem, j).value;
    var q := Resolve(arch, sec, t, plan, PlaceOf(arch, sec, j)).value;
    assert q.table.mem == t.mem;
    PatchFrame(arch, t.mem, PlaceOf(arch, sec, j), j.rtype, q.value);
  }

  predicate AtPlace(arch: Arch, secs: seq<SectionInfo>, j: Job, x: int)
  {
    j.sec < |secs| && PlaceOf(arch, secs[j.sec], j) <= x < PlaceOf(arch, secs[j.sec], j) + Width(arch, j.rtype)
  }

  ghost predicate PlacesApart(arch: Arch, secs: seq<SectionInfo>, jobs: seq<Job>)
  {
    forall k, l, x :: 0 <= k < l < |jobs| && AtPlace(arch, secs, jobs[k], x) ==> !AtPlace(arch, secs, jobs[l], x)
  }

  ghost predicate Untouched(arch: Arch, secs: seq<SectionInfo>, jobs: seq<Job>, x: int)
  {
    forall k :: 0 <= k < |jobs| ==> !AtPlace(arch, secs, jobs[k], x)
  }

  // One step of a run that ends with the tables it began with
  lemma StepInPlace(arch: Arch, secs: seq<SectionInfo>, st: State, jobs: seq<Job>, r: State)
    requires RunsTo(arch, secs, st, jobs, r) && jobs != [] && r.tables == st.tables
    ensures jobs[0].sec < |secs| == |st.tables| && Step(arch, secs, st, jobs[0]).Ok?
    ensures var next := Step(arch, secs, st, jobs[0]).value;
      && RunsTo(arch, secs, next, jobs[1..], r) && next.tables == st.tables && next.mem.Keys == st.mem.Keys
      && forall x :: x in st.mem && !AtPlace(arch, secs, jobs[0], x) ==> next.mem[x] == st.mem[x]
  {
    hide RunsTo, Relocate, PlaceOf, Width, Step;
    RunsOn(arch, secs, st, jobs, r);
    HeadFits(arch, secs, st, jobs, r);
    var next := Step(arch, secs, st, jobs[0]).value;
    StepGrows(arch, secs, st, jobs[0]);
    OnlyGrows(arch, secs, next, jobs[1..], r);
    Between(st.tables, next.tables);
    StepChanges(arch, secs, st, jobs[0]);
  }

  lemma StepChanges(arch: Arch, secs: seq<SectionInfo>, st: State, j: Job)
    requires j.sec < |secs| == |st.tables| && Step(arch, secs, st, j).Ok?
    requires Step(arch, secs, st, j).value.tables == st.tables
    ensures var next := Step(arch, secs, st, j).value;
      next.mem.Keys == st.mem.Keys && forall x :: x in st.mem && !AtPlace(arch, secs, j, x) ==> next.mem[x] == st.mem[x]
  {
    hide Relocate, PlaceOf, Width;
    var t, next := Relocate(arch, secs[j.sec], Table(st.mem, st.tables[j.sec]), j).value, Step(arch, secs, st, j).value;
    assert next.tables[j.sec] == t.stubs;
    PlaceOnly(arch, secs[j.sec], Table(st.mem, st.tables[j.sec]), j);
    forall x | x in st.mem && !AtPlace(arch, secs, j, x) ensures next.mem[x] == st.mem[x] {
      assert !InSlots(arch, [], x);
    }
  }

  lemma {:induction false} BytesKept(arch: Arch, secs: seq<SectionInfo>, st: State, jobs: seq<Job>, r: State, x: int)
    requires RunsTo(arch, secs, st, jobs, r) && r.tables == st.tables
    requires x in st.mem && Untouched(arch, secs, jobs, x)
    ensures x in r.mem && r.mem[x] == st.mem[x]
    decreases |jobs|
  {
    hide RunsTo, Step, AtPlace;
    if jobs == [] {
      RunsNot(arch, secs, st, r);
    } else {
      StepInPlace(arch, secs, st, jobs, r);
      var next := Step(arch, secs, st, jobs[0]).value;
      assert forall y :: y in st.mem <==> y in next.mem;
      assert forall k :: 0 <= k < |jobs[1..]| ==> jobs[1..][k] == jobs[k + 1];
      BytesKept(arch, secs, next, jobs[1..], r, x);
    }
  }

  // A run that ends where it began did nothing at all: no later place could undo an earlier change.
  lemma {:induction false} AllIdle(arch: Arch, secs: seq<SectionInfo>, r: State, jobs: seq<Job>, k: nat)
    requires RunsTo(arch, secs, r, jobs, r) && PlacesApart(arch, secs, jobs) && k < |jobs|
    ensures Idle(arch, secs, r, jobs[k])
    decreases |jobs|
  {
    hide RunsTo, Step, AtPlace, Idle;
    StepInPlace(arch, secs, r, jobs, r);
    var next, rest := Step(arch, secs, r, jobs[0]).value, jobs[1..];
    assert forall y :: y in r.mem <==> y in next.mem;
    assert forall l :: 0 <= l < |rest| ==> rest[l] == jobs[l + 1];
    forall x | x in r.mem ensures next.mem[x] == r.mem[x] {
      if AtPlace(arch, secs, jobs[0], x) {
        BytesKept(arch, secs, next, rest, r, x);
      }
    }
    assert next.mem == r.mem && next == r;
    IdleStep(arch, secs, r, jobs[0]);
    if k > 0 {
      AllIdle(arch, secs, r, rest, k - 1);
    }
  }

  lemma FreshApart(arch: Arch, secs: seq<SectionInfo>, st: State, jobs: seq<Job>)
    requires Fresh(arch, secs, st, jobs)
    ensures PlacesApart(arch, secs, jobs)
  {
    hide Layout, ApartPlaces, InSection, PlaceOf, Width;
    forall k, l, x | 0 <= k < l < |jobs| && AtPlace(arch, secs, jobs[k], x) ensures !AtPlace(arch, secs, jobs[l], x) {
      OnePlaceApart(arch, secs, Far(arch, secs, st.mem, jobs), jobs[k], jobs[l], x);
    }
  }

  // A second run succeeds and changes nothing exactly if every relocation is idle in the state the first run left.
  lemma SecondRunIff(arch: Arch, secs: seq<SectionInfo>, st: State, jobs: seq<Job>, r: State)
    requires Fresh(arch, secs, st, jobs) && |r.tables| == |secs|
    ensures RunsTo(arch, secs, r, jobs, r) <==> forall k :: 0 <= k < |jobs| ==> Idle(arch, secs, r, jobs[k])
  {
    FreshApart(arch, secs, st, jobs);
    hide Fresh, Idle, RunsTo, PlacesApart;
    if RunsTo(arch, secs, r, jobs, r) {
      forall k | 0 <= k < |jobs| ensures Idle(arch, secs, r, jobs[k]) {
        AllIdle(arch, secs, r, jobs, k);
      }
    } else if forall k :: 0 <= k < |jobs| ==> Idle(arch, secs, r, jobs[k]) {
      IdleRun(arch, secs, r, jobs);
    }
  }
}
