// What holds in every state that a pass goes through: the stub tables are sound, and every stub made so far still
// jumps to its target.
module EveryState {
  import opened Memory
  import opened Results
  import opened Types
  import opened Words
  import opened Target
  import opened Plt
  import opened Pass
  import opened Runs
  import opened Budget
  import Isa32
  import Isa64

  lemma ReadyFirst(arch: Arch, secs: seq<SectionInfo>, far: seq<set<int>>, m0: Mem, st: State, jobs: seq<Job>, k: nat)
    requires Ready(arch, secs, far, m0, st, jobs) && k <= |jobs|
    ensures Ready(arch, secs, far, m0, st, jobs[..k])
  {
    hide Layout, TablesOk, JobOk, ApartPlaces, SamePlace;
  }

  // The state after the first k relocations
  ghost predicate Reached(arch: Arch, secs: seq<SectionInfo>, st: State, jobs: seq<Job>, k: nat, mid: State)
  {
    Fresh(arch, secs, st, jobs) && k <= |jobs| && RunsTo(arch, secs, st, jobs[..k], mid)
  }

  // Slots in order, distinct targets, code intact, never more stubs than relocations counted - after any number of
  // relocations.
  lemma TablesAlwaysOk(arch: Arch, secs: seq<SectionInfo>, st: State, jobs: seq<Job>, k: nat, mid: State, i: nat)
    requires Reached(arch, secs, st, jobs, k, mid) && i < |secs| && Active(secs[i])
    ensures i < |mid.tables|
    ensures TableOk(arch, secs[i], FarTargets(arch, secs[i], st.mem, jobs, i), Table(mid.mem, mid.tables[i]))
    ensures Region(arch, secs[i], |FarTargets(arch, secs[i], st.mem, jobs, i)|)
    ensures |mid.tables[i]| <= |FarTargets(arch, secs[i], st.mem, jobs, i)| <= NumberOfStubs(arch, jobs, i)
  {
    hide RunsTo, TableOk, Region, FarTargets, InSection, ApartPlaces, NumberOfStubs, Layout, Ready;
    var far := Far(arch, secs, st.mem, jobs);
    FreshReady(arch, secs, st, jobs);
    ReadyFirst(arch, secs, far, st.mem, st, jobs, k);
    RunTables(arch, secs, far, st.mem, st, jobs[..k], mid);
    assert far[i] == FarTargets(arch, secs[i], st.mem, jobs, i);
    FarRegion(arch, secs, st, jobs, i);
    TableFits(arch, secs[i], far[i], Table(mid.mem, mid.tables[i]));
    WithinBudget(arch, secs[i], st.mem, jobs, i);
  }

  lemma FarIsAddress(arch: Arch, sec: SectionInfo, m: Mem, j: Job)
    requires IsFar(arch, sec, m, j)
    ensures 0 <= FarTarget(arch, sec, m, j) < if arch.AArch64? then 0x1_0000_0000_0000_0000 else 0x1_0000_0000
  {
    hide S64, S32, IsInt64, IsInt32, DecodeAddend;
  }

  // The l-th stub of a section: where it is, and that its target is an address
  lemma StubThere(arch: Arch, secs: seq<SectionInfo>, st: State, jobs: seq<Job>, k: nat, mid: State, i: nat, l: nat)
    requires Reached(arch, secs, st, jobs, k, mid) && i < |secs| && Active(secs[i])
    requires i < |mid.tables| && l < |mid.tables[i]|
    ensures var s := mid.tables[i][l];
      && s.addr == secs[i].stubOffset + 8 + StubBytes(arch, l) && HoldsCode(arch, mid.mem, s)
      && 0 <= s.addr && s.addr + StubSize(arch) <= Limit(arch)
      && 0 <= s.target < if arch.AArch64? then 0x1_0000_0000_0000_0000 else 0x1_0000_0000
  {
    hide Reached, Region, FarTargets, NumberOfStubs, HoldsCode, IsFar, FarTarget;
    TablesAlwaysOk(arch, secs, st, jobs, k, mid, i);
    var f, s := FarTargets(arch, secs[i], st.mem, jobs, i), mid.tables[i][l];
    assert Table(mid.mem, mid.tables[i]).stubs[l] == s;
    var q := FarTargetsWitness(arch, secs[i], st.mem, jobs, i, s.target);
    FarIsAddress(arch, secs[i], st.mem, jobs[q]);
    assert l < |f|;
    SlotBehind(arch, secs[i], |f|, s, l);
    EndBelow(arch, secs[i], |f|);
  }

  lemma EndBelow(arch: Arch, sec: SectionInfo, n: nat)
    requires Region(arch, sec, n)
    ensures 0 <= sec.start && End(arch, sec, n) <= Limit(arch)
  {
  }

  // In every reachable state each arm64 stub, run with any registers, jumps to the target it was made for.
  lemma StubsJump64(secs: seq<SectionInfo>, st: State, jobs: seq<Job>, k: nat, mid: State, i: nat, l: nat,
                    x: map<nat, u64>)
    requires Reached(AArch64, secs, st, jobs, k, mid) && i < |secs| && Active(secs[i])
    requires i < |mid.tables| && l < |mid.tables[i]| && 16 in x
    ensures var s := mid.tables[i][l];
      && 0 <= s.addr < 0x1_0000_0000_0000_0000 && 0 <= s.target < 0x1_0000_0000_0000_0000
      && Isa64.Run(mid.mem, Isa64.Cpu(s.addr, x), 5) == Some(Isa64.Cpu(s.target, x[16 := s.target]))
  {
    StubThere(AArch64, secs, st, jobs, k, mid, i, l);
    hide Reached, StubCode, Isa64.Run, PltArm64.HasCode;
    var s := mid.tables[i][l];
    StubWords64(mid.mem, s.addr, s.target);
    PltArm64.StubJumps(mid.mem, x, s.addr, s.target);
  }

  // And each arm stub with a target in ARM state.
  lemma StubsJump32(secs: seq<SectionInfo>, st: State, jobs: seq<Job>, k: nat, mid: State, i: nat, l: nat,
                    x: map<nat, u32>)
    requires Reached(AArch32, secs, st, jobs, k, mid) && i < |secs| && Active(secs[i])
    requires i < |mid.tables| && l < |mid.tables[i]| && 12 in x && mid.tables[i][l].target % 4 == 0
    ensures var s := mid.tables[i][l];
      && 0 <= s.addr < 0x1_0000_0000 && 0 <= s.target < 0x1_0000_0000
      && Isa32.Run(mid.mem, Isa32.Cpu(s.addr, x), 3) == Some(Isa32.Cpu(s.target, x[12 := s.target]))
  {
    StubThere(AArch32, secs, st, jobs, k, mid, i, l);
    hide Reached, StubCode, Isa32.Run, PltArm.HasCode;
    var s := mid.tables[i][l];
    StubWords32(mid.mem, s.addr, s.target);
    PltArm.StubJumps(mid.mem, x, s.addr, s.target);
  }
}
