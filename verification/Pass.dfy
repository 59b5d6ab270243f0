// The relocation pass of elf/reloc/arm64.c and elf/reloc/arm.c over the flat list of all relocations,
// in table order, of all sections that are relocated.
module Pass {
  import opened Bits
  import opened Memory
  import opened Results
  import opened Types
  import opened Target
  import opened Plt

  datatype SymbolView = SymbolView(addr: nat, gotAddr: nat)

  // One relocation together with the symbol it names. An implicit addend is read from the place.
  datatype Job = Job(sec: nat, offset: nat, rtype: nat, symbol: Option<SymbolView>, implicit: bool, addend: int)

  datatype State = State(mem: Mem, tables: seq<seq<Stub>>)

  // ---- one relocation ----

  function PlaceOf(arch: Arch, sec: SectionInfo, j: Job): nat
  {
    Addr(arch, sec.start + j.offset)
  }

  function PlanOf(arch: Arch, sec: SectionInfo, m: Mem, j: Job): Result<Plan>
  {
    if j.symbol.None? then Abort
    else
      var P := PlaceOf(arch, sec, j);
      var A :- if j.implicit then DecodeAddend(arch, j.rtype, m, P) else Ok(j.addend);
      Compute(arch, j.rtype, sec, P, j.symbol.value.addr, j.symbol.value.gotAddr, A)
  }

  datatype Resolved = Resolved(table: Table, value: int)

  // The value of a relocation; a branch out of range finds or makes its stub.
  function Resolve(arch: Arch, sec: SectionInfo, t: Table, plan: Plan, P: nat): Result<Resolved>
  {
    match plan
    case Direct(v) => Ok(Resolved(t, v))
    case Via(target, adjust) =>
      match FindStub(t.stubs, target)
      case Some(at) =>
        var v :- ViaStub(arch, P, at, adjust);
        Ok(Resolved(t, v))
      case None =>
        var made :- MakeStub(arch, sec, t, target);
        var v :- ViaStub(arch, P, StubAddress(arch, sec, |t.stubs|), adjust);
        Ok(Resolved(made, v))
  }

  function PlaceContents(m: Mem, P: int, n: nat): (w: nat)
    requires Mapped(m, P, n)
    ensures w < Pow2(8 * n)
  {
    NumberOfBytes(Load(m, P, n));
    Read(m, P, n)
  }

  function Patch(arch: Arch, m: Mem, P: int, t: nat, v: int): Result<Mem>
  {
    if !IsMapped(m, P, Width(arch, t)) then Abort
    else
      var w :- Encode(arch, t, PlaceContents(m, P, Width(arch, t)), v);
      Ok(Write(m, P, Width(arch, t), w))
  }

  // decodeAddend and compute_addend
  function ComputeAddend(arch: Arch, sec: SectionInfo, t: Table, j: Job): Result<Resolved>
  {
    var plan :- PlanOf(arch, sec, t.mem, j);
    Resolve(arch, sec, t, plan, PlaceOf(arch, sec, j))
  }

  // decodeAddend, compute_addend and encodeAddend
  function Relocate(arch: Arch, sec: SectionInfo, t: Table, j: Job): Result<Table>
  {
    var r :- ComputeAddend(arch, sec, t, j);
    var m :- Patch(arch, r.table.mem, PlaceOf(arch, sec, j), j.rtype, r.value);
    Ok(Table(m, r.table.stubs))
  }

  // ---- the whole pass ----

  predicate Fits(secs: seq<SectionInfo>, st: State, jobs: seq<Job>)
  {
    |st.tables| == |secs| && forall k :: 0 <= k < |jobs| ==> jobs[k].sec < |secs|
  }

  function Step(arch: Arch, secs: seq<SectionInfo>, st: State, j: Job): (r: Result<State>)
    requires j.sec < |secs| == |st.tables|
    ensures r.Ok? ==> |r.value.tables| == |secs|
  {
    var t :- Relocate(arch, secs[j.sec], Table(st.mem, st.tables[j.sec]), j);
    Ok(State(t.mem, st.tables[j.sec := t.stubs]))
  }

  function Run(arch: Arch, secs: seq<SectionInfo>, st: State, jobs: seq<Job>): (r: Result<State>)
    requires Fits(secs, st, jobs)
    ensures r.Ok? ==> |r.value.tables| == |secs|
    decreases |jobs|
  {
    if jobs == [] then Ok(st)
    else
      hide Step;
      var next :- Step(arch, secs, st, jobs[0]);
      Run(arch, secs, next, jobs[1..])
  }

  // ---- what one relocation does ----

  // The value a finished stub table gives to a plan
  function ValueIn(arch: Arch, stubs: seq<Stub>, plan: Plan, P: nat): Result<int>
  {
    match plan
    case Direct(v) => Ok(v)
    case Via(target, adjust) =>
      match FindStub(stubs, target)
      case None => Abort
      case Some(at) => ViaStub(arch, P, at, adjust)
  }

  // The place of j holds the encoding, over its contents in was, of j's own value.
  ghost predicate Placed(arch: Arch, sec: SectionInfo, was: Mem, t: Table, j: Job)
  {
    var P, n := PlaceOf(arch, sec, j), Width(arch, j.rtype);
    && PlanOf(arch, sec, was, j).Ok?
    && var v := ValueIn(arch, t.stubs, PlanOf(arch, sec, was, j).value, P);
    && v.Ok? && Mapped(was, P, n) && Mapped(t.mem, P, n)
    && Encode(arch, j.rtype, PlaceContents(was, P, n), v.value) == Ok(Read(t.mem, P, n))
  }

  ghost predicate InSlots(arch: Arch, stubs: seq<Stub>, x: int)
  {
    exists s :: s in stubs && s.addr <= x < s.addr + StubSize(arch)
  }

  // r differs from m only in [P, P + n) and in the given stubs
  ghost predicate OnlyChanged(arch: Arch, m: Mem, r: Mem, P: int, n: nat, stubs: seq<Stub>)
  {
    m.Keys == r.Keys
    && forall x :: x in m && !(P <= x < P + n) && !InSlots(arch, stubs, x) ==> m[x] == r[x]
  }

  lemma MakeStubFrame(arch: Arch, sec: SectionInfo, t: Table, target: int, P: int)
    requires MakeStub(arch, sec, t, target).Ok?
    ensures var r, s := MakeStub(arch, sec, t, target).value, Stub(StubAddress(arch, sec, |t.stubs|), target);
      r.stubs == t.stubs + [s] && r.stubs[|t.stubs|..] == [s] && OnlyChanged(arch, t.mem, r.mem, P, 0, [s])
  {
    hide StubCode, StubAddress;
    var s := Stub(StubAddress(arch, sec, |t.stubs|), target);
    assert s in [s];
  }

  lemma Unchanged(arch: Arch, m: Mem, P: int, stubs: seq<Stub>)
    ensures OnlyChanged(arch, m, m, P, 0, stubs)
  {
  }

  lemma ResolveKeeps(arch: Arch, sec: SectionInfo, far: set<int>, t: Table, plan: Plan, P: nat)
    requires TableOk(arch, sec, far, t) && Region(arch, sec, |far|)
    requires plan.Via? ==> plan.target in far
    requires Resolve(arch, sec, t, plan, P).Ok?
    ensures var r := Resolve(arch, sec, t, plan, P).value;
      && TableOk(arch, sec, far, r.table)
      && t.stubs <= r.table.stubs
      && OnlyChanged(arch, t.mem, r.table.mem, P, 0, r.table.stubs[|t.stubs|..])
      && ValueIn(arch, r.table.stubs, plan, P) == Ok(r.value)
  {
    hide ViaStub, TableOk, Region, FindStub, MakeStub, StubAddress, OnlyChanged;
    if plan.Via? && FindStub(t.stubs, plan.target).None? {
      MakeStubKeeps(arch, sec, far, t, plan.target);
      MakeStubFrame(arch, sec, t, plan.target, P);
      FindAppended(t.stubs, Stub(StubAddress(arch, sec, |t.stubs|), plan.target));
    } else {
      Unchanged(arch, t.mem, P, t.stubs[|t.stubs|..]);
    }
  }

  lemma PatchPlaces(arch: Arch, m: Mem, P: nat, t: nat, v: int)
    requires Patch(arch, m, P, t, v).Ok?
    ensures var n := Width(arch, t);
      && Mapped(m, P, n) && Mapped(Patch(arch, m, P, t, v).value, P, n)
      && Encode(arch, t, PlaceContents(m, P, n), v) == Ok(Read(Patch(arch, m, P, t, v).value, P, n))
  {
    hide Encode, Width, Pow2;
    var n := Width(arch, t);
    EncodeAgain(arch, t, PlaceContents(m, P, n), v);
    ReadWritten(m, P, n, Encode(arch, t, PlaceContents(m, P, n), v).value);
  }

  lemma PatchFrame(arch: Arch, m: Mem, P: nat, t: nat, v: int)
    requires Patch(arch, m, P, t, v).Ok?
    ensures OnlyChanged(arch, m, Patch(arch, m, P, t, v).value, P, Width(arch, t), [])
  {
    hide Encode, Width, Pow2;
  }

  // a place inside the bytes of its section
  ghost predicate InSection(arch: Arch, sec: SectionInfo, j: Job)
  {
    j.offset + Width(arch, j.rtype) <= sec.size
  }

  // a branch that cannot reach asks for a stub of the set
  ghost predicate AsksFor(arch: Arch, sec: SectionInfo, far: set<int>, m: Mem, j: Job)
  {
    var plan := PlanOf(arch, sec, m, j);
    plan.Ok? && plan.value.Via? ==> plan.value.target in far
  }

  lemma PlaceInRegion(arch: Arch, sec: SectionInfo, n: nat, j: Job)
    requires Region(arch, sec, n) && InSection(arch, sec, j)
    ensures PlaceOf(arch, sec, j) == sec.start + j.offset
    ensures PlaceOf(arch, sec, j) + Width(arch, j.rtype) <= sec.start + sec.size
  {
  }

  // The stub space is behind the section bytes: patching a place keeps the table.
  lemma PatchKeepsTable(arch: Arch, sec: SectionInfo, far: set<int>, t: Table, P: nat, n: nat, m: Mem)
    requires TableOk(arch, sec, far, t) && Region(arch, sec, |far|)
    requires P + n <= sec.start + sec.size && OnlyChanged(arch, t.mem, m, P, n, [])
    ensures TableOk(arch, sec, far, Table(m, t.stubs))
  {
    SlotsBehind(arch, sec, far, t);
    hide TableOk, Region, End;
    forall k | 0 <= k < |t.stubs| ensures SameOn(t.mem, m, t.stubs[k].addr, StubSize(arch)) {
      assert t.stubs[k] in t.stubs;
    }
    TableKept(arch, sec, far, t, m);
  }

  // Making a stub does not touch the place.
  lemma PlaceUntouched(arch: Arch, sec: SectionInfo, far: set<int>, t: Table, r: Table, P: nat, n: nat)
    requires TableOk(arch, sec, far, r) && Region(arch, sec, |far|) && t.stubs <= r.stubs
    requires P + n <= sec.start + sec.size && Mapped(r.mem, P, n)
    requires OnlyChanged(arch, t.mem, r.mem, P, 0, r.stubs[|t.stubs|..])
    ensures Mapped(t.mem, P, n) && PlaceContents(t.mem, P, n) == PlaceContents(r.mem, P, n)
  {
    SlotsBehind(arch, sec, far, r);
    hide Pow2, TableOk, Region, End, FromBytes;
    assert forall x :: x in t.mem <==> x in r.mem;
    assert Mapped(t.mem, P, n);
    forall x | P <= x < P + n ensures t.mem[x] == r.mem[x] {
      assert x in t.mem;
      forall s | s in r.stubs[|t.stubs|..] ensures x < s.addr {
        assert s in r.stubs;
      }
    }
    LoadSame(t.mem, r.mem, P, n);
  }

  lemma ChangesCompose(arch: Arch, m0: Mem, m1: Mem, m2: Mem, P: int, n: nat, stubs: seq<Stub>)
    requires OnlyChanged(arch, m0, m1, P, 0, stubs) && OnlyChanged(arch, m1, m2, P, n, [])
    ensures OnlyChanged(arch, m0, m2, P, n, stubs)
  {
    assert forall x :: x in m0 <==> x in m1;
    assert forall x :: x in m1 <==> x in m2;
  }

  lemma AssemblePlaced(arch: Arch, sec: SectionInfo, was: Mem, mid: Mem, t: Table, j: Job, v: int)
    requires PlanOf(arch, sec, was, j).Ok?
    requires ValueIn(arch, t.stubs, PlanOf(arch, sec, was, j).value, PlaceOf(arch, sec, j)) == Ok(v)
    requires var P, n := PlaceOf(arch, sec, j), Width(arch, j.rtype);
      && Mapped(was, P, n) && Mapped(mid, P, n) && Mapped(t.mem, P, n)
      && PlaceContents(was, P, n) == PlaceContents(mid, P, n)
      && Encode(arch, j.rtype, PlaceContents(mid, P, n), v) == Ok(Read(t.mem, P, n))
    ensures Placed(arch, sec, was, t, j)
  {
    hide PlanOf, ValueIn, PlaceOf, Width, Encode, Pow2, Read, PlaceContents;
  }

  // One relocation: the table stays sound and only grows, the place gets its own encoding, nothing else changes.
  lemma RelocateKeeps(arch: Arch, sec: SectionInfo, far: set<int>, t: Table, j: Job)
    requires TableOk(arch, sec, far, t) && Region(arch, sec, |far|)
    requires InSection(arch, sec, j) && AsksFor(arch, sec, far, t.mem, j)
    requires Relocate(arch, sec, t, j).Ok?
    ensures var r := Relocate(arch, sec, t, j).value;
      && TableOk(arch, sec, far, r)
      && t.stubs <= r.stubs
      && OnlyChanged(arch, t.mem, r.mem, PlaceOf(arch, sec, j), Width(arch, j.rtype), r.stubs[|t.stubs|..])
      && Placed(arch, sec, t.mem, r, j)
  {
    var P, n := PlaceOf(arch, sec, j), Width(arch, j.rtype);
    var plan := PlanOf(arch, sec, t.mem, j).value;
    ResolveKeeps(arch, sec, far, t, plan, P);
    var q := Resolve(arch, sec, t, plan, P).value;
    PatchPlaces(arch, q.table.mem, P, j.rtype, q.value);
    PatchFrame(arch, q.table.mem, P, j.rtype, q.value);
    PlaceInRegion(arch, sec, |far|, j);
    var m := Patch(arch, q.table.mem, P, j.rtype, q.value).value;
    var r := Table(m, q.table.stubs);
    assert Relocate(arch, sec, t, j).value == r;
    hide Relocate, PlanOf, Resolve, Patch, Encode, Width, PlaceOf, Pow2, TableOk, Region, ValueIn, Read, OnlyChanged,
         Placed, PlaceContents;
    PatchKeepsTable(arch, sec, far, q.table, P, n, m);
    PlaceUntouched(arch, sec, far, t, q.table, P, n);
    ChangesCompose(arch, t.mem, q.table.mem, m, P, n, r.stubs[|t.stubs|..]);
    AssemblePlaced(arch, sec, t.mem, q.table.mem, r, j, q.value);
  }
}
