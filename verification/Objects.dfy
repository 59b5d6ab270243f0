// Types.h's ObjectCode: tables of symbols and relocations, and the pass over all of them (elf/reloc/*.c).
module Objects {
  import opened Memory
  import opened Results
  import opened Types
  import opened Words
  import opened Target
  import opened Pass
  import opened Runs
  import opened Budget
  import opened Sections

  const STB_LOCAL := 0
  const STB_GLOBAL := 1
  const STB_WEAK := 2
  const STT_NOTYPE := 0
  const STT_OBJECT := 1
  const STT_FUNC := 2
  const STT_SECTION := 3
  const SHN_UNDEF := 0
  const SHN_LORESERVE := 0xff00
  const SHN_COMMON := 0xfff2

  // a symbol as the object file has it; without a name if st_name is 0
  datatype ElfSym = ElfSym(name: Option<seq<u8>>, bind: nat, stype: nat, shndx: nat, value: nat)

  // "(no name)" stands for a missing name
  function NameOf(e: ElfSym): seq<u8>
  {
    if e.name.Some? then e.name.value else [40, 110, 111, 32, 110, 97, 109, 101, 41]
  }

  // a symbol as the linker has it
  class ElfSymbol {
    const elf: ElfSym
    const hash: u64
    var addr: nat
    var gotAddr: nat

    constructor (elf: ElfSym, hash: u64)
      ensures this.elf == elf && this.hash == hash && addr == 0 && gotAddr == 0
    {
      this.elf := elf;
      this.hash := hash;
      addr := 0;
      gotAddr := 0;
    }
  }

  datatype SymbolTable = SymbolTable(index: nat, symbols: seq<ElfSymbol>)

  datatype Rel = Rel(offset: nat, rtype: nat, sym: nat, addend: int)

  datatype RelTable = RelTable(index: nat, target: nat, link: nat, rels: seq<Rel>)

  const SHT_PROGBITS := 1
  const SHT_SYMTAB := 2
  const SHT_RELA := 4
  const SHT_NOBITS := 8
  const SHT_REL := 9

  // a section header, with the symbols or relocations that the section holds
  datatype SectionHeader = SectionHeader(shType: nat, flags: nat, offset: nat, size: nat, info: nat, link: nat,
                                         bytes: seq<u8>, syms: seq<ElfSym>, rels: seq<Rel>)

  // ---- symbols ----

  ghost function SymbolsOf(tabs: seq<SymbolTable>): set<ElfSymbol>
  {
    set t, s | t in tabs && s in t.symbols :: s
  }

  function FindTable(tabs: seq<SymbolTable>, index: nat): (t: Option<SymbolTable>)
    ensures t.Some? ==> t.value in tabs
  {
    if tabs == [] then None
    else if tabs[0].index == index then Some(tabs[0])
    else FindTable(tabs[1..], index)
  }

  function SymbolAt(tabs: seq<SymbolTable>, index: nat, k: nat): (s: Option<ElfSymbol>)
    ensures s.Some? ==> s.value in SymbolsOf(tabs)
  {
    var t := FindTable(tabs, index);
    if t.Some? && k < |t.value.symbols| then
      assert t.value.symbols[k] in t.value.symbols;
      Some(t.value.symbols[k])
    else None
  }

  // find_symbol_table
  method FindSymbolTable(tabs: seq<SymbolTable>, index: nat) returns (t: Option<SymbolTable>)
    ensures t == FindTable(tabs, index)
  {
    var k := 0;
    while k < |tabs|
      invariant k <= |tabs| && FindTable(tabs, index) == FindTable(tabs[k..], index)
    {
      if tabs[k].index == index {
        return Some(tabs[k]);
      }
      k := k + 1;
    }
    return None;
  }

  // find_symbol
  method FindSymbol(tabs: seq<SymbolTable>, index: nat, k: nat) returns (s: Option<ElfSymbol>)
    ensures s == SymbolAt(tabs, index, k)
  {
    var t := FindSymbolTable(tabs, index);
    if t.Some? && k < |t.value.symbols| {
      return Some(t.value.symbols[k]);
    }
    return None;
  }

  // ---- the flat list of relocations ----

  function View(s: Option<ElfSymbol>): Option<SymbolView>
    reads if s.Some? then {s.value} else {}
  {
    if s.Some? then Some(SymbolView(s.value.addr, s.value.gotAddr)) else None
  }

  ghost function JobOf(tabs: seq<SymbolTable>, t: RelTable, rel: Rel, implicit: bool): Job
    reads SymbolsOf(tabs)
  {
    Job(t.target, rel.offset, rel.rtype, View(SymbolAt(tabs, t.link, rel.sym)), implicit, rel.addend)
  }

  ghost function JobsFrom(tabs: seq<SymbolTable>, t: RelTable, implicit: bool, k: nat): (jobs: seq<Job>)
    requires k <= |t.rels|
    reads SymbolsOf(tabs)
    ensures forall i :: 0 <= i < |jobs| ==> jobs[i].sec == t.target
    decreases |t.rels| - k
  {
    if k == |t.rels| then []
    else [JobOf(tabs, t, t.rels[k], implicit)] + JobsFrom(tabs, t, implicit, k + 1)
  }

  ghost predicate TargetsExist(infos: seq<SectionInfo>, ts: seq<RelTable>)
  {
    forall t :: t in ts ==> t.target < |infos|
  }

  // The relocations of the tables whose target section is relocated, in order
  ghost function JobsOf(tabs: seq<SymbolTable>, infos: seq<SectionInfo>, ts: seq<RelTable>,
                        implicit: bool): (jobs: seq<Job>)
    requires TargetsExist(infos, ts)
    reads SymbolsOf(tabs)
    ensures forall i :: 0 <= i < |jobs| ==> jobs[i].sec < |infos|
  {
    if ts == [] then []
    else
      (if Active(infos[ts[0].target]) then JobsFrom(tabs, ts[0], implicit, 0) else [])
      + JobsOf(tabs, infos, ts[1..], implicit)
  }

  // ---- sections as values ----

  function InfosOf(secs: seq<Section>): (infos: seq<SectionInfo>)
    ensures |infos| == |secs| && forall i :: 0 <= i < |secs| ==> infos[i] == secs[i].info
  {
    seq(|secs|, i requires 0 <= i < |secs| => secs[i].info)
  }

  ghost function StubsOf(secs: seq<Section>): (tables: seq<seq<Stub>>)
    reads secs
    ensures |tables| == |secs| && forall i :: 0 <= i < |secs| ==> tables[i] == secs[i].stubs
  {
    seq(|secs|, i requires 0 <= i < |secs| reads secs => secs[i].stubs)
  }

  ghost function StateOf(mem: Ram, secs: seq<Section>): State
    reads mem, secs
  {
    State(mem.cells, StubsOf(secs))
  }

  ghost predicate SectionsValid(secs: seq<Section>)
    reads secs
  {
    && (forall i :: 0 <= i < |secs| ==> secs[i].Valid())
    && (forall i, k :: 0 <= i < k < |secs| ==> secs[i] != secs[k])
  }

  // One round of a relocation loop, for the section with index j.sec
  method RelocateStep(arch: Arch, mem: Ram, secs: seq<Section>, j: Job) returns (ok: bool)
    requires SectionsValid(secs) && j.sec < |secs|
    modifies mem, secs
    ensures ok <==> Step(arch, InfosOf(secs), old(StateOf(mem, secs)), j).Ok?
    ensures ok ==> SectionsValid(secs)
    ensures ok ==> Step(arch, InfosOf(secs), old(StateOf(mem, secs)), j) == Ok(StateOf(mem, secs))
  {
    hide Relocate;
    ghost var before := StubsOf(secs);
    ok := secs[j.sec].RelocateOne(arch, mem, j);
    if ok {
      assert StubsOf(secs) == before[j.sec := secs[j.sec].stubs];
    }
  }

  // ---- runs in pieces ----

  lemma {:induction false} RunAppend(arch: Arch, secs: seq<SectionInfo>, st: State, a: seq<Job>, b: seq<Job>)
    requires Fits(secs, st, a) && Fits(secs, st, b)
    ensures Fits(secs, st, a + b)
    ensures Run(arch, secs, st, a).Abort? ==> Run(arch, secs, st, a + b).Abort?
    ensures Run(arch, secs, st, a).Ok? ==>
      Run(arch, secs, st, a + b) == Run(arch, secs, Run(arch, secs, st, a).value, b)
    decreases |a|
  {
    hide Step;
    if a == [] {
      assert a + b == b;
    } else {
      assert (a + b)[0] == a[0] && (a + b)[1..] == a[1..] + b;
      if Step(arch, secs, st, a[0]).Ok? {
        RunAppend(arch, secs, Step(arch, secs, st, a[0]).value, a[1..], b);
      }
    }
  }

  lemma RunOne(arch: Arch, secs: seq<SectionInfo>, st: State, j: Job, rest: seq<Job>)
    requires Fits(secs, st, [j] + rest) && j.sec < |secs|
    ensures Step(arch, secs, st, j).Abort? ==> Run(arch, secs, st, [j] + rest).Abort?
    ensures Step(arch, secs, st, j).Ok? ==>
      Fits(secs, Step(arch, secs, st, j).value, rest)
      && Run(arch, secs, st, [j] + rest) == Run(arch, secs, Step(arch, secs, st, j).value, rest)
  {
    hide Step;
    assert ([j] + rest)[0] == j && ([j] + rest)[1..] == rest;
    assert forall k :: 0 <= k < |rest| ==> ([j] + rest)[k + 1] == rest[k];
  }

  // ---- the loops ----

  // The loop over the relocations of one table
  method RelocateTable(arch: Arch, mem: Ram, secs: seq<Section>, tabs: seq<SymbolTable>, t: RelTable, implicit: bool)
    returns (ok: bool)
    requires SectionsValid(secs) && t.target < |secs|
    modifies mem, secs
    ensures ok <==> Run(arch, InfosOf(secs), old(StateOf(mem, secs)), old(JobsFrom(tabs, t, implicit, 0))).Ok?
    ensures ok ==> SectionsValid(secs)
    ensures ok ==>
      Run(arch, InfosOf(secs), old(StateOf(mem, secs)), old(JobsFrom(tabs, t, implicit, 0))) == Ok(StateOf(mem, secs))
  {
    hide Step;
    var k := 0;
    ghost var st, jobs := StateOf(mem, secs), JobsFrom(tabs, t, implicit, 0);
    while k < |t.rels|
      invariant k <= |t.rels| && SectionsValid(secs)
      invariant Run(arch, InfosOf(secs), st, jobs)
             == Run(arch, InfosOf(secs), StateOf(mem, secs), JobsFrom(tabs, t, implicit, k))
    {
      var rel := t.rels[k];
      var symbol := FindSymbol(tabs, t.link, rel.sym);
      var j := Job(t.target, rel.offset, rel.rtype, View(symbol), implicit, rel.addend);
      assert j == JobOf(tabs, t, rel, implicit);
      ghost var here, rest := StateOf(mem, secs), JobsFrom(tabs, t, implicit, k + 1);
      assert JobsFrom(tabs, t, implicit, k) == [j] + rest;
      RunOne(arch, InfosOf(secs), here, j, rest);
      label Before:
      ok := RelocateStep(arch, mem, secs, j);
      if !ok {
        return false;
      }
      assert Step(arch, InfosOf(secs), here, j) == Ok(StateOf(mem, secs));
      assert forall s :: s in SymbolsOf(tabs) ==> unchanged@Before(s);
      assert JobsFrom(tabs, t, implicit, k + 1) == rest;
      k := k + 1;
    }
    return true;
  }

  // A loop over tables: those whose section is of another kind are skipped.
  method RelocateTables(arch: Arch, mem: Ram, secs: seq<Section>, tabs: seq<SymbolTable>, ts: seq<RelTable>,
                        implicit: bool)
    returns (ok: bool)
    requires SectionsValid(secs) && TargetsExist(InfosOf(secs), ts)
    modifies mem, secs
    ensures ok <==>
      Run(arch, InfosOf(secs), old(StateOf(mem, secs)), old(JobsOf(tabs, InfosOf(secs), ts, implicit))).Ok?
    ensures ok ==> SectionsValid(secs)
    ensures ok ==>
      Run(arch, InfosOf(secs), old(StateOf(mem, secs)), old(JobsOf(tabs, InfosOf(secs), ts, implicit)))
        == Ok(StateOf(mem, secs))
  {
    hide Step, Run, JobsOf, JobsFrom;
    var infos := InfosOf(secs);
    ghost var st, jobs := StateOf(mem, secs), JobsOf(tabs, infos, ts, implicit);
    var k := 0;
    assert ts[0..] == ts;
    while k < |ts|
      invariant k <= |ts| && SectionsValid(secs) && TargetsExist(infos, ts[k..])
      invariant Run(arch, infos, st, jobs)
        == Run(arch, infos, StateOf(mem, secs), JobsOf(tabs, infos, ts[k..], implicit))
    {
      ghost var here, rest := StateOf(mem, secs), JobsOf(tabs, infos, ts[k + 1..], implicit);
      JobsOfNext(tabs, infos, ts, k, implicit);
      if infos[ts[k].target].kind != OTHER {
        ghost var own := JobsFrom(tabs, ts[k], implicit, 0);
        RunAppend(arch, infos, here, own, rest);
        label Before:
        ok := RelocateTable(arch, mem, secs, tabs, ts[k], implicit);
        if !ok {
          return false;
        }
        assert forall s :: s in SymbolsOf(tabs) ==> unchanged@Before(s);
      }
      assert JobsOf(tabs, infos, ts[k + 1..], implicit) == rest;
      k := k + 1;
    }
    NoJobs(arch, infos, StateOf(mem, secs), tabs, ts, implicit);
    return true;
  }

  lemma JobsOfNext(tabs: seq<SymbolTable>, infos: seq<SectionInfo>, ts: seq<RelTable>, k: nat, implicit: bool)
    requires k < |ts| && TargetsExist(infos, ts[k..])
    ensures TargetsExist(infos, ts[k + 1..])
    ensures var rest := JobsOf(tabs, infos, ts[k + 1..], implicit);
      JobsOf(tabs, infos, ts[k..], implicit)
        == if infos[ts[k].target].kind != OTHER then JobsFrom(tabs, ts[k], implicit, 0) + rest else rest
  {
    hide JobsFrom;
    assert ts[k..][0] == ts[k] && ts[k..][1..] == ts[k + 1..];
    var rest := JobsOf(tabs, infos, ts[k + 1..], implicit);
    assert [] + rest == rest;
  }

  lemma NoJobs(arch: Arch, infos: seq<SectionInfo>, st: State, tabs: seq<SymbolTable>, ts: seq<RelTable>,
               implicit: bool)
    requires |st.tables| == |infos|
    ensures TargetsExist(infos, ts[|ts|..]) && JobsOf(tabs, infos, ts[|ts|..], implicit) == []
    ensures Run(arch, infos, st, []) == Ok(st)
  {
  }

  // relocate_object_code: REL tables first, then RELA tables
  ghost function AllJobs(tabs: seq<SymbolTable>, infos: seq<SectionInfo>, rel: seq<RelTable>,
                         rela: seq<RelTable>): seq<Job>
    requires TargetsExist(infos, rel) && TargetsExist(infos, rela)
    reads SymbolsOf(tabs)
  {
    JobsOf(tabs, infos, rel, true) + JobsOf(tabs, infos, rela, false)
  }

  method RelocateObjectCode(arch: Arch, mem: Ram, secs: seq<Section>, tabs: seq<SymbolTable>, rel: seq<RelTable>,
                            rela: seq<RelTable>)
    returns (ok: bool)
    requires SectionsValid(secs) && TargetsExist(InfosOf(secs), rel) && TargetsExist(InfosOf(secs), rela)
    modifies mem, secs
    ensures ok <==> Run(arch, InfosOf(secs), old(StateOf(mem, secs)), old(AllJobs(tabs, InfosOf(secs), rel, rela))).Ok?
    ensures ok ==> SectionsValid(secs)
    ensures ok ==>
      RunsTo(arch, InfosOf(secs), old(StateOf(mem, secs)), old(AllJobs(tabs, InfosOf(secs), rel, rela)),
             StateOf(mem, secs))
  {
    var infos := InfosOf(secs);
    ghost var a, b := JobsOf(tabs, infos, rel, true), JobsOf(tabs, infos, rela, false);
    RunAppend(arch, infos, StateOf(mem, secs), a, b);
    hide Run;
    ok := RelocateTables(arch, mem, secs, tabs, rel, true);
    if ok {
      assert forall s :: s in SymbolsOf(tabs) ==> unchanged(s);
      assert JobsOf(tabs, infos, rela, false) == b;
      ok := RelocateTables(arch, mem, secs, tabs, rela, false);
    }
  }

  // ---- numberOfStubsForSection ----

  function StubsIn(arch: Arch, rels: seq<Rel>): nat
  {
    if rels == [] then 0 else (if NeedStub(arch, rels[0].rtype) then 1 else 0) + StubsIn(arch, rels[1..])
  }

  function StubsFor(arch: Arch, ts: seq<RelTable>, i: nat): nat
  {
    if ts == [] then 0 else (if ts[0].target == i then StubsIn(arch, ts[0].rels) else 0) + StubsFor(arch, ts[1..], i)
  }

  method CountStubs(arch: Arch, ts: seq<RelTable>, i: nat) returns (n: nat)
    ensures n == StubsFor(arch, ts, i)
  {
    n := 0;
    var k := 0;
    while k < |ts|
      invariant k <= |ts| && n + StubsFor(arch, ts[k..], i) == StubsFor(arch, ts, i)
    {
      if ts[k].target == i {
        var rels, l := ts[k].rels, 0;
        while l < |rels|
          invariant l <= |rels|
          invariant n + StubsIn(arch, rels[l..]) + StubsFor(arch, ts[k + 1..], i) == StubsFor(arch, ts, i)
        {
          if NeedStub(arch, rels[l].rtype) {
            n := n + 1;
          }
          l := l + 1;
        }
      }
      k := k + 1;
    }
  }

  method NumberOfStubsForSection(arch: Arch, rel: seq<RelTable>, rela: seq<RelTable>, i: nat) returns (n: nat)
    ensures n == StubsFor(arch, rel, i) + StubsFor(arch, rela, i)
  {
    n := CountStubs(arch, rel, i);
    var m := CountStubs(arch, rela, i);
    n := n + m;
  }

  lemma {:induction false} BudgetAppend(arch: Arch, a: seq<Job>, b: seq<Job>, i: nat)
    ensures NumberOfStubs(arch, a + b, i) == NumberOfStubs(arch, a, i) + NumberOfStubs(arch, b, i)
  {
    if a == [] {
      assert a + b == b;
    } else {
      assert (a + b)[0] == a[0] && (a + b)[1..] == a[1..] + b;
      BudgetAppend(arch, a[1..], b, i);
    }
  }

  lemma {:induction false} TableBudget(arch: Arch, tabs: seq<SymbolTable>, t: RelTable, implicit: bool, k: nat, i: nat)
    requires k <= |t.rels|
    ensures NumberOfStubs(arch, JobsFrom(tabs, t, implicit, k), i)
      == if t.target == i then StubsIn(arch, t.rels[k..]) else 0
    decreases |t.rels| - k
  {
    if k < |t.rels| {
      TableBudget(arch, tabs, t, implicit, k + 1, i);
      var j := JobOf(tabs, t, t.rels[k], implicit);
      assert ([j] + JobsFrom(tabs, t, implicit, k + 1))[1..] == JobsFrom(tabs, t, implicit, k + 1);
      assert t.rels[k..][1..] == t.rels[k + 1..];
    }
  }

  // The count made before loading is the budget of the pass: the same relocations are counted.
  lemma {:induction false} BudgetAgrees(arch: Arch, tabs: seq<SymbolTable>, infos: seq<SectionInfo>, ts: seq<RelTable>,
                                        implicit: bool, i: nat)
    requires TargetsExist(infos, ts) && i < |infos| && Active(infos[i])
    ensures NumberOfStubs(arch, JobsOf(tabs, infos, ts, implicit), i) == StubsFor(arch, ts, i)
  {
    if ts != [] {
      BudgetAgrees(arch, tabs, infos, ts[1..], implicit, i);
      if Active(infos[ts[0].target]) {
        TableBudget(arch, tabs, ts[0], implicit, 0, i);
        BudgetAppend(arch, JobsFrom(tabs, ts[0], implicit, 0), JobsOf(tabs, infos, ts[1..], implicit), i);
        assert ts[0].rels[0..] == ts[0].rels;
      } else {
        assert [] + JobsOf(tabs, infos, ts[1..], implicit) == JobsOf(tabs, infos, ts[1..], implicit);
      }
    }
  }
}
