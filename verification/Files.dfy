// What the code of an object file does once the file has been linked, in its own terms: relocations, symbols, and the
// files that export them. It holds in every later memory that leaves the object's pages alone.
module Files {
  import opened Memory
  import opened Results
  import opened Types
  import opened Words
  import opened Target
  import opened Pass
  import opened Plt
  import opened Runs
  import opened Budget
  import opened Objects
  import opened Hash
  import opened Linker
  import opened Got
  import opened Init
  import opened Kinds
  import opened Loading
  import opened Names
  import opened Inputs
  import opened Addresses
  import opened Resolution
  import opened Symbols
  import opened Programs
  import opened OwnPages
  import opened LoadOrder

  // ---- relocations of the file ----

  // types 9 and 4, with implicit and explicit addends
  predicate IsRelocationSection(h: SectionHeader) { h.shType == 9 || h.shType == 4 }

  // by type and flags
  predicate IsLoadedKind(h: SectionHeader) { IsFromFile(h) || IsZeroed(h) }

  // relocation q of section h, for a section that is loaded
  predicate IsRelocation(x: Input, h: nat, q: nat)
  {
    && h < |x.headers| && IsRelocationSection(x.headers[h]) && q < |x.headers[h].rels|
    && x.headers[h].info < |x.headers| && IsLoadedKind(x.headers[x.headers[h].info])
  }

  function TableFor(x: Input, h: nat): RelTable
    requires h < |x.headers|
  {
    RelTable(h, x.headers[h].info, x.headers[h].link, x.headers[h].rels)
  }

  // what the pass does for it
  function FileJob(arch: Arch, x: Input, g: map<u64, nat>, system: System, h: nat, q: nat): Job
    requires |x.answers| == |x.headers| && h < |x.headers| && q < |x.headers[h].rels|
  {
    JobFor(arch, x, g, system, TableFor(x, h), x.headers[h].rels[q], x.headers[h].shType == SHT_REL)
  }

  lemma {:induction false} TableAmong(headers: seq<SectionHeader>, ty: nat, h: nat)
    requires h < |headers| && headers[h].shType == ty
    ensures RelTable(h, headers[h].info, headers[h].link, headers[h].rels) in RelTablesOf(headers, ty)
  {
    var n := |headers| - 1;
    if h < n {
      TableAmong(headers[..n], ty, h);
    }
  }

  lemma {:induction false} JobInTable(arch: Arch, x: Input, g: map<u64, nat>, system: System, t: RelTable,
                                      implicit: bool, k: nat, q: nat)
    requires |x.answers| == |x.headers| && k <= q < |t.rels|
    ensures TableJobs(arch, x, g, system, t, implicit, k)[q - k] == JobFor(arch, x, g, system, t, t.rels[q], implicit)
    decreases q - k
  {
    hide JobFor;
    if k < q {
      JobInTable(arch, x, g, system, t, implicit, k + 1, q);
    }
  }

  lemma {:induction false} JobInList(arch: Arch, x: Input, g: map<u64, nat>, system: System, ts: seq<RelTable>,
                                     implicit: bool,
                                     t: RelTable, q: nat)
    returns (k: nat)
    requires |x.answers| == |x.headers| && TargetsExist(InfosFor(arch, x), ts) && t in ts && q < |t.rels|
    requires Active(InfosFor(arch, x)[t.target])
    ensures k < |ListJobs(arch, x, g, system, ts, implicit)|
    ensures ListJobs(arch, x, g, system, ts, implicit)[k] == JobFor(arch, x, g, system, t, t.rels[q], implicit)
  {
    hide JobFor, TableJobs, InfosFor;
    if ts[0] == t {
      JobInTable(arch, x, g, system, t, implicit, 0, q);
      k := q;
    } else {
      k := JobInList(arch, x, g, system, ts[1..], implicit, t, q);
      k := k + if Active(InfosFor(arch, x)[ts[0].target]) then |ts[0].rels| else 0;
    }
  }

  // Every relocation of the file, for a section that is relocated, is run by the pass.
  lemma EveryRelocationRuns(arch: Arch, x: Input, g: map<u64, nat>, system: System, h: nat, q: nat) returns (k: nat)
    requires |x.answers| == |x.headers| && TargetsIn(arch, x) && IsRelocation(x, h, q)
    ensures k < |JobsFor(arch, x, g, system)| && JobsFor(arch, x, g, system)[k] == FileJob(arch, x, g, system, h, q)
    ensures IsImage(InfosFor(arch, x)[x.headers[h].info].kind) <==> IsFromFile(x.headers[x.headers[h].info])
  {
    hide ListJobs, InfosFor, JobFor, IsFromFile, IsZeroed;
    InfoKinds(arch, x, x.headers[h].info);
    var rel := ListJobs(arch, x, g, system, RelOf(x), true);
    if x.headers[h].shType == SHT_REL {
      TableAmong(x.headers, SHT_REL, h);
      k := JobInList(arch, x, g, system, RelOf(x), true, TableFor(x, h), q);
    } else {
      TableAmong(x.headers, SHT_RELA, h);
      k := JobInList(arch, x, g, system, RelaOf(x), false, TableFor(x, h), q);
      k := |rel| + k;
    }
  }

  lemma {:induction false} TableIsOne(headers: seq<SectionHeader>, ty: nat, t: RelTable)
    requires t in RelTablesOf(headers, ty)
    ensures t.index < |headers| && headers[t.index].shType == ty
    ensures t == RelTable(t.index, headers[t.index].info, headers[t.index].link, headers[t.index].rels)
  {
    var n := |headers| - 1;
    if t in RelTablesOf(headers[..n], ty) {
      TableIsOne(headers[..n], ty, t);
    }
  }

  lemma {:induction false} JobOfList(arch: Arch, x: Input, g: map<u64, nat>, system: System, ts: seq<RelTable>,
                                     implicit: bool, k: nat)
    returns (t: RelTable, q: nat)
    requires |x.answers| == |x.headers| && TargetsExist(InfosFor(arch, x), ts)
    requires k < |ListJobs(arch, x, g, system, ts, implicit)|
    ensures t in ts && q < |t.rels| && t.target < |x.headers| && Active(InfosFor(arch, x)[t.target])
    ensures ListJobs(arch, x, g, system, ts, implicit)[k] == JobFor(arch, x, g, system, t, t.rels[q], implicit)
  {
    hide JobFor, TableJobs, InfosFor;
    t := ts[0];
    var own := if Active(InfosFor(arch, x)[t.target]) then |t.rels| else 0;
    if k < own {
      q := k;
      JobInTable(arch, x, g, system, t, implicit, 0, q);
    } else {
      t, q := JobOfList(arch, x, g, system, ts[1..], implicit, k - own);
    }
  }

  // And the pass runs nothing else.
  lemma EveryJobIsOne(arch: Arch, x: Input, g: map<u64, nat>, system: System, k: nat) returns (h: nat, q: nat)
    requires |x.answers| == |x.headers| && TargetsIn(arch, x) && k < |JobsFor(arch, x, g, system)|
    ensures IsRelocation(x, h, q) && JobsFor(arch, x, g, system)[k] == FileJob(arch, x, g, system, h, q)
  {
    hide ListJobs, InfosFor, JobFor, IsFromFile, IsZeroed;
    var n, t := |ListJobs(arch, x, g, system, RelOf(x), true)|, RelTable(0, 0, 0, []);
    if k < n {
      t, q := JobOfList(arch, x, g, system, RelOf(x), true, k);
      TableIsOne(x.headers, SHT_REL, t);
    } else {
      t, q := JobOfList(arch, x, g, system, RelaOf(x), false, k - n);
      TableIsOne(x.headers, SHT_RELA, t);
    }
    h := t.index;
    InfoKinds(arch, x, x.headers[h].info);
  }

  // The first of two relocations comes first: those with implicit addends before the others, and otherwise in the order
  // of the file.
  predicate ComesFirst(x: Input, h: nat, q: nat, i: nat, p: nat)
    requires h < |x.headers| && i < |x.headers|
  {
    || (x.headers[h].shType == 9 && x.headers[i].shType == 4)
    || (x.headers[h].shType == x.headers[i].shType && (h < i || (h == i && q < p)))
  }

  ghost predicate Ascending(ts: seq<RelTable>)
  {
    forall i, k :: 0 <= i < k < |ts| ==> ts[i].index < ts[k].index
  }

  lemma {:induction false} TablesAscend(headers: seq<SectionHeader>, ty: nat)
    ensures Ascending(RelTablesOf(headers, ty))
  {
    if headers != [] {
      var n := |headers| - 1;
      var ts := RelTablesOf(headers[..n], ty);
      TablesAscend(headers[..n], ty);
      forall i | 0 <= i < |ts| ensures ts[i].index < n {
        TableIsOne(headers[..n], ty, ts[i]);
      }
    }
  }

  lemma FirstAscends(ts: seq<RelTable>)
    requires Ascending(ts) && ts != []
    ensures Ascending(ts[1..]) && forall u :: u in ts[1..] ==> ts[0].index < u.index
  {
  }

  // A relocation behind one of the first table
  lemma BehindFirst(arch: Arch, x: Input, g: map<u64, nat>, system: System, ts: seq<RelTable>, implicit: bool, k: nat,
                    l: nat)
    returns (u: RelTable, p: nat)
    requires |x.answers| == |x.headers| && TargetsExist(InfosFor(arch, x), ts) && Ascending(ts) && ts != []
    requires Active(InfosFor(arch, x)[ts[0].target]) && k < |ts[0].rels|
    requires k < l < |ListJobs(arch, x, g, system, ts, implicit)|
    ensures u in ts && p < |u.rels| && (ts[0].index < u.index || (ts[0] == u && k < p))
    ensures u.target < |x.headers| && Active(InfosFor(arch, x)[u.target])
    ensures ListJobs(arch, x, g, system, ts, implicit)[l] == JobFor(arch, x, g, system, u, u.rels[p], implicit)
  {
    hide JobFor, TableJobs, InfosFor, Ascending;
    FirstAscends(ts);
    var own := |ts[0].rels|;
    if l < own {
      u, p := ts[0], l;
      JobInTable(arch, x, g, system, u, implicit, 0, p);
    } else {
      u, p := JobOfList(arch, x, g, system, ts[1..], implicit, l - own);
    }
  }

  lemma {:induction false} ListInOrder(arch: Arch, x: Input, g: map<u64, nat>, system: System, ts: seq<RelTable>,
                                       implicit: bool, k: nat, l: nat)
    returns (t: RelTable, q: nat, u: RelTable, p: nat)
    requires |x.answers| == |x.headers| && TargetsExist(InfosFor(arch, x), ts) && Ascending(ts)
    requires k < l < |ListJobs(arch, x, g, system, ts, implicit)|
    ensures t in ts && u in ts && q < |t.rels| && p < |u.rels| && (t.index < u.index || (t == u && q < p))
    ensures t.target < |x.headers| && Active(InfosFor(arch, x)[t.target])
    ensures u.target < |x.headers| && Active(InfosFor(arch, x)[u.target])
    ensures ListJobs(arch, x, g, system, ts, implicit)[k] == JobFor(arch, x, g, system, t, t.rels[q], implicit)
    ensures ListJobs(arch, x, g, system, ts, implicit)[l] == JobFor(arch, x, g, system, u, u.rels[p], implicit)
  {
    hide JobFor, TableJobs, InfosFor, Ascending;
    FirstAscends(ts);
    var own := if Active(InfosFor(arch, x)[ts[0].target]) then |ts[0].rels| else 0;
    if k < own {
      t, q := ts[0], k;
      JobInTable(arch, x, g, system, t, implicit, 0, q);
      u, p := BehindFirst(arch, x, g, system, ts, implicit, k, l);
    } else {
      t, q, u, p := ListInOrder(arch, x, g, system, ts[1..], implicit, k - own, l - own);
    }
  }

  // Relocations are run in that order.
  lemma JobsInOrder(arch: Arch, x: Input, g: map<u64, nat>, system: System, k: nat, l: nat)
    returns (h: nat, q: nat, i: nat, p: nat)
    requires |x.answers| == |x.headers| && TargetsIn(arch, x) && k < l < |JobsFor(arch, x, g, system)|
    ensures IsRelocation(x, h, q) && JobsFor(arch, x, g, system)[k] == FileJob(arch, x, g, system, h, q)
    ensures IsRelocation(x, i, p) && JobsFor(arch, x, g, system)[l] == FileJob(arch, x, g, system, i, p)
    ensures ComesFirst(x, h, q, i, p)
  {
    hide ListJobs, InfosFor, JobFor, IsFromFile, IsZeroed;
    var n := |ListJobs(arch, x, g, system, RelOf(x), true)|;
    var t, u := RelTable(0, 0, 0, []), RelTable(0, 0, 0, []);
    if l < n {
      TablesAscend(x.headers, SHT_REL);
      t, q, u, p := ListInOrder(arch, x, g, system, RelOf(x), true, k, l);
      TableIsOne(x.headers, SHT_REL, t);
      TableIsOne(x.headers, SHT_REL, u);
    } else if n <= k {
      TablesAscend(x.headers, SHT_RELA);
      t, q, u, p := ListInOrder(arch, x, g, system, RelaOf(x), false, k - n, l - n);
      TableIsOne(x.headers, SHT_RELA, t);
      TableIsOne(x.headers, SHT_RELA, u);
    } else {
      t, q := JobOfList(arch, x, g, system, RelOf(x), true, k);
      u, p := JobOfList(arch, x, g, system, RelaOf(x), false, l - n);
      TableIsOne(x.headers, SHT_REL, t);
      TableIsOne(x.headers, SHT_RELA, u);
    }
    h, i := t.index, u.index;
    InfoKinds(arch, x, x.headers[h].info);
    InfoKinds(arch, x, x.headers[i].info);
  }

  // ---- symbols of the file ----

  // Relocation q of section h names symbol e.
  predicate NamesSymbol(x: Input, h: nat, q: nat, e: ElfSym)
    requires h < |x.headers| && q < |x.headers[h].rels|
  {
    var link, sym := x.headers[h].link, x.headers[h].rels[q].sym;
    && link < |x.headers| && x.headers[link].shType == 2
    && sym < |x.headers[link].syms| && x.headers[link].syms[sym] == e
  }

  // its place in the list of all symbols
  function PositionOf(x: Input, h: nat, q: nat): nat
    requires h < |x.headers| && q < |x.headers[h].rels| && x.headers[h].link < |x.headers|
  {
    |HeaderSyms(x.headers[..x.headers[h].link])| + x.headers[h].rels[q].sym
  }

  lemma JobSymbol(arch: Arch, x: Input, g: map<u64, nat>, system: System, h: nat, q: nat, e: ElfSym)
    requires |x.answers| == |x.headers| && h < |x.headers| && q < |x.headers[h].rels| && NamesSymbol(x, h, q, e)
    ensures PositionOf(x, h, q) < |HeaderSyms(x.headers)| && HeaderSyms(x.headers)[PositionOf(x, h, q)] == e
    ensures FileJob(arch, x, g, system, h, q).symbol == Some(ViewAt(arch, x, g, system, PositionOf(x, h, q)))
    ensures FileJob(arch, x, g, system, h, q).symbol.value.addr == AddressFor(arch, x, g, system, e)
  {
    hide HeaderSyms, AddressFor, SlotFor;
    SymbolPosition(x.headers, x.headers[h].link, x.headers[h].rels[q].sym);
  }

  // Addresses of symbols are words.
  lemma AddressIsWord(arch: Arch, x: Input, g: map<u64, nat>, system: System, e: ElfSym)
    requires |x.answers| == |x.headers| && WordsOnly(arch, g) && SystemWords(arch, system)
    ensures AddressFor(arch, x, g, system, e) < AddressLimit(arch)
  {
    hide InfosFor, OwnAddress, WordsOnly, AddressLimit;
    WordLimit(arch);
    WantIsWord(arch, x, g, system, e);
    OwnIsWord(arch, InfosFor(arch, x), e);
  }

  // the address at which an object exports a symbol
  function ExportAddressOf(arch: Arch, x: Input, d: ElfSym): nat
    requires |x.answers| == |x.headers| && IsExport(arch, InfosFor(arch, x), d)
  {
    Addr(arch, InfosFor(arch, x)[d.shndx].start + d.value)
  }

  lemma {:induction false} ExportAmong(arch: Arch, infos: seq<SectionInfo>, es: seq<ElfSym>, d: ElfSym)
    requires d in es && IsExport(arch, infos, d)
    ensures Export(HashOf(d), Addr(arch, infos[d.shndx].start + d.value)) in AddressExports(arch, infos, es)
  {
    hide HashOf, Addr;
    var n := |es| - 1;
    assert es == es[..n] + [es[n]];
    if d in es[..n] {
      ExportAmong(arch, infos, es[..n], d);
    }
  }

  lemma {:induction false} ExportLoaded(arch: Arch, xs: seq<Input>, k: nat, e: Export<nat>)
    requires AnswersComplete(xs) && k < |xs| && e in ExportsFor(arch, xs[k])
    ensures e in Loaded(ExportLists(arch, xs))
  {
    hide ExportsFor;
    var ls := ExportLists(arch, xs);
    assert ls == [ExportsFor(arch, xs[0])] + ExportLists(arch, xs[1..]);
    if k > 0 {
      ExportLoaded(arch, xs[1..], k - 1, e);
    }
  }

  // After loading a list of objects every symbol that one of them exports is known at its address there.
  lemma ExportKnown(arch: Arch, xs: seq<Input>, g0: map<u64, nat>, g: map<u64, nat>, k: nat, d: ElfSym)
    requires AnswersComplete(xs) && OutcomeAll(arch, xs, g0) == Ok(g)
    requires k < |xs| && d in HeaderSyms(xs[k].headers) && IsExport(arch, InfosFor(arch, xs[k]), d)
    ensures HashOf(d) in g && g[HashOf(d)] == ExportAddressOf(arch, xs[k], d)
  {
    hide OutcomeAll, HashOf, Addr, AddressExports, IsExport, HeaderSyms, InfosFor, EnterAll, ExportLists, AllAcceptable;
    OutcomeAllIs(arch, xs, g0);
    EnterAllIs(g0, Loaded(ExportLists(arch, xs)));
    ExportAmong(arch, InfosFor(arch, xs[k]), HeaderSyms(xs[k].headers), d);
    ExportLoaded(arch, xs, k, Export(HashOf(d), ExportAddressOf(arch, xs[k], d)));
  }

  // So a weak or undefined symbol of one object, whatever the type of a weak one, gets the address of the symbol of
  // that name that another one exports.
  lemma ImportFindsExport(arch: Arch, xs: seq<Input>, g0: map<u64, nat>, g: map<u64, nat>, system: System,
                          i: nat, e: ElfSym, k: nat, d: ElfSym)
    requires AnswersComplete(xs) && OutcomeAll(arch, xs, g0) == Ok(g)
    requires i < |xs| && IsImport(e) && e.name.Some?
    requires k < |xs| && d in HeaderSyms(xs[k].headers) && IsExport(arch, InfosFor(arch, xs[k]), d) && d.name == e.name
    ensures AddressFor(arch, xs[i], g, system, e) == ExportAddressOf(arch, xs[k], d)
  {
    hide OutcomeAll, Addr, IsExport, HeaderSyms, InfosFor, KnuthHash, AddressFor, IsImport;
    ExportKnown(arch, xs, g0, g, k, d);
    ImportedAddress(arch, xs[i], g, system, e);
  }

  // ---- calls ----

  // where a relocation is applied
  function PlaceIn(arch: Arch, x: Input, h: nat, q: nat): nat
    requires |x.answers| == |x.headers| && h < |x.headers| && q < |x.headers[h].rels| && x.headers[h].info < |x.headers|
  {
    Addr(arch, InfosFor(arch, x)[x.headers[h].info].start + x.headers[h].rels[q].offset)
  }

  // the word of the file there
  function WordIn(x: Input, h: nat, q: nat): u32
    requires h < |x.headers| && q < |x.headers[h].rels| && x.headers[h].info < |x.headers|
  {
    FileWord(x.headers[x.headers[h].info], x.headers[h].rels[q].offset)
  }

  // In at most n steps the A64 branch w at P takes the machine to an address; but for x16 and the link of BL no
  // register is changed.
  ghost predicate Reaches64(m: Mem, P: nat, w: u32, to: nat, x: map<nat, u64>, n: nat)
  {
    && P < 0x1_0000_0000_0000_0000
    && exists k: nat :: k <= n && EndsAt64(Isa64.Run(m, Isa64.Cpu(P, x), k), to, Calls64.Linked(w, P, x))
  }

  ghost predicate EndsAt64(c: Option<Isa64.Cpu>, to: nat, x: map<nat, u64>)
  {
    c.Some? && c.value.pc == to && forall r :: r in x && r != 16 ==> r in c.value.x && c.value.x[r] == x[r]
  }

  lemma NearIsNotFar(sec: SectionInfo, m: Mem, j: Job)
    requires Calls64.CallSite(sec, m, j) && IsInt64(28, S64(j.symbol.value.addr + j.addend - PlaceOf(AArch64, sec, j)))
    ensures !IsFar(AArch64, sec, m, j)
  {
    hide PlaceOf, PlanOf, S64, U64, IsInt64, Arm64.Compute, Read, Calls64.IsCallWord;
    Calls64.PlanIs(sec, m, j);
    if PlanOf(AArch64, sec, m, j).Ok? {
      Calls64.CallValue(j.rtype, sec, PlaceOf(AArch64, sec, j), Calls64.SymbolOf(j), U64(j.symbol.value.gotAddr),
                        j.addend);
    }
  }

  lemma ArrivesReaches(sec: SectionInfo, m0: Mem, m: Mem, j: Job, x: map<nat, u64>)
    requires Calls64.CallSite(sec, m0, j) && Calls64.CallArrives(sec, m0, m, j, x)
    requires PlaceOf(AArch64, sec, j) < 0x1_0000_0000_0000_0000
    ensures Reaches64(m, PlaceOf(AArch64, sec, j), Isa64.Read32(m0, PlaceOf(AArch64, sec, j)),
                      U64(j.symbol.value.addr + j.addend), x, 6)
  {
    hide PlaceOf, Isa64.Run, U64, Read, Calls64.Linked, Calls64.IsCallWord;
    var P := PlaceOf(AArch64, sec, j);
    var k := if IsFar(AArch64, sec, m0, j) then 6 else 1;
    assert EndsAt64(Isa64.Run(m, Isa64.Cpu(P, x), k), U64(j.symbol.value.addr + j.addend),
                    Calls64.Linked(Isa64.Read32(m0, P), P, x));
  }

  lemma JobReaches64(x: Input, infos: seq<SectionInfo>, st: State, jobs: seq<Job>, end: State, now: Mem, k: nat,
                     regs: map<nat, u64>)
    requires Relinked(AArch64, x, infos, st, jobs, end) && KeepsRegions(AArch64, infos, st.mem, jobs, end.mem, now)
    requires k < |jobs| && 16 in regs && FileCall64(x, infos, jobs[k]) && jobs[k].symbol.Some?
    requires jobs[k].addend == 0
      || IsInt64(28, S64(jobs[k].symbol.value.addr + jobs[k].addend - PlaceOf(AArch64, infos[jobs[k].sec], jobs[k])))
    ensures Reaches64(now, PlaceOf(AArch64, infos[jobs[k].sec], jobs[k]),
                      FileWord(x.headers[jobs[k].sec], jobs[k].offset),
                      U64(jobs[k].symbol.value.addr + jobs[k].addend), regs, 6)
  {
    hide Fresh, RunsTo, FromFile, KeepsRegions, PlaceOf, FileWord, U64, S64, IsInt64, Calls64.CallSite,
         Calls64.CallArrives, IsFar, Reaches64, Read, Calls64.IsCallWord;
    CallSite64(x, infos, st, jobs, end, k);
    var sec := infos[jobs[k].sec];
    if jobs[k].addend != 0 {
      NearIsNotFar(sec, st.mem, jobs[k]);
    }
    CallsStillArrive64(infos, st, jobs, end, now, k, regs);
    ArrivesReaches(sec, st.mem, now, jobs[k], regs);
  }

  // A B or BL of the file with a call relocation, at a word boundary and to one: run in any memory that keeps the
  // object's pages, it reaches the address of the symbol it names plus the addend. Out of branch range this takes the
  // addend 0.
  lemma CallReaches64(x: Input, g: map<u64, nat>, system: System, m: Mem, now: Mem, h: nat, q: nat, e: ElfSym,
                      regs: map<nat, u64>)
    requires IsLinkedIn(AArch64, x, g, system, m, now) && 16 in regs
    requires |x.answers| == |x.headers| && IsRelocation(x, h, q) && NamesSymbol(x, h, q, e)
    requires var rel := x.headers[h].rels[q];
      && Arm64.IsBranch(rel.rtype) && rel.offset % 4 == 0 && IsFromFile(x.headers[x.headers[h].info])
      && Calls64.IsCallWord(WordIn(x, h, q)) && (AddressFor(AArch64, x, g, system, e) + rel.addend) % 4 == 0
      && (rel.addend == 0
          || IsInt64(28, S64(AddressFor(AArch64, x, g, system, e) + rel.addend - PlaceIn(AArch64, x, h, q))))
    ensures Reaches64(now, PlaceIn(AArch64, x, h, q), WordIn(x, h, q),
                      U64(AddressFor(AArch64, x, g, system, e) + x.headers[h].rels[q].addend), regs, 6)
  {
    hide IsLinkedIn, InfosFor, Relinked, KeepsRegions, JobsFor, FilledFor, AddressFor, TargetsIn, ViewFor, LinkedState,
         FileWord, GotReady, GotSafe, GotGiven, U64, S64, IsInt64, Calls64.IsCallWord, Reaches64, SlotFor, HeaderSyms,
         Addr, InMemory, WellFormed, Resolves, SameClaims, Loads, IsFromFile, IsZeroed;
    LinkedWords(AArch64, x, g, system, m, now, e);
    LinkedRegions(AArch64, x, g, system, m, now);
    var k := EveryRelocationRuns(AArch64, x, g, system, h, q);
    JobSymbol(AArch64, x, g, system, h, q, e);
    JobReaches64(x, InfosFor(AArch64, x), StartFor(x, FilledFor(AArch64, x, g, system, m)),
                 JobsFor(AArch64, x, g, system),
                 LinkedState(AArch64, x, g, system, m), now, k, regs);
  }

  lemma LinkedWords(arch: Arch, x: Input, g: map<u64, nat>, system: System, m: Mem, now: Mem, e: ElfSym)
    requires IsLinkedIn(arch, x, g, system, m, now)
    ensures |x.answers| == |x.headers| && AddressFor(arch, x, g, system, e) < AddressLimit(arch)
  {
    assert |x.answers| == |x.headers|;
    hide WellGiven, Loads, Resident, WellFormed, Resolves, SameClaims, WordsOnly, SystemWords, AddressFor;
    AddressIsWord(arch, x, g, system, e);
  }

  // The same for A32; no condition on addends.
  ghost predicate Reaches32(m: Mem, P: nat, w: u32, to: nat, x: map<nat, u32>, n: nat)
  {
    P < 0x1_0000_0000 && exists k: nat ::
      k <= n && EndsAt32(Isa32.Run(m, Isa32.Cpu(P, x), k), to, Calls32.Linked(w, P, x))
  }

  ghost predicate EndsAt32(c: Option<Isa32.Cpu>, to: nat, x: map<nat, u32>)
  {
    c.Some? && c.value.pc == to && forall r :: r in x && r != 12 ==> r in c.value.r && c.value.r[r] == x[r]
  }

  lemma ArrivesReaches32(sec: SectionInfo, m0: Mem, m: Mem, j: Job, x: map<nat, u32>)
    requires Calls32.CallArrives(sec, m0, m, j, x)
    ensures Reaches32(m, U32(PlaceOf(AArch32, sec, j)), Calls32.WordAt(sec, m0, j), Calls32.Goal(sec, m0, j), x, 4)
  {
    hide PlaceOf, Isa32.Run, U32, Calls32.Linked, Calls32.Goal, Calls32.WordAt, IsFar;
    var P := PlaceOf(AArch32, sec, j);
    var k := if IsFar(AArch32, sec, m0, j) then 4 else 1;
    assert EndsAt32(Isa32.Run(m, Isa32.Cpu(U32(P), x), k), Calls32.Goal(sec, m0, j),
                    Calls32.Linked(Calls32.WordAt(sec, m0, j), U32(P), x));
  }

  // the addend of the relocation, or the one in the instruction of the file
  function CallAddend32(x: Input, h: nat, q: nat): int
    requires h < |x.headers| && q < |x.headers[h].rels| && x.headers[h].info < |x.headers|
  {
    if x.headers[h].shType == SHT_REL then Isa32.Signed24(Isa32.Imm24(WordIn(x, h, q))) * 4
    else x.headers[h].rels[q].addend
  }

  lemma JobReaches32(x: Input, infos: seq<SectionInfo>, st: State, jobs: seq<Job>, end: State, now: Mem, k: nat,
                     regs: map<nat, u32>)
    requires Relinked(AArch32, x, infos, st, jobs, end) && KeepsRegions(AArch32, infos, st.mem, jobs, end.mem, now)
    requires k < |jobs| && 12 in regs && FileCall32(x, infos, jobs[k]) && jobs[k].symbol.Some?
    ensures var w := FileWord(x.headers[jobs[k].sec], jobs[k].offset);
      var A := if jobs[k].implicit then Isa32.Signed24(Isa32.Imm24(w)) * 4 else jobs[k].addend;
      Reaches32(now, U32(PlaceOf(AArch32, infos[jobs[k].sec], jobs[k])), w, U32(jobs[k].symbol.value.addr + A + 8),
                regs, 4)
  {
    hide Fresh, RunsTo, FromFile, KeepsRegions, PlaceOf, FileWord, U32, Calls32.CallSite, Calls32.CallArrives, IsFar,
         Reaches32, Read, Isa32.IsBranch, Calls32.WordAt, Isa32.Signed24, Isa32.Imm24;
    CallSite32(x, infos, st, jobs, end, k);
    CallsStillArrive32(infos, st, jobs, end, now, k, regs);
    ArrivesReaches32(infos[jobs[k].sec], st.mem, now, jobs[k], regs);
  }

  lemma CallReaches32(x: Input, g: map<u64, nat>, system: System, m: Mem, now: Mem, h: nat, q: nat, e: ElfSym,
                      regs: map<nat, u32>)
    requires IsLinkedIn(AArch32, x, g, system, m, now) && 12 in regs
    requires |x.answers| == |x.headers| && IsRelocation(x, h, q) && NamesSymbol(x, h, q, e)
    requires var rel := x.headers[h].rels[q];
      && Arm.IsCall(rel.rtype) && rel.offset % 4 == 0 && IsFromFile(x.headers[x.headers[h].info])
      && Isa32.IsBranch(WordIn(x, h, q))
      && (AddressFor(AArch32, x, g, system, e) + (if x.headers[h].shType == SHT_REL then 0 else rel.addend)) % 4 == 0
    ensures Reaches32(now, U32(PlaceIn(AArch32, x, h, q)), WordIn(x, h, q),
                      U32(AddressFor(AArch32, x, g, system, e) + CallAddend32(x, h, q) + 8), regs, 4)
  {
    hide IsLinkedIn, InfosFor, Relinked, KeepsRegions, JobsFor, FilledFor, AddressFor, TargetsIn, ViewFor, LinkedState,
         FileWord, GotReady, GotSafe, GotGiven, U32, Isa32.IsBranch, Reaches32, SlotFor, HeaderSyms, Addr, InMemory,
         WellFormed, Resolves, SameClaims, Loads, IsFromFile, IsZeroed, Isa32.Signed24, Isa32.Imm24;
    LinkedWords(AArch32, x, g, system, m, now, e);
    LinkedRegions(AArch32, x, g, system, m, now);
    var k := EveryRelocationRuns(AArch32, x, g, system, h, q);
    JobSymbol(AArch32, x, g, system, h, q, e);
    JobReaches32(x, InfosFor(AArch32, x), StartFor(x, FilledFor(AArch32, x, g, system, m)),
                 JobsFor(AArch32, x, g, system),
                 LinkedState(AArch32, x, g, system, m), now, k, regs);
  }

  // ---- the GOT ----

  lemma ReadSame(m: Mem, r: Mem, a: int, n: nat)
    requires Mapped(m, a, n) && SameOn(m, r, a, n)
    ensures Mapped(r, a, n) && Read(r, a, n) == Read(m, a, n)
  {
    LoadSame(m, r, a, n);
  }

  lemma ReadyElsewhere(arch: Arch, x: Input, g: map<u64, nat>, system: System, m: Mem, r: Mem)
    requires |x.answers| == |x.headers| && GotReady(arch, x, g, system, m) && SameClaims(arch, x, m, r)
    requires GotGiven(arch, x, GotStart(x), GotBytes(arch, x))
    ensures GotReady(arch, x, g, system, r)
  {
    hide HeaderSyms, AddressFor, SlotFor, Read, WordSize, AddressLimit, GotGiven, Claims, GotStart, GotBytes;
    var es := HeaderSyms(x.headers);
    forall p | 0 <= p < |es| && NeedSlot(es[p])
      ensures SlotReady(arch, r, SlotFor(arch, x, p), AddressFor(arch, x, g, system, es[p]))
    {
      var s := SlotFor(arch, x, p);
      assert SlotReady(arch, m, s, AddressFor(arch, x, g, system, es[p]));
      SlotWithin(arch, x, GotStart(x), GotBytes(arch, x), p);
      forall a | s <= a < s + WordSize(arch) ensures (a in m <==> a in r) && (a in m ==> m[a] == r[a]) {
        GotClaimed(arch, x, GotStart(x), GotBytes(arch, x), a);
        assert Same(m, r, a);
      }
      ReadSame(m, r, s, WordSize(arch));
    }
  }

  // The GOT of a linked object stays in order, whatever becomes of the pages of others.
  lemma GotStandsReady(arch: Arch, x: Input, g: map<u64, nat>, system: System, m: Mem, now: Mem)
    requires IsLinkedIn(arch, x, g, system, m, now)
    ensures |x.answers| == |x.headers| && GotReady(arch, x, g, system, now)
  {
    assert |x.answers| == |x.headers|;
    LinkedRegions(arch, x, g, system, m, now);
    hide InMemory, WellFormed, Resolves, SameClaims, WordsOnly, SystemWords, JobsFor, InfosFor, LinkedState, Fresh,
         RunsTo, FromFile, GotSafe, GotReady, GotGiven, GotBytes, GotStart, TargetsIn, FilledFor, KeepsRegions,
         NumberOfStubs, StubBudget;
    var end := LinkedState(arch, x, g, system, m);
    GotStaysReady(arch, x, g, system, InfosFor(arch, x), StartFor(x, FilledFor(arch, x, g, system, m)),
                  JobsFor(arch, x, g, system),
                  end, GotStart(x), GotBytes(arch, x));
    ReadyElsewhere(arch, x, g, system, end.mem, now);
  }

  lemma JobGotUse(x: Input, g: map<u64, nat>, system: System, h: nat, q: nat, e: ElfSym, t: nat)
    requires |x.answers| == |x.headers| && IsRelocation(x, h, q) && NamesSymbol(x, h, q, e)
    requires x.headers[h].rels[q].rtype == t && x.headers[h].rels[q].addend == 0
    requires IsFromFile(x.headers[x.headers[h].info])
    ensures PositionOf(x, h, q) < |HeaderSyms(x.headers)| && HeaderSyms(x.headers)[PositionOf(x, h, q)] == e
    ensures GotUse(x, InfosFor(AArch64, x), FileJob(AArch64, x, g, system, h, q), t,
                   ViewAt(AArch64, x, g, system, PositionOf(x, h, q)))
  {
    hide InfosFor, HeaderSyms, ViewFor, AddressFor, SlotFor, IsFromFile, IsZeroed;
    InfoKinds(AArch64, x, x.headers[h].info);
    JobSymbol(AArch64, x, g, system, h, q, e);
  }

  // An ADRP and a 64-bit LDR of the file, at any two places, relocated to the GOT slot of the same symbol: in any
  // memory that keeps the object's pages, one run on the registers of the other, they load the address of the symbol.
  lemma GotReaches64(x: Input, g: map<u64, nat>, system: System, m: Mem, now: Mem, a: nat, b: nat, c: nat, f: nat,
                     e: ElfSym,
                     d: nat, n: nat, regs: map<nat, u64>)
    requires IsLinkedIn(AArch64, x, g, system, m, now) && NeedSlot(e)
    requires |x.answers| == |x.headers| && IsRelocation(x, a, b) && IsRelocation(x, c, f)
    requires NamesSymbol(x, a, b, e) && NamesSymbol(x, c, f, e) && PositionOf(x, a, b) == PositionOf(x, c, f)
    requires x.headers[a].rels[b].rtype == Arm64.ADR_GOT_PAGE && x.headers[a].rels[b].addend == 0
    requires x.headers[c].rels[f].rtype == Arm64.LD64_GOT_LO12_NC && x.headers[c].rels[f].addend == 0
    requires IsFromFile(x.headers[x.headers[a].info])
    requires IsFromFile(x.headers[x.headers[c].info])
    requires Isa64.IsAdrp(WordIn(x, a, b)) && Isa64.Rd(WordIn(x, a, b)) == n != 31
    requires Isa64.IsLdr64(WordIn(x, c, f)) && Isa64.Rd(WordIn(x, c, f)) == d != 31 && Isa64.Rn(WordIn(x, c, f)) == n
    ensures AddressFor(AArch64, x, g, system, e) < 0x1_0000_0000_0000_0000
    ensures exists y ::
      && Pages64.Steps(now, PlaceIn(AArch64, x, a, b), regs, y)
      && Pages64.Steps(now, PlaceIn(AArch64, x, c, f), y, y[d := AddressFor(AArch64, x, g, system, e)])
  {
    hide IsLinkedIn, InfosFor, Relinked, KeepsRegions, JobsFor, FilledFor, AddressFor, TargetsIn, ViewFor, LinkedState,
         FileWord, GotReady, GotSafe, GotGiven, Isa64.IsAdrp, Isa64.Rd, Isa64.Rn, Isa64.IsLdr64, SlotFor, HeaderSyms,
         Addr, InMemory, WellFormed, Resolves, SameClaims, Loads, IsFromFile, IsZeroed, GotUse, Pages64.Steps;
    LinkedRegions(AArch64, x, g, system, m, now);
    GotStandsReady(AArch64, x, g, system, m, now);
    var i := EveryRelocationRuns(AArch64, x, g, system, a, b);
    var k := EveryRelocationRuns(AArch64, x, g, system, c, f);
    JobGotUse(x, g, system, a, b, e, Arm64.ADR_GOT_PAGE);
    JobGotUse(x, g, system, c, f, e, Arm64.LD64_GOT_LO12_NC);
    var infos, jobs := InfosFor(AArch64, x), JobsFor(AArch64, x, g, system);
    assert PlaceOf(AArch64, infos[jobs[i].sec], jobs[i]) == PlaceIn(AArch64, x, a, b);
    assert PlaceOf(AArch64, infos[jobs[k].sec], jobs[k]) == PlaceIn(AArch64, x, c, f);
    GotLoads64(x, g, system, infos, StartFor(x, FilledFor(AArch64, x, g, system, m)), jobs,
               LinkedState(AArch64, x, g, system, m), now, PositionOf(x, a, b), i, k, d, n, regs);
    var y :| Pages64.Steps(now, PlaceOf(AArch64, infos[jobs[i].sec], jobs[i]), regs, y)
      && Pages64.Steps(now, PlaceOf(AArch64, infos[jobs[k].sec], jobs[k]), y,
                       y[d := AddressFor(AArch64, x, g, system, e)]);
    assert Pages64.Steps(now, PlaceIn(AArch64, x, a, b), regs, y);
  }

  // On arm a GOT_PREL word of the file leads to the slot of its symbol plus the addend, and the slot holds the address
  // of the symbol.
  lemma GotReaches32(x: Input, g: map<u64, nat>, system: System, m: Mem, now: Mem, h: nat, q: nat, e: ElfSym)
    requires IsLinkedIn(AArch32, x, g, system, m, now) && NeedSlot(e)
    requires |x.answers| == |x.headers| && IsRelocation(x, h, q) && NamesSymbol(x, h, q, e)
    requires x.headers[h].rels[q].rtype == Arm.GOT_PREL && IsFromFile(x.headers[x.headers[h].info])
    ensures PositionOf(x, h, q) < |HeaderSyms(x.headers)|
    ensures var P, slot := PlaceIn(AArch32, x, h, q), SlotFor(AArch32, x, PositionOf(x, h, q));
      var A := if x.headers[h].shType == SHT_REL then S32(WordIn(x, h, q)) else x.headers[h].rels[q].addend;
      && Mapped(now, P, 4) && U32(P + Read(now, P, 4)) == U32(slot + A)
      && Mapped(now, slot, 4) && Read(now, slot, 4) == AddressFor(AArch32, x, g, system, e)
  {
    hide IsLinkedIn, InfosFor, Relinked, KeepsRegions, JobsFor, FilledFor, AddressFor, TargetsIn, ViewFor, LinkedState,
         FileWord, GotReady, GotSafe, GotGiven, SlotFor, HeaderSyms, Addr, InMemory, WellFormed, Resolves, SameClaims,
         Loads, U32, S32, Read;
    LinkedRegions(AArch32, x, g, system, m, now);
    GotStandsReady(AArch32, x, g, system, m, now);
    var k := EveryRelocationRuns(AArch32, x, g, system, h, q);
    JobSymbol(AArch32, x, g, system, h, q, e);
    var infos, jobs := InfosFor(AArch32, x), JobsFor(AArch32, x, g, system);
    var st := StartFor(x, FilledFor(AArch32, x, g, system, m));
    GotLeads32(x, g, system, infos, st, jobs, LinkedState(AArch32, x, g, system, m), now, PositionOf(x, h, q), k);
    WordOfFile32(x, infos, st, jobs, LinkedState(AArch32, x, g, system, m), k);
  }

  lemma WordOfFile32(x: Input, infos: seq<SectionInfo>, st: State, jobs: seq<Job>, end: State, k: nat)
    requires Relinked(AArch32, x, infos, st, jobs, end) && k < |jobs| && jobs[k].rtype == Arm.GOT_PREL
    requires jobs[k].sec < |infos| == |x.headers| && IsImage(infos[jobs[k].sec].kind)
    ensures Calls32.WordAt(infos[jobs[k].sec], st.mem, jobs[k]) == FileWord(x.headers[jobs[k].sec], jobs[k].offset)
  {
    hide Relinked, PlaceOf, Read, FileWord;
    PlaceThere(AArch32, x, infos, st, jobs, end, k);
  }

  // ---- data ----

  // A data word of the file reads as the address of its symbol plus the addend, or leads there from its place.
  lemma DataReaches64(x: Input, g: map<u64, nat>, system: System, m: Mem, now: Mem, h: nat, q: nat, e: ElfSym)
    requires IsLinkedIn(AArch64, x, g, system, m, now)
    requires |x.answers| == |x.headers| && IsRelocation(x, h, q) && NamesSymbol(x, h, q, e)
    requires DataWords.IsAbsolute64(x.headers[h].rels[q].rtype) || DataWords.IsRelative64(x.headers[h].rels[q].rtype)
    ensures var P, rel := PlaceIn(AArch64, x, h, q), x.headers[h].rels[q];
      var n, goal := Width(AArch64, rel.rtype), AddressFor(AArch64, x, g, system, e) + rel.addend;
      && Mapped(now, P, n)
      && (DataWords.IsAbsolute64(rel.rtype) ==> DataWords.SignedIn(n, Read(now, P, n)) == S64(goal))
      && (DataWords.IsRelative64(rel.rtype) ==> U64(P + DataWords.SignedIn(n, Read(now, P, n))) == U64(goal))
  {
    hide IsLinkedIn, InfosFor, Relinked, KeepsRegions, JobsFor, FilledFor, AddressFor, TargetsIn, ViewFor, LinkedState,
         GotReady, GotSafe, GotGiven, SlotFor, HeaderSyms, Addr, InMemory, WellFormed, Resolves, SameClaims, Loads,
         IsFromFile, IsZeroed, U64, S64, Read, DataWords.SignedIn, Width;
    LinkedWords(AArch64, x, g, system, m, now, e);
    LinkedRegions(AArch64, x, g, system, m, now);
    var k := EveryRelocationRuns(AArch64, x, g, system, h, q);
    JobSymbol(AArch64, x, g, system, h, q, e);
    JobData64(x, InfosFor(AArch64, x), StartFor(x, FilledFor(AArch64, x, g, system, m)), JobsFor(AArch64, x, g, system),
              LinkedState(AArch64, x, g, system, m), now, k);
  }

  lemma JobData64(x: Input, infos: seq<SectionInfo>, st: State, jobs: seq<Job>, end: State, now: Mem, k: nat)
    requires Relinked(AArch64, x, infos, st, jobs, end) && KeepsRegions(AArch64, infos, st.mem, jobs, end.mem, now)
    requires k < |jobs| && jobs[k].sec < |infos| && jobs[k].symbol.Some?
    requires jobs[k].symbol.value.addr < 0x1_0000_0000_0000_0000
    requires DataWords.IsAbsolute64(jobs[k].rtype) || DataWords.IsRelative64(jobs[k].rtype)
    ensures var j := jobs[k];
      var P, n, goal := PlaceOf(AArch64, infos[j.sec], j), Width(AArch64, j.rtype), j.symbol.value.addr + j.addend;
      && Mapped(now, P, n)
      && (DataWords.IsAbsolute64(j.rtype) ==> DataWords.SignedIn(n, Read(now, P, n)) == S64(goal))
      && (DataWords.IsRelative64(j.rtype) ==> U64(P + DataWords.SignedIn(n, Read(now, P, n))) == U64(goal))
  {
    hide Fresh, RunsTo, FromFile, KeepsRegions, PlaceOf, Read, PlanOf, Width, DataWords.SignedIn, S64, U64, Placed,
         TableOk, Region, FarTargets;
    JobRan(AArch64, x, infos, st, jobs, end, k);
    StillThere(AArch64, infos, st, jobs, end, now, k);
    DataWords.DataPlaced64(infos[jobs[k].sec], st.mem, Table(now, end.tables[jobs[k].sec]), jobs[k]);
  }

  // Slots are at words.
  lemma SlotIsWord(arch: Arch, x: Input, g: map<u64, nat>, system: System, now: Mem, p: nat)
    requires |x.answers| == |x.headers| && GotReady(arch, x, g, system, now) && p < |HeaderSyms(x.headers)|
    ensures SlotFor(arch, x, p) < AddressLimit(arch)
  {
    hide HeaderSyms, AddressFor, Slots, Read, WordSize;
    if NeedSlot(HeaderSyms(x.headers)[p]) {
      assert SlotReady(arch, now, SlotFor(arch, x, p), AddressFor(arch, x, g, system, HeaderSyms(x.headers)[p]));
    }
  }

  // The same for arm: ABS32, REL32 and PREL31 as whole words, with the addend of the relocation or the one in the file
  lemma DataReaches32(x: Input, g: map<u64, nat>, system: System, m: Mem, now: Mem, h: nat, q: nat, e: ElfSym)
    requires IsLinkedIn(AArch32, x, g, system, m, now)
    requires |x.answers| == |x.headers| && IsRelocation(x, h, q) && NamesSymbol(x, h, q, e)
    requires x.headers[h].rels[q].rtype == 0x02 || x.headers[h].rels[q].rtype == 0x03 || x.headers[h].rels[q].rtype
      == 0x2a
    requires IsFromFile(x.headers[x.headers[h].info])
    ensures var P, rel := PlaceIn(AArch32, x, h, q), x.headers[h].rels[q];
      var A := if x.headers[h].shType == SHT_REL then S32(WordIn(x, h, q)) else rel.addend;
      var goal := AddressFor(AArch32, x, g, system, e) + A;
      && Mapped(now, P, 4)
      && (rel.rtype == 0x02 ==> Read(now, P, 4) == U32(goal))
      && (rel.rtype != 0x02 ==> U32(P + Read(now, P, 4)) == U32(goal))
  {
    hide IsLinkedIn, InfosFor, Relinked, KeepsRegions, JobsFor, FilledFor, AddressFor, TargetsIn, ViewFor, LinkedState,
         FileWord, GotReady, GotSafe, GotGiven, SlotFor, HeaderSyms, Addr, InMemory, WellFormed, Resolves, SameClaims,
         Loads, IsFromFile, IsZeroed, U32, S32, Read;
    LinkedWords(AArch32, x, g, system, m, now, e);
    LinkedRegions(AArch32, x, g, system, m, now);
    GotStandsReady(AArch32, x, g, system, m, now);
    var k := EveryRelocationRuns(AArch32, x, g, system, h, q);
    JobSymbol(AArch32, x, g, system, h, q, e);
    SlotIsWord(AArch32, x, g, system, now, PositionOf(x, h, q));
    var infos, jobs := InfosFor(AArch32, x), JobsFor(AArch32, x, g, system);
    JobData32(x, infos, StartFor(x, FilledFor(AArch32, x, g, system, m)), jobs, LinkedState(AArch32, x, g, system, m),
              now, k);
  }

  lemma JobData32(x: Input, infos: seq<SectionInfo>, st: State, jobs: seq<Job>, end: State, now: Mem, k: nat)
    requires Relinked(AArch32, x, infos, st, jobs, end) && KeepsRegions(AArch32, infos, st.mem, jobs, end.mem, now)
    requires k < |jobs| && jobs[k].sec < |infos| == |x.headers| && IsImage(infos[jobs[k].sec].kind)
    requires (jobs[k].rtype == 0x02 || DataWords.IsRelative32(jobs[k].rtype)) && DataWords.DataSite32(jobs[k])
    ensures var j := jobs[k];
      var P, w := PlaceOf(AArch32, infos[j.sec], j), FileWord(x.headers[j.sec], j.offset);
      var goal := j.symbol.value.addr + (if j.implicit then S32(w) else j.addend);
      && Mapped(now, P, 4)
      && (j.rtype == 0x02 ==> Read(now, P, 4) == U32(goal))
      && (j.rtype != 0x02 ==> U32(P + Read(now, P, 4)) == U32(goal))
  {
    hide Fresh, RunsTo, FromFile, KeepsRegions, PlaceOf, Read, PlanOf, FileWord, S32, U32, Placed, TableOk, Region,
         FarTargets;
    PlaceThere(AArch32, x, infos, st, jobs, end, k);
    StillThere(AArch32, infos, st, jobs, end, now, k);
    DataWords.DataPlaced32(infos[jobs[k].sec], st.mem, Table(now, end.tables[jobs[k].sec]), jobs[k]);
  }

  // ---- between files ----

  // A symbol that the object itself exports has its own address there.
  lemma OwnExport(arch: Arch, x: Input, g: map<u64, nat>, system: System, d: ElfSym)
    requires |x.answers| == |x.headers| && IsExport(arch, InfosFor(arch, x), d)
    ensures AddressFor(arch, x, g, system, d) == ExportAddressOf(arch, x, d)
  {
    hide InfosFor, Addr, KnuthHash;
  }

  // Calls from one file to a symbol that another one exports: after a list of files has been linked they reach the
  // symbol's definition there.
  lemma CallReachesOther64(xs: seq<Input>, g0: map<u64, nat>, g: map<u64, nat>, system: System, m: Mem, now: Mem,
                           i: nat, h: nat, q: nat, e: ElfSym, k: nat, d: ElfSym, regs: map<nat, u64>)
    requires AnswersComplete(xs) && OutcomeAll(AArch64, xs, g0) == Ok(g) && i < |xs| && k < |xs|
    requires IsLinkedIn(AArch64, xs[i], g, system, m, now) && 16 in regs
    requires IsRelocation(xs[i], h, q) && NamesSymbol(xs[i], h, q, e) && IsImport(e) && e.name.Some?
    requires d in HeaderSyms(xs[k].headers) && IsExport(AArch64, InfosFor(AArch64, xs[k]), d) && d.name == e.name
    requires var rel := xs[i].headers[h].rels[q];
      && Arm64.IsBranch(rel.rtype) && rel.offset % 4 == 0 && rel.addend == 0
      && IsFromFile(xs[i].headers[xs[i].headers[h].info])
      && Calls64.IsCallWord(WordIn(xs[i], h, q)) && ExportAddressOf(AArch64, xs[k], d) % 4 == 0
    ensures Reaches64(now, PlaceIn(AArch64, xs[i], h, q), WordIn(xs[i], h, q), ExportAddressOf(AArch64, xs[k], d), regs,
                      6)
  {
    hide IsLinkedIn, InfosFor, AddressFor, OutcomeAll, NamesSymbol, FileWord, HeaderSyms, IsImport, IsExport,
         Calls64.IsCallWord, Reaches64;
    ImportFindsExport(AArch64, xs, g0, g, system, i, e, k, d);
    CallReaches64(xs[i], g, system, m, now, h, q, e, regs);
  }

  lemma CallReachesOther32(xs: seq<Input>, g0: map<u64, nat>, g: map<u64, nat>, system: System, m: Mem, now: Mem,
                           i: nat, h: nat, q: nat, e: ElfSym, k: nat, d: ElfSym, regs: map<nat, u32>)
    requires AnswersComplete(xs) && OutcomeAll(AArch32, xs, g0) == Ok(g) && i < |xs| && k < |xs|
    requires IsLinkedIn(AArch32, xs[i], g, system, m, now) && 12 in regs
    requires IsRelocation(xs[i], h, q) && NamesSymbol(xs[i], h, q, e) && IsImport(e) && e.name.Some?
    requires d in HeaderSyms(xs[k].headers) && IsExport(AArch32, InfosFor(AArch32, xs[k]), d) && d.name == e.name
    requires var rel := xs[i].headers[h].rels[q];
      && Arm.IsCall(rel.rtype) && rel.offset % 4 == 0 && IsFromFile(xs[i].headers[xs[i].headers[h].info])
      && Isa32.IsBranch(WordIn(xs[i], h, q))
      && (ExportAddressOf(AArch32, xs[k], d) + (if xs[i].headers[h].shType == SHT_REL then 0 else rel.addend)) % 4 == 0
    ensures Reaches32(now, U32(PlaceIn(AArch32, xs[i], h, q)), WordIn(xs[i], h, q),
                      U32(ExportAddressOf(AArch32, xs[k], d) + CallAddend32(xs[i], h, q) + 8), regs, 4)
  {
    hide IsLinkedIn, InfosFor, AddressFor, OutcomeAll, NamesSymbol, FileWord, HeaderSyms, IsImport, IsExport,
         Isa32.IsBranch, Reaches32, CallAddend32;
    ImportFindsExport(AArch32, xs, g0, g, system, i, e, k, d);
    CallReaches32(xs[i], g, system, m, now, h, q, e, regs);
  }

  // ---- inside a file ----

  // the address that a section's start and a symbol's value give, as a number
  function DefinedAt(arch: Arch, x: Input, e: ElfSym): int
    requires |x.answers| == |x.headers| && e.shndx < |x.headers|
  {
    InfosFor(arch, x)[e.shndx].start + e.value
  }

  lemma WrapTwice64(a: int, b: int)
    ensures U64(U64(a) + b) == U64(a + b)
  {
    var q := a / 0x1_0000_0000_0000_0000;
    assert a == q * 0x1_0000_0000_0000_0000 + U64(a);
    hide U64;
    U64Shift(U64(a) + b, q);
  }

  lemma WrapTwice32(a: int, b: int)
    ensures U32(U32(a) + b) == U32(a + b)
  {
    var q := U32Congruent(a);
    hide U32;
    U32Shift(U32(a) + b, q);
  }

  // A call to a symbol that the file itself defines, static functions included, reaches section start + value + addend.
  lemma CallReachesOwn64(x: Input, g: map<u64, nat>, system: System, m: Mem, now: Mem, h: nat, q: nat, e: ElfSym,
                         regs: map<nat, u64>)
    requires IsLinkedIn(AArch64, x, g, system, m, now) && 16 in regs
    requires |x.answers| == |x.headers| && IsRelocation(x, h, q) && NamesSymbol(x, h, q, e)
    requires IsDefined(e) && e.shndx < |x.headers| && U64(DefinedAt(AArch64, x, e)) != 0
    requires var rel := x.headers[h].rels[q];
      && Arm64.IsBranch(rel.rtype) && rel.offset % 4 == 0 && IsFromFile(x.headers[x.headers[h].info])
      && Calls64.IsCallWord(WordIn(x, h, q)) && (DefinedAt(AArch64, x, e) + rel.addend) % 4 == 0
      && (rel.addend == 0 || IsInt64(28, S64(U64(DefinedAt(AArch64, x, e)) + rel.addend - PlaceIn(AArch64, x, h, q))))
    ensures Reaches64(now, PlaceIn(AArch64, x, h, q), WordIn(x, h, q),
                      U64(DefinedAt(AArch64, x, e) + x.headers[h].rels[q].addend), regs, 6)
  {
    hide IsLinkedIn, InfosFor, AddressFor, NamesSymbol, FileWord, IsDefined, Calls64.IsCallWord, Reaches64, IsFromFile,
         IsZeroed, S64, IsInt64;
    DefinedAddress(AArch64, x, g, system, e);
    WrapTwice64(DefinedAt(AArch64, x, e), x.headers[h].rels[q].addend);
    CallReaches64(x, g, system, m, now, h, q, e, regs);
  }

  lemma CallReachesOwn32(x: Input, g: map<u64, nat>, system: System, m: Mem, now: Mem, h: nat, q: nat, e: ElfSym,
                         regs: map<nat, u32>)
    requires IsLinkedIn(AArch32, x, g, system, m, now) && 12 in regs
    requires |x.answers| == |x.headers| && IsRelocation(x, h, q) && NamesSymbol(x, h, q, e)
    requires IsDefined(e) && e.shndx < |x.headers| && U32(DefinedAt(AArch32, x, e)) != 0
    requires var rel := x.headers[h].rels[q];
      && Arm.IsCall(rel.rtype) && rel.offset % 4 == 0 && IsFromFile(x.headers[x.headers[h].info])
      && Isa32.IsBranch(WordIn(x, h, q))
      && (DefinedAt(AArch32, x, e) + (if x.headers[h].shType == SHT_REL then 0 else rel.addend)) % 4 == 0
    ensures Reaches32(now, U32(PlaceIn(AArch32, x, h, q)), WordIn(x, h, q),
                      U32(DefinedAt(AArch32, x, e) + CallAddend32(x, h, q) + 8), regs, 4)
  {
    hide IsLinkedIn, InfosFor, AddressFor, NamesSymbol, FileWord, IsDefined, Isa32.IsBranch, Reaches32, IsFromFile,
         IsZeroed, CallAddend32;
    DefinedAddress(AArch32, x, g, system, e);
    WrapTwice32(DefinedAt(AArch32, x, e), CallAddend32(x, h, q) + 8);
    CallReaches32(x, g, system, m, now, h, q, e, regs);
  }

  // Data words for such a symbol read as section start + value + addend, or lead there.
  lemma DataReachesOwn64(x: Input, g: map<u64, nat>, system: System, m: Mem, now: Mem, h: nat, q: nat, e: ElfSym)
    requires IsLinkedIn(AArch64, x, g, system, m, now)
    requires |x.answers| == |x.headers| && IsRelocation(x, h, q) && NamesSymbol(x, h, q, e)
    requires IsDefined(e) && e.shndx < |x.headers| && U64(DefinedAt(AArch64, x, e)) != 0
    requires 0x101 <= x.headers[h].rels[q].rtype <= 0x106
    ensures var P, t := PlaceIn(AArch64, x, h, q), x.headers[h].rels[q].rtype;
      var n := if t == 0x101 || t == 0x104 then 8 else if t == 0x102 || t == 0x105 then 4 else 2;
      var goal := U64(DefinedAt(AArch64, x, e)) + x.headers[h].rels[q].addend;
      && Mapped(now, P, n)
      && (t <= 0x103 ==> DataWords.SignedIn(n, Read(now, P, n)) == S64(goal))
      && (0x104 <= t ==> U64(P + DataWords.SignedIn(n, Read(now, P, n))) == U64(goal))
  {
    hide IsLinkedIn, InfosFor, AddressFor, NamesSymbol, IsDefined, IsFromFile, IsZeroed, S64, DataWords.SignedIn, Read;
    DefinedAddress(AArch64, x, g, system, e);
    DataReaches64(x, g, system, m, now, h, q, e);
  }
}
