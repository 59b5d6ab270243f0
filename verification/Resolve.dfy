// Elf.c's resolveObject: fill the GOT, verify it, relocate; and what instructions then load through the GOT.
module Resolve {
  import opened Bits
  import opened Hash
  import opened Memory
  import opened Results
  import opened Types
  import opened Words
  import opened Target
  import opened Plt
  import opened Pass
  import opened Runs
  import opened Budget
  import opened Isa64
  import opened Pages64
  import opened Sections
  import opened Objects
  import opened Linker
  import opened Got
  import opened GotFill

  // ---- a GOT that was laid out is sound ----

  lemma ApartWhenLaidOut(arch: Arch, l: Linker, system: System, ss: seq<ElfSymbol>, start: nat, p: nat, q: nat)
    requires LaidOut(ss, start, WordSize(arch), 0) && p < q < |ss|
    ensures ApartEntries(arch, EntryOf(l, system, ss[p]), EntryOf(l, system, ss[q]))
  {
    hide LaidOut, Needed, KnuthHash;
    if NeedSlot(ss[p].elf) && NeedSlot(ss[q].elf) {
      SlotsApart(ss, start, WordSize(arch), p, q);
    }
  }

  lemma SoundWhenLaidOut(arch: Arch, l: Linker, system: System, ss: seq<ElfSymbol>, start: nat)
    requires LaidOut(ss, start, WordSize(arch), 0)
    requires forall s :: s in ss ==> EntryOf(l, system, s).want < Pow2(8 * WordSize(arch))
    ensures Sound(arch, EntriesOf(l, system, ss))
  {
    hide LaidOut, EntryOf, ApartEntries, Pow2;
    var es := EntriesOf(l, system, ss);
    forall p, q | 0 <= p < q < |es| ensures ApartEntries(arch, es[p], es[q]) {
      ApartWhenLaidOut(arch, l, system, ss, start, p, q);
    }
  }

  // ---- resolveObject ----

  ghost predicate Stops(arch: Arch, secs: seq<SectionInfo>, st: State, jobs: seq<Job>)
  {
    Fits(secs, st, jobs) && Pass.Run(arch, secs, st, jobs).Abort?
  }

  // The object fails to resolve if a symbol is not found, if an address has more than 48 bits, or if a relocation
  // fails.
  method ResolveObject(arch: Arch, l: Linker, system: System, mem: Ram, secs: seq<Section>,
                       tabs: seq<SymbolTable>, ghost flat: seq<ElfSymbol>, rel: seq<RelTable>, rela: seq<RelTable>)
    returns (ok: bool, ghost filled: Mem)
    requires l.Valid() && l.Defined() && flat == Flat(tabs) && Distinct(flat) && Sound(arch, EntriesOf(l, system, flat))
    requires SectionsValid(secs) && TargetsExist(InfosOf(secs), rel) && TargetsExist(InfosOf(secs), rela)
    modifies mem, secs, flat`addr
    ensures l.Valid() && l.Defined()
    ensures ok ==> AllFillable(arch, old(mem.cells), old(EntriesOf(l, system, flat)))
    ensures AllFillable(arch, old(mem.cells), old(EntriesOf(l, system, flat))) ==>
      filled == FillAll(arch, old(mem.cells), old(EntriesOf(l, system, flat)))
      && Complete(arch, filled, flat, old(EntriesOf(l, system, flat)), old(AddrsOf(flat)))
    ensures AllFillable(arch, old(mem.cells), old(EntriesOf(l, system, flat))) && !ok ==>
      !AllVerified(arch, filled, flat)
      || Stops(arch, InfosOf(secs), State(filled, old(StubsOf(secs))), AllJobs(tabs, InfosOf(secs), rel, rela))
    ensures ok ==> AllVerified(arch, filled, flat)
    ensures ok ==>
      RunsTo(arch, InfosOf(secs), State(filled, old(StubsOf(secs))), AllJobs(tabs, InfosOf(secs), rel, rela),
             StateOf(mem, secs))
  {
    hide RunsTo, Stops, Complete, AllVerified, AllFillable, FillAll, EntriesOf, AddrsOf, Distinct, Sound, Flat, AllJobs,
         StateOf;
    filled := mem.cells;
    ok := FillGot(arch, l, system, mem, tabs, flat);
    if !ok {
      return;
    }
    filled := mem.cells;
    ok := VerifyGot(arch, mem, tabs);
    if !ok {
      return;
    }
    ok := Relocation(arch, mem, secs, tabs, flat, rel, rela);
  }

  method Relocation(arch: Arch, mem: Ram, secs: seq<Section>, tabs: seq<SymbolTable>, ghost flat: seq<ElfSymbol>,
                    rel: seq<RelTable>, rela: seq<RelTable>)
    returns (ok: bool)
    requires flat == Flat(tabs)
    requires SectionsValid(secs) && TargetsExist(InfosOf(secs), rel) && TargetsExist(InfosOf(secs), rela)
    modifies mem, secs
    ensures ok ==>
      RunsTo(arch, InfosOf(secs), State(old(mem.cells), old(StubsOf(secs))), AllJobs(tabs, InfosOf(secs), rel, rela),
             StateOf(mem, secs))
    ensures !ok ==>
      Stops(arch, InfosOf(secs), State(old(mem.cells), old(StubsOf(secs))), AllJobs(tabs, InfosOf(secs), rel, rela))
  {
    ok := RelocateObjectCode(arch, mem, secs, tabs, rel, rela);
    SymbolsFlat(tabs);
    assert forall s :: s in flat ==> unchanged(s);
  }

  lemma {:induction false} SymbolsFlat(tabs: seq<SymbolTable>)
    ensures forall s :: s in SymbolsOf(tabs) <==> s in Flat(tabs)
  {
    if tabs != [] {
      var n := |tabs| - 1;
      SymbolsFlat(tabs[..n]);
      assert tabs == tabs[..n] + [tabs[n]];
    }
  }

  // ---- access through the GOT ----

  // ADRP for the page of the slot of s
  ghost predicate GotPageSite(sec: SectionInfo, m: Mem, j: Job, n: nat, s: SymbolView)
  {
    AdrpSite(sec, m, j, n) && j.rtype == Arm64.ADR_GOT_PAGE && j.addend == 0 && j.symbol == Some(s)
  }

  // LDR Xd, [Xn, #lo12] for the slot of s
  ghost predicate GotLoadSite(sec: SectionInfo, m: Mem, j: Job, d: nat, n: nat, s: SymbolView)
  {
    && LdStSite(sec, m, j, n) && j.rtype == Arm64.LD64_GOT_LO12_NC && j.addend == 0 && j.symbol == Some(s)
    && IsLdr64(WordAt(sec, m, j)) && Rd(WordAt(sec, m, j)) == d != 31
  }

  lemma SlotIsNamed(sec: SectionInfo, m: Mem, j: Job, s: SymbolView)
    requires Site(sec, m, j) && j.addend == 0 && j.symbol == Some(s)
    requires j.rtype == Arm64.ADR_GOT_PAGE || j.rtype == Arm64.LD64_GOT_LO12_NC
    ensures Named(j) == s.gotAddr
  {
  }

  // ADRP and LDR at places that the pass has done with, one run on the registers of the other, load what the slot
  // holds.
  lemma GotAccessThere(a: SectionInfo, b: SectionInfo, m0: Mem, ta: Table, tb: Table, ja: Job, jb: Job,
                       s: SymbolView, d: nat, n: nat, x: map<nat, u64>)
    requires GotPageSite(a, m0, ja, n, s) && Placed(AArch64, a, m0, ta, ja)
    requires GotLoadSite(b, m0, jb, d, n, s) && Placed(AArch64, b, m0, tb, jb)
    requires ta.mem == tb.mem && Mapped(ta.mem, s.gotAddr, 8) && Read(ta.mem, s.gotAddr, 8) == s.addr
    ensures exists y ::
      Steps(ta.mem, PlaceOf(AArch64, a, ja), x, y) && Steps(ta.mem, PlaceOf(AArch64, b, jb), y, y[d := s.addr])
  {
    hide Placed, AdrpSite, LdStSite, Site, WordAt, Steps, PlaceOf, PageOf, Read, IsLdr64, Rd, Named, Accesses;
    IsSite(a, m0, ja, n);
    IsLoadSite(b, m0, jb, n);
    SlotIsNamed(a, m0, ja, s);
    SlotIsNamed(b, m0, jb, s);
    AdrpRuns(a, m0, ta, ja, n, x);
    var y := x[n := PageOf(Named(ja))];
    LdStAccesses(b, m0, tb, jb, n);
    LdrAtEnd(b, m0, tb.mem, jb, d, n, y);
  }

  // When the pass is over, ADRP and LDR at any two places for a GOT slot that holds the address of its symbol, one run
  // on the registers of the other, load exactly that address.
  lemma GotAccess(secs: seq<SectionInfo>, st: State, jobs: seq<Job>, r: State, a: nat, b: nat,
                  s: SymbolView, d: nat, n: nat, x: map<nat, u64>)
    requires Fresh(AArch64, secs, st, jobs) && RunsTo(AArch64, secs, st, jobs, r)
    requires Mapped(st.mem, s.gotAddr, 8) && Read(st.mem, s.gotAddr, 8) == s.addr
    requires Beyond(AArch64, secs, st.mem, jobs, s.gotAddr, 8)
    requires a < |jobs| && jobs[a].sec < |secs| && b < |jobs| && jobs[b].sec < |secs|
    requires GotPageSite(secs[jobs[a].sec], st.mem, jobs[a], n, s)
    requires GotLoadSite(secs[jobs[b].sec], st.mem, jobs[b], d, n, s)
    ensures exists y ::
      && Steps(r.mem, PlaceOf(AArch64, secs[jobs[a].sec], jobs[a]), x, y)
      && Steps(r.mem, PlaceOf(AArch64, secs[jobs[b].sec], jobs[b]), y, y[d := s.addr])
  {
    hide Fresh, RunsTo, Beyond, GotPageSite, GotLoadSite, Steps, PlaceOf, Read, Placed, TableOk, Region, InSection,
         FarTargets;
    AtEnd(AArch64, secs, st, jobs, r, a);
    AtEnd(AArch64, secs, st, jobs, r, b);
    BeyondKept(AArch64, secs, st, jobs, r, s.gotAddr, 8);
    GotAccessThere(secs[jobs[a].sec], secs[jobs[b].sec], st.mem, Table(r.mem, r.tables[jobs[a].sec]),
                   Table(r.mem, r.tables[jobs[b].sec]), jobs[a], jobs[b], s, d, n, x);
  }

  lemma IsSite(sec: SectionInfo, m: Mem, j: Job, n: nat)
    requires AdrpSite(sec, m, j, n)
    ensures Site(sec, m, j)
  {
    hide Site;
  }

  lemma IsLoadSite(sec: SectionInfo, m: Mem, j: Job, n: nat)
    requires LdStSite(sec, m, j, n)
    ensures Site(sec, m, j)
  {
    hide Site;
  }

  // The assertion that the offset of a slot in its page is a multiple of 8 cannot fail: a place that holds a 64-bit
  // load is patched for any slot of any symbol.
  lemma SlotAlignmentHolds(ss: seq<ElfSymbol>, start: nat, p: nat, w: u32)
    requires LaidOut(ss, start, 8, 0) && start % PAGE == 0 && p < |ss| && NeedSlot(ss[p].elf)
    ensures var V := ss[p].gotAddr % 0x1000;
      V % 8 == 0 && (Arm64.ShiftOf(w) == 3 ==> Arm64.Encode(Arm64.LD64_GOT_LO12_NC, w, V).Ok?)
  {
    hide LaidOut, Needed, Arm64.ShiftOf, Arm64.PatchImm12;
    SlotInside(ss, start, 8, p);
    OffsetInPage(start, Needed(ss[..p]));
  }

  lemma OffsetInPage(start: nat, k: nat)
    requires start % PAGE == 0
    ensures (start + k * 8) % 0x1000 % 8 == 0
  {
    var q, r := start / PAGE + k / 512, k % 512;
    QuotRem(start + k * 8, 0x1000, q, r * 8);
  }
}
