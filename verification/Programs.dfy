// A loaded and relocated object in terms of its file: what the code in its sections then does.
module Programs {
  import opened Bits
  import opened Memory
  import opened Results
  import opened Types
  import opened Words
  import opened Target
  import opened Plt
  import opened Pass
  import opened Runs
  import opened Budget
  import opened Sections
  import opened Objects
  import opened Got
  import opened GotFill
  import opened Kinds
  import opened Loading
  import opened Room
  import opened Inputs
  import opened Linker
  import opened Addresses
  import opened Resolution
  import Isa32
  import Calls32
  import Calls64
  import Isa64
  import DataWords
  import Pages64

  // ---- memory that belongs to the object ----

  // The sections can be loaded, at aligned addresses below the limit, in pages of their own.
  ghost predicate Loads(arch: Arch, x: Input)
  {
    && |x.answers| == |x.headers|
    && (forall i :: 0 <= i < |x.headers| ==>
          Loadable(arch, x.headers[i], StubBudget(arch, RelOf(x), RelaOf(x), i), x.answers[i]))
    && (forall i :: 0 <= i < |x.headers| && x.answers[i].Some? ==>
          && x.answers[i].value % PAGE == 0
          && x.answers[i].value + PageUp(Asked(arch, x.headers, RelOf(x), RelaOf(x), i)) <= Limit(arch))
    && forall i, k :: 0 <= i < k < |x.headers| ==>
        RequestsApart(x.answers[i], Asked(arch, x.headers, RelOf(x), RelaOf(x), i),
                      x.answers[k], Asked(arch, x.headers, RelOf(x), RelaOf(x), k))
  }

  lemma AnswersThere(arch: Arch, x: Input)
    ensures Loads(arch, x) ==> |x.answers| == |x.headers|
  {
  }

  // The sections are in memory: the bytes of the file, and the pages with the space for stubs.
  ghost predicate Resident(arch: Arch, x: Input, m: Mem)
    requires |x.answers| == |x.headers|
  {
    forall i :: 0 <= i < |x.headers| ==>
      && Contains(x.headers[i], m, InfosFor(arch, x)[i])
      && HasPages(m, x.answers[i], Asked(arch, x.headers, RelOf(x), RelaOf(x), i))
  }

  // Relocations of loaded sections, as many that may need stubs as were counted before loading
  ghost predicate Counted(arch: Arch, x: Input, jobs: seq<Job>)
    requires |x.answers| == |x.headers|
  {
    CountedAs(arch, InfosFor(arch, x), Budgets(arch, RelOf(x), RelaOf(x), |x.headers|), jobs)
  }

  lemma InfoIsLoaded(arch: Arch, h: SectionHeader, image: nat, n: nat, answer: Option<nat>)
    requires SectionKindOf(h).Ok?
    ensures var info := InfoOf(arch, h, image, n, answer);
      LoadedAs(arch, h, image, n, answer, info, if IsImage(info.kind) then StubBytes(arch, n) else 0)
  {
    hide SectionKindOf, MapBytes;
  }

  lemma LoadedInPages(arch: Arch, x: Input)
    requires Loads(arch, x)
    ensures AllInPages(arch, InfosFor(arch, x), Budgets(arch, RelOf(x), RelaOf(x), |x.headers|),
                       Requests(arch, x.headers, RelOf(x), RelaOf(x)), x.answers)
  {
    hide StubBudget, LoadedAs, RequestsApart, InOwnPages, PageUp, MapBytes, InfoOf, SectionKindOf, RelOf, RelaOf;
    var infos := InfosFor(arch, x);
    forall i | 0 <= i < |infos| && Active(infos[i])
      ensures InOwnPages(arch, infos[i], StubBudget(arch, RelOf(x), RelaOf(x), i),
                         Asked(arch, x.headers, RelOf(x), RelaOf(x), i), x.answers[i])
    {
      var n := StubBudget(arch, RelOf(x), RelaOf(x), i);
      assert Loadable(arch, x.headers[i], n, x.answers[i]);
      InfoIsLoaded(arch, x.headers[i], x.image, n, x.answers[i]);
      OwnPagesWhenLoaded(arch, x.headers[i], x.image, n, x.answers[i], infos[i],
                         if IsImage(infos[i].kind) then StubBytes(arch, n) else 0);
    }
  }

  // Loading establishes everything that the pass and its results rest on, whatever memory holds by then.
  lemma LoadedIsFresh(arch: Arch, x: Input, jobs: seq<Job>, m: Mem, tables: seq<seq<Stub>>)
    requires Loads(arch, x) && Counted(arch, x, jobs)
    requires WellPlaced(arch, InfosFor(arch, x), jobs) && HasRoom(arch, InfosFor(arch, x), m, jobs)
    requires |tables| == |x.headers| && forall i :: 0 <= i < |tables| ==> tables[i] == []
    ensures Fresh(arch, InfosFor(arch, x), State(m, tables), jobs)
  {
    assert |x.answers| == |x.headers|;
    hide Loads, WellPlaced, HasRoom, AllInPages, InfosFor, RelOf, RelaOf, CountedAs, Fresh;
    LoadedInPages(arch, x);
    FreshWhenRoomy(arch, InfosFor(arch, x), Budgets(arch, RelOf(x), RelaOf(x), |x.headers|),
                   Requests(arch, x.headers, RelOf(x), RelaOf(x)), x.answers, jobs, m, tables);
  }

  // A relocated section and the stubs for its far targets lie in pages that loading asked for.
  lemma RegionClaimed(arch: Arch, x: Input, jobs: seq<Job>, m: Mem, i: nat, a: int)
    requires Loads(arch, x)
    requires Counted(arch, x, jobs)
    requires HasRoom(arch, InfosFor(arch, x), m, jobs)
    requires i < |x.headers| && Active(InfosFor(arch, x)[i])
    requires InfosFor(arch, x)[i].start <= a
      < End(arch, InfosFor(arch, x)[i], |FarTargets(arch, InfosFor(arch, x)[i], m, jobs, i)|)
    ensures InAnswer(arch, x.headers, RelOf(x), RelaOf(x), x.answers, i, a) && Claims(arch, x, a)
  {
    assert |x.answers| == |x.headers|;
    hide Loads, HasRoom, FarTargets, Roomy, StubBudget, RelOf, RelaOf, MapBytes, InOwnPages, End, PageUp, TargetsExist;
    var infos := InfosFor(arch, x);
    var ns, asked := Budgets(arch, RelOf(x), RelaOf(x), |x.headers|), Requests(arch, x.headers, RelOf(x), RelaOf(x));
    LoadedInPages(arch, x);
    RoomyWhenCounted(arch, infos, ns, jobs, m);
    var far := Far(arch, infos, m, jobs);
    assert far[i] == FarTargets(arch, infos[i], m, jobs, i);
    RegionWhenRoomy(arch, infos[i], ns[i], asked[i], x.answers[i], |far[i]|);
    StartIs(arch, infos[i], ns[i], asked[i], x.answers[i]);
  }

  lemma StartIs(arch: Arch, info: SectionInfo, n: nat, asked: nat, answer: Option<nat>)
    requires InOwnPages(arch, info, n, asked, answer)
    ensures if asked == 0 then info.start == 0 else answer.Some? && info.start == answer.value
  {
    hide PageUp;
  }

  // The addresses of a GOT
  predicate InTable(start: nat, size: nat, a: int) { start <= a < start + size }

  // Entries for symbols whose slots were laid out lie in the GOT.
  ghost predicate EntriesInside(arch: Arch, es: seq<Entry>, start: nat, size: nat)
  {
    forall p :: 0 <= p < |es| && es[p].needed ==> start <= es[p].at && es[p].at + WordSize(arch) <= start + size
  }

  lemma FillOutside(arch: Arch, m: Mem, es: seq<Entry>, start: nat, size: nat, a: int)
    requires EntriesInside(arch, es, start, size) && a in m && !InTable(start, size, a)
    ensures a in FillAll(arch, m, es) && FillAll(arch, m, es)[a] == m[a]
  {
    hide FillAll;
    FillAllFrame(arch, m, es, a);
  }

  // ---- the GOT beside the sections ----

  // The GOT is where the system said, if there is one.
  predicate GotGiven(arch: Arch, x: Input, start: nat, size: nat)
  {
    size == GotBytes(arch, x) && (size > 0 ==> x.got == Some(start))
  }

  // What the answers of the system and the file promise beyond single sections
  ghost predicate WellGiven(arch: Arch, x: Input)
  {
    && |x.answers| == |x.headers|
    && ApartFromAll(arch, x.headers, RelOf(x), RelaOf(x), x.answers, x.got, GotBytes(arch, x))
    && (x.got.Some? ==> x.got.value + GotBytes(arch, x) <= Limit(arch))
    && forall i :: 0 <= i < |x.headers| ==>
        SectionKindOf(x.headers[i]).Ok? && IsImage(SectionKindOf(x.headers[i]).value) ==>
          |x.headers[i].bytes| == x.headers[i].size
  }

  lemma WellGivenIf(arch: Arch, m: Mem, x: Input)
    requires SystemAnswers(arch, m, x)
    ensures WellGiven(arch, x)
  {
    InPage(GotBytes(arch, x));
    hide FreshPages, SectionKindOf, RequestsApart, StubBudget, GotBytes, RelOf, RelaOf, MapBytes, PageUp;
    forall i | 0 <= i < |x.headers|
      ensures SectionKindOf(x.headers[i]).Ok? && IsImage(SectionKindOf(x.headers[i]).value) ==>
        |x.headers[i].bytes| == x.headers[i].size
    {
      assert Granted(arch, m, x.headers[i], StubBudget(arch, RelOf(x), RelaOf(x), i), x.answers[i]);
    }
  }

  lemma GotElsewhere(arch: Arch, x: Input, start: nat, size: nat, i: nat, a: int)
    requires WellGiven(arch, x) && GotGiven(arch, x, start, size)
    requires InAnswer(arch, x.headers, RelOf(x), RelaOf(x), x.answers, i, a)
    ensures !InTable(start, size, a)
  {
    InPage(size);
    hide Asked, PageUp, GotBytes, RelOf, RelaOf, SectionKindOf;
    assert RequestsApart(x.answers[i], Asked(arch, x.headers, RelOf(x), RelaOf(x), i), x.got, GotBytes(arch, x));
  }

  lemma GotClaimed(arch: Arch, x: Input, start: nat, size: nat, a: int)
    requires GotGiven(arch, x, start, size) && InTable(start, size, a)
    ensures Claims(arch, x, a)
  {
    InPage(size);
    hide InAnswer, GotBytes, PageUp;
  }

  // Every address of a section that is loaded from the file is in the pages asked for.
  lemma ImageClaimed(arch: Arch, x: Input, i: nat, a: int)
    requires Loads(arch, x) && i < |x.headers| && Active(InfosFor(arch, x)[i])
    requires InfosFor(arch, x)[i].start <= a < InfosFor(arch, x)[i].start + InfosFor(arch, x)[i].size
    ensures InAnswer(arch, x.headers, RelOf(x), RelaOf(x), x.answers, i, a)
  {
    var asked := Asked(arch, x.headers, RelOf(x), RelaOf(x), i);
    InPage(asked);
    assert |x.answers| == |x.headers|;
    hide Loads, StubBudget, RelOf, RelaOf, MapBytes, PageUp;
    LoadedInPages(arch, x);
    assert InOwnPages(arch, InfosFor(arch, x)[i], StubBudget(arch, RelOf(x), RelaOf(x), i), asked, x.answers[i]);
  }

  // Filling the GOT leaves the bytes of the file in the sections.
  lemma ContainsFilled(arch: Arch, x: Input, m: Mem, es: seq<Entry>, start: nat, size: nat, i: nat)
    requires Loads(arch, x) && i < |x.headers| && Active(InfosFor(arch, x)[i])
    requires WellGiven(arch, x) && GotGiven(arch, x, start, size) && EntriesInside(arch, es, start, size)
    requires Contains(x.headers[i], m, InfosFor(arch, x)[i]) && |x.headers[i].bytes| <= InfosFor(arch, x)[i].size
    ensures Contains(x.headers[i], FillAll(arch, m, es), InfosFor(arch, x)[i])
  {
    var info := InfosFor(arch, x)[i];
    assert |x.answers| == |x.headers|;
    hide Loads, WellGiven, GotGiven, EntriesInside, FillAll, Contains, RelOf, RelaOf;
    forall a | info.start <= a < info.start + info.size && a in m
      ensures a in FillAll(arch, m, es) && FillAll(arch, m, es)[a] == m[a]
    {
      ByteFilled(arch, x, m, es, start, size, i, a);
    }
    ContainsSame(x.headers[i], info, m, FillAll(arch, m, es));
  }

  lemma ContainsSame(h: SectionHeader, info: SectionInfo, m: Mem, r: Mem)
    requires Contains(h, m, info) && |h.bytes| <= info.size
    requires forall a :: info.start <= a < info.start + info.size && a in m ==> a in r && r[a] == m[a]
    ensures Contains(h, r, info)
  {
  }

  lemma ByteFilled(arch: Arch, x: Input, m: Mem, es: seq<Entry>, start: nat, size: nat, i: nat, a: int)
    requires Loads(arch, x) && i < |x.headers| && Active(InfosFor(arch, x)[i])
    requires WellGiven(arch, x) && GotGiven(arch, x, start, size) && EntriesInside(arch, es, start, size)
    requires InfosFor(arch, x)[i].start <= a < InfosFor(arch, x)[i].start + InfosFor(arch, x)[i].size && a in m
    ensures a in FillAll(arch, m, es) && FillAll(arch, m, es)[a] == m[a]
  {
    assert |x.answers| == |x.headers|;
    hide Loads, WellGiven, GotGiven, EntriesInside, FillAll, InAnswer, InTable, RelOf, RelaOf;
    ImageClaimed(arch, x, i, a);
    GotElsewhere(arch, x, start, size, i, a);
    FillOutside(arch, m, es, start, size, a);
  }

  // ---- relinked objects ----

  // Sections from the file, as the pass finds them: the bytes of the file at a word boundary, and stub space at another
  ghost predicate FromFile(arch: Arch, x: Input, infos: seq<SectionInfo>, m: Mem)
  {
    && |infos| == |x.headers|
    && forall i :: 0 <= i < |infos| && IsImage(infos[i].kind) ==>
        && Contains(x.headers[i], m, infos[i]) && |x.headers[i].bytes| == infos[i].size && infos[i].start % 4 == 0
        && (StubBudget(arch, RelOf(x), RelaOf(x), i) > 0 ==> infos[i].stubOffset % 4 == 0)
  }

  // The pass ran from st, with the sections of the file x just loaded, to end.
  ghost predicate Relinked(arch: Arch, x: Input, infos: seq<SectionInfo>, st: State, jobs: seq<Job>, end: State)
  {
    && Fresh(arch, infos, st, jobs) && RunsTo(arch, infos, st, jobs, end) && FromFile(arch, x, infos, st.mem)
    && forall i :: 0 <= i < |infos| && Active(infos[i]) ==>
         NumberOfStubs(arch, jobs, i) == StubBudget(arch, RelOf(x), RelaOf(x), i)
  }

  // the word of a section's file bytes
  function FileWord(h: SectionHeader, offset: nat): (w: u32)
  {
    if offset + 4 <= |h.bytes| then
      NumberOfBytes(h.bytes[offset..offset + 4]);
      LargePowers();
      FromBytes(h.bytes[offset..offset + 4])
    else 0
  }

  lemma WordThere(arch: Arch, x: Input, infos: seq<SectionInfo>, m: Mem, i: nat, offset: nat)
    requires FromFile(arch, x, infos, m) && i < |infos| && IsImage(infos[i].kind) && offset + 4 <= infos[i].size
    ensures Mapped(m, infos[i].start + offset, 4)
    ensures Read(m, infos[i].start + offset, 4) == FileWord(x.headers[i], offset)
  {
    var a, bytes := infos[i].start + offset, x.headers[i].bytes;
    assert Contains(x.headers[i], m, infos[i]);
    assert Load(m, a, 4) == bytes[offset..offset + 4];
  }

  lemma {:induction false} CountedOnce(arch: Arch, jobs: seq<Job>, i: nat, k: nat)
    requires k < |jobs| && jobs[k].sec == i && NeedStub(arch, jobs[k].rtype)
    ensures NumberOfStubs(arch, jobs, i) > 0
  {
    if k > 0 {
      CountedOnce(arch, jobs[1..], i, k - 1);
    }
  }

  // The place of a relocation of a section from the file
  lemma PlaceThere(arch: Arch, x: Input, infos: seq<SectionInfo>, st: State, jobs: seq<Job>, end: State, k: nat)
    requires Relinked(arch, x, infos, st, jobs, end) && k < |jobs|
    ensures jobs[k].sec < |infos| == |x.headers|
    ensures var j := jobs[k];
      IsImage(infos[j.sec].kind) && Width(arch, j.rtype) == 4 ==>
        && PlaceOf(arch, infos[j.sec], j) == infos[j.sec].start + j.offset
        && Mapped(st.mem, PlaceOf(arch, infos[j.sec], j), 4)
        && Read(st.mem, PlaceOf(arch, infos[j.sec], j), 4) == FileWord(x.headers[j.sec], j.offset)
        && (j.offset % 4 == 0 ==> PlaceOf(arch, infos[j.sec], j) % 4 == 0)
        && (NeedStub(arch, j.rtype) ==> infos[j.sec].stubOffset % 4 == 0)
  {
    hide Fresh, RunsTo, Placed, TableOk, Region, FarTargets, PlaceOf, Read, FileWord, NumberOfStubs, StubBudget,
         Contains;
    AtEnd(arch, infos, st, jobs, end, k);
    var j := jobs[k];
    PlaceInRegion(arch, infos[j.sec], |FarTargets(arch, infos[j.sec], st.mem, jobs, j.sec)|, j);
    if IsImage(infos[j.sec].kind) && Width(arch, j.rtype) == 4 {
      WordThere(arch, x, infos, st.mem, j.sec, j.offset);
      if NeedStub(arch, j.rtype) {
        CountedOnce(arch, jobs, j.sec, k);
      }
    }
  }

  // What follows from the relocation having been run
  lemma JobRan(arch: Arch, x: Input, infos: seq<SectionInfo>, st: State, jobs: seq<Job>, end: State, k: nat)
    requires Relinked(arch, x, infos, st, jobs, end) && k < |jobs|
    ensures jobs[k].sec < |infos| && PlanOf(arch, infos[jobs[k].sec], st.mem, jobs[k]).Ok?
    ensures jobs[k].symbol.Some? && (arch.AArch64? ==> !jobs[k].implicit)
  {
    hide Fresh, RunsTo, FromFile, TableOk, Region, FarTargets, PlaceOf, Encode, ValueIn, Compute, Read, Pow2;
    AtEnd(arch, infos, st, jobs, end, k);
  }

  // a call of the file: a B or BL at a word offset with a call relocation, to a target on a word boundary
  ghost predicate FileCall64(x: Input, infos: seq<SectionInfo>, j: Job)
  {
    && Arm64.IsBranch(j.rtype) && j.offset % 4 == 0 && j.sec < |infos| == |x.headers| && IsImage(infos[j.sec].kind)
    && Calls64.IsCallWord(FileWord(x.headers[j.sec], j.offset))
    && (j.symbol.Some? ==> j.symbol.value.addr < 0x1_0000_0000_0000_0000 && (j.symbol.value.addr + j.addend) % 4 == 0)
  }

  lemma CallSite64(x: Input, infos: seq<SectionInfo>, st: State, jobs: seq<Job>, end: State, k: nat)
    requires Relinked(AArch64, x, infos, st, jobs, end) && k < |jobs| && FileCall64(x, infos, jobs[k])
    ensures Calls64.CallSite(infos[jobs[k].sec], st.mem, jobs[k])
    ensures Isa64.Read32(st.mem, PlaceOf(AArch64, infos[jobs[k].sec], jobs[k]))
      == FileWord(x.headers[jobs[k].sec], jobs[k].offset)
    ensures PlaceOf(AArch64, infos[jobs[k].sec], jobs[k]) < 0x1_0000_0000_0000_0000
  {
    hide Fresh, RunsTo, FromFile, PlaceOf, Read, FileWord, PlanOf, Calls64.IsCallWord;
    JobRan(AArch64, x, infos, st, jobs, end, k);
    PlaceThere(AArch64, x, infos, st, jobs, end, k);
    Calls64.CallHasSymbol(infos[jobs[k].sec], st.mem, jobs[k]);
  }

  // Every A64 call of the file arrives at S + A when the object is relinked; out of reach this takes the addend 0.
  lemma CallsArrive64(x: Input, infos: seq<SectionInfo>, st: State, jobs: seq<Job>, end: State, k: nat,
                      regs: map<nat, u64>)
    requires Relinked(AArch64, x, infos, st, jobs, end) && k < |jobs| && 16 in regs && FileCall64(x, infos, jobs[k])
    requires IsFar(AArch64, infos[jobs[k].sec], st.mem, jobs[k]) ==> jobs[k].addend == 0
    ensures Calls64.CallSite(infos[jobs[k].sec], st.mem, jobs[k])
    ensures Calls64.CallArrives(infos[jobs[k].sec], st.mem, end.mem, jobs[k], regs)
  {
    hide Fresh, RunsTo, FromFile, IsFar, Calls64.CallSite, Calls64.CallArrives, PlaceOf, FileWord, Read;
    CallSite64(x, infos, st, jobs, end, k);
    Calls64.EveryCallArrives(infos, st, jobs, end, k, regs);
  }

  // the same for A32, with the addend of the relocation or the one in the file's instruction
  ghost predicate FileCall32(x: Input, infos: seq<SectionInfo>, j: Job)
  {
    && Arm.IsCall(j.rtype) && j.offset % 4 == 0 && j.sec < |infos| == |x.headers| && IsImage(infos[j.sec].kind)
    && Isa32.IsBranch(FileWord(x.headers[j.sec], j.offset))
    && (j.symbol.Some? ==>
          && j.symbol.value.addr < 0x1_0000_0000
          && (j.symbol.value.addr + (if j.implicit then 0 else j.addend)) % 4 == 0)
  }

  lemma CallSite32(x: Input, infos: seq<SectionInfo>, st: State, jobs: seq<Job>, end: State, k: nat)
    requires Relinked(AArch32, x, infos, st, jobs, end) && k < |jobs| && FileCall32(x, infos, jobs[k])
    ensures Calls32.CallSite(infos[jobs[k].sec], st.mem, jobs[k])
    ensures Calls32.WordAt(infos[jobs[k].sec], st.mem, jobs[k]) == FileWord(x.headers[jobs[k].sec], jobs[k].offset)
  {
    hide Fresh, RunsTo, FromFile, PlaceOf, Read, FileWord, PlanOf, Isa32.IsBranch;
    JobRan(AArch32, x, infos, st, jobs, end, k);
    PlaceThere(AArch32, x, infos, st, jobs, end, k);
  }

  // Every A32 call of the file arrives, with no condition on addends.
  lemma CallsArrive32(x: Input, infos: seq<SectionInfo>, st: State, jobs: seq<Job>, end: State, k: nat,
                      regs: map<nat, u32>)
    requires Relinked(AArch32, x, infos, st, jobs, end) && k < |jobs| && 12 in regs && FileCall32(x, infos, jobs[k])
    ensures Calls32.CallSite(infos[jobs[k].sec], st.mem, jobs[k])
    ensures Calls32.CallArrives(infos[jobs[k].sec], st.mem, end.mem, jobs[k], regs)
  {
    hide Fresh, RunsTo, FromFile, Calls32.CallSite, Calls32.CallArrives, Calls32.WordAt, PlaceOf, FileWord, Read;
    CallSite32(x, infos, st, jobs, end, k);
    Calls32.EveryCallArrives(infos, st, jobs, end, k, regs);
  }

  // ---- the GOT ----

  // No slot is within reach of the pass.
  ghost predicate GotSafe(arch: Arch, infos: seq<SectionInfo>, m: Mem, jobs: seq<Job>, start: nat, size: nat)
  {
    forall a :: start <= a && a + WordSize(arch) <= start + size ==> Beyond(arch, infos, m, jobs, a, WordSize(arch))
  }

  // The GOT of a resolved object: every symbol that needs a slot has one, apart from 0, with its address in it.
  ghost predicate GotReady(arch: Arch, x: Input, g: map<u64, nat>, system: System, m: Mem)
    requires |x.answers| == |x.headers|
  {
    forall p :: 0 <= p < |HeaderSyms(x.headers)| && NeedSlot(HeaderSyms(x.headers)[p]) ==>
      SlotReady(arch, m, SlotFor(arch, x, p), AddressFor(arch, x, g, system, HeaderSyms(x.headers)[p]))
  }

  ghost predicate SlotReady(arch: Arch, m: Mem, a: nat, address: nat)
  {
    && 0 < a && a + WordSize(arch) <= AddressLimit(arch) && Mapped(m, a, WordSize(arch))
    && Read(m, a, WordSize(arch)) == address
  }

  // The pass leaves the GOT in order.
  lemma GotStaysReady(arch: Arch, x: Input, g: map<u64, nat>, system: System, infos: seq<SectionInfo>, st: State,
                      jobs: seq<Job>, end: State,
                      start: nat, size: nat)
    requires |x.answers| == |x.headers| && GotReady(arch, x, g, system, st.mem) && GotGiven(arch, x, start, size)
    requires Fresh(arch, infos, st, jobs) && RunsTo(arch, infos, st, jobs, end)
    requires GotSafe(arch, infos, st.mem, jobs, start, size)
    ensures GotReady(arch, x, g, system, end.mem)
  {
    hide HeaderSyms, AddressFor, SlotFor, Fresh, RunsTo, Beyond, Read, WordSize, AddressLimit, GotGiven;
    var es := HeaderSyms(x.headers);
    forall p | 0 <= p < |es| && NeedSlot(es[p])
      ensures SlotReady(arch, end.mem, SlotFor(arch, x, p), AddressFor(arch, x, g, system, es[p]))
    {
      var a := SlotFor(arch, x, p);
      assert SlotReady(arch, st.mem, a, AddressFor(arch, x, g, system, es[p]));
      SlotWithin(arch, x, start, size, p);
      BeyondKept(arch, infos, st, jobs, end, a, WordSize(arch));
    }
  }

  // The slots of symbols lie in the GOT.
  lemma SlotWithin(arch: Arch, x: Input, start: nat, size: nat, p: nat)
    requires GotGiven(arch, x, start, size) && p < |HeaderSyms(x.headers)| && NeedSlot(HeaderSyms(x.headers)[p])
    ensures start <= SlotFor(arch, x, p) && SlotFor(arch, x, p) + WordSize(arch) <= start + size
  {
    var es := HeaderSyms(x.headers);
    SlotsGrow(es, p);
    hide HeaderSyms, Slots;
    LastSlot(start, WordSize(arch), Slots(es[..p]), Slots(es));
  }

  // ---- instructions that use the GOT ----

  lemma GotOfRun(infos: seq<SectionInfo>, m: Mem, j: Job)
    requires j.sec < |infos| && PlanOf(AArch64, infos[j.sec], m, j).Ok? && j.symbol.Some?
    requires j.rtype == Arm64.ADR_GOT_PAGE || j.rtype == Arm64.LD64_GOT_LO12_NC
    ensures j.symbol.value.gotAddr != 0
  {
    hide PlaceOf, S64, IsInt64;
  }

  // a relocation of the kind t in a section of the file, for a symbol with view s, with addend 0
  ghost predicate GotUse(x: Input, infos: seq<SectionInfo>, j: Job, t: nat, s: SymbolView)
  {
    && j.rtype == t && j.addend == 0 && j.symbol == Some(s)
    && j.sec < |infos| == |x.headers| && IsImage(infos[j.sec].kind)
  }

  lemma GotSite(x: Input, infos: seq<SectionInfo>, st: State, jobs: seq<Job>, end: State, k: nat, t: nat, s: SymbolView)
    requires Relinked(AArch64, x, infos, st, jobs, end) && k < |jobs| && GotUse(x, infos, jobs[k], t, s)
    requires t == Arm64.ADR_GOT_PAGE || t == Arm64.LD64_GOT_LO12_NC
    requires s.addr < 0x1_0000_0000_0000_0000 && s.gotAddr < 0x1_0000_0000_0000_0000
    ensures Pages64.Site(infos[jobs[k].sec], st.mem, jobs[k]) && s.gotAddr != 0
    ensures Pages64.WordAt(infos[jobs[k].sec], st.mem, jobs[k]) == FileWord(x.headers[jobs[k].sec], jobs[k].offset)
  {
    hide Relinked, PlaceOf, Read, FileWord, PlanOf;
    JobRan(AArch64, x, infos, st, jobs, end, k);
    PlaceThere(AArch64, x, infos, st, jobs, end, k);
    GotOfRun(infos, st.mem, jobs[k]);
  }

  // the view of symbol p once the object is resolved
  function ViewAt(arch: Arch, x: Input, g: map<u64, nat>, system: System, p: nat): SymbolView
    requires |x.answers| == |x.headers| && p < |HeaderSyms(x.headers)|
  {
    SymbolView(AddressFor(arch, x, g, system, HeaderSyms(x.headers)[p]), SlotFor(arch, x, p))
  }

  // GOT access of the file: ADRP and a 64-bit LDR, at any two places of the object, relocated to the slot of the same
  // symbol p, load the address of the symbol, as long as the sections and the GOT are left alone.
  lemma GotLoads64(x: Input, g: map<u64, nat>, system: System, infos: seq<SectionInfo>, st: State, jobs: seq<Job>,
                   end: State,
                   now: Mem, p: nat, a: nat, b: nat, d: nat, n: nat, regs: map<nat, u64>)
    requires Relinked(AArch64, x, infos, st, jobs, end) && KeepsRegions(AArch64, infos, st.mem, jobs, end.mem, now)
    requires |x.answers| == |x.headers| && p < |HeaderSyms(x.headers)| && NeedSlot(HeaderSyms(x.headers)[p])
    requires GotReady(AArch64, x, g, system, now) && a < |jobs| && b < |jobs|
    requires GotUse(x, infos, jobs[a], Arm64.ADR_GOT_PAGE, ViewAt(AArch64, x, g, system, p))
    requires GotUse(x, infos, jobs[b], Arm64.LD64_GOT_LO12_NC, ViewAt(AArch64, x, g, system, p))
    requires var w := FileWord(x.headers[jobs[a].sec], jobs[a].offset); Isa64.IsAdrp(w) && Isa64.Rd(w) == n != 31
    requires var w := FileWord(x.headers[jobs[b].sec], jobs[b].offset);
      Isa64.IsLdr64(w) && Isa64.Rd(w) == d != 31 && Isa64.Rn(w) == n
    ensures AddressFor(AArch64, x, g, system, HeaderSyms(x.headers)[p]) < 0x1_0000_0000_0000_0000
    ensures exists y ::
      && Pages64.Steps(now, PlaceOf(AArch64, infos[jobs[a].sec], jobs[a]), regs, y)
      && Pages64.Steps(now, PlaceOf(AArch64, infos[jobs[b].sec], jobs[b]), y,
                       y[d := AddressFor(AArch64, x, g, system, HeaderSyms(x.headers)[p])])
  {
    hide Fresh, RunsTo, FromFile, PlaceOf, FileWord, Pages64.Steps, Pages64.Site, Isa64.IsAdrp, Isa64.Rd, Isa64.Rn,
         Pages64.WordAt, HeaderSyms, AddressFor, SlotFor, Read, KeepsRegions, Placed, TableOk, Region, FarTargets;
    var s := ViewAt(AArch64, x, g, system, p);
    assert SlotReady(AArch64, now, s.gotAddr, s.addr);
    ReadIsWord(now, s.gotAddr);
    GotSite(x, infos, st, jobs, end, a, Arm64.ADR_GOT_PAGE, s);
    GotSite(x, infos, st, jobs, end, b, Arm64.LD64_GOT_LO12_NC, s);
    Pages64.TopIsNoOther(FileWord(x.headers[jobs[b].sec], jobs[b].offset), 0x3e5);
    StillThere(AArch64, infos, st, jobs, end, now, a);
    StillThere(AArch64, infos, st, jobs, end, now, b);
    Resolve.GotAccessThere(infos[jobs[a].sec], infos[jobs[b].sec], st.mem, Table(now, end.tables[jobs[a].sec]),
                           Table(now, end.tables[jobs[b].sec]), jobs[a], jobs[b], s, d, n, regs);
  }

  lemma ReadIsWord(m: Mem, a: int)
    requires Mapped(m, a, 8)
    ensures Read(m, a, 8) < 0x1_0000_0000_0000_0000
  {
    NumberOfBytes(Load(m, a, 8));
    LargePowers();
  }

  // The same for arm: a GOT_PREL word leads to the slot plus the addend, and the slot holds the symbol's address.
  lemma GotLeads32(x: Input, g: map<u64, nat>, system: System, infos: seq<SectionInfo>, st: State, jobs: seq<Job>,
                   end: State,
                   now: Mem, p: nat, k: nat)
    requires Relinked(AArch32, x, infos, st, jobs, end) && KeepsRegions(AArch32, infos, st.mem, jobs, end.mem, now)
    requires |x.answers| == |x.headers| && p < |HeaderSyms(x.headers)| && NeedSlot(HeaderSyms(x.headers)[p])
    requires GotReady(AArch32, x, g, system, now) && k < |jobs| && jobs[k].sec < |infos|
    requires jobs[k].rtype == Arm.GOT_PREL && jobs[k].symbol == Some(ViewAt(AArch32, x, g, system, p))
    ensures var P, slot := PlaceOf(AArch32, infos[jobs[k].sec], jobs[k]), SlotFor(AArch32, x, p);
      && Mapped(now, P, 4)
      && U32(P + Read(now, P, 4)) == U32(slot + DataWords.Addend32(infos[jobs[k].sec], st.mem, jobs[k]))
      && Mapped(now, slot, 4) && Read(now, slot, 4) == AddressFor(AArch32, x, g, system, HeaderSyms(x.headers)[p])
  {
    hide Fresh, RunsTo, FromFile, PlaceOf, HeaderSyms, AddressFor, SlotFor, Read, U32, DataWords.Addend32, KeepsRegions,
         Placed, TableOk, Region, FarTargets;
    var s := ViewAt(AArch32, x, g, system, p);
    assert SlotReady(AArch32, now, s.gotAddr, s.addr);
    ReadIsWord32(now, s.gotAddr);
    StillThere(AArch32, infos, st, jobs, end, now, k);
    DataWords.DataPlaced32(infos[jobs[k].sec], st.mem, Table(now, end.tables[jobs[k].sec]), jobs[k]);
  }

  lemma ReadIsWord32(m: Mem, a: int)
    requires Mapped(m, a, 4)
    ensures Read(m, a, 4) < 0x1_0000_0000
  {
    NumberOfBytes(Load(m, a, 4));
    LargePowers();
  }

  // ---- from loading to relinking ----

  lemma OnWords(arch: Arch, x: Input, i: nat)
    requires Loads(arch, x) && WellGiven(arch, x)
    requires i < |x.headers| && IsImage(InfosFor(arch, x)[i].kind)
    ensures |x.headers[i].bytes| == InfosFor(arch, x)[i].size && InfosFor(arch, x)[i].start % 4 == 0
    ensures StubBudget(arch, RelOf(x), RelaOf(x), i) > 0 ==> InfosFor(arch, x)[i].stubOffset % 4 == 0
  {
    hide StubBudget, RelOf, RelaOf, RequestsApart, ApartFromAll, GotBytes, PageUp;
    var n := StubBudget(arch, RelOf(x), RelaOf(x), i);
    assert LoadedAs(arch, x.headers[i], x.image, n, x.answers[i], InfosFor(arch, x)[i], StubBytes(arch, n));
    assert Loadable(arch, x.headers[i], n, x.answers[i]);
    StartAligned(arch, x.headers[i], x.image, n, x.answers[i], InfosFor(arch, x)[i], StubBytes(arch, n));
  }

  lemma StartAligned(arch: Arch, h: SectionHeader, image: nat, n: nat, answer: Option<nat>, info: SectionInfo,
                     stubSize: nat)
    requires LoadedAs(arch, h, image, n, answer, info, stubSize) && Loadable(arch, h, n, answer) && IsImage(info.kind)
    requires answer.Some? ==> answer.value % PAGE == 0
    ensures SectionKindOf(h).Ok? && info.size == h.size && info.start % 4 == 0 && (n > 0 ==> info.stubOffset % 4 == 0)
  {
    if n > 0 {
      StubsAligned(arch, h, image, n, answer, info, stubSize);
    }
    if answer.Some? {
      AlignedSum(answer.value, 0);
    }
    hide SectionKindOf;
  }

  lemma FromFileWhenLoaded(arch: Arch, x: Input, m: Mem, es: seq<Entry>, start: nat, size: nat)
    requires Loads(arch, x)
    requires WellGiven(arch, x) && GotGiven(arch, x, start, size) && EntriesInside(arch, es, start, size)
    requires Resident(arch, x, m)
    ensures FromFile(arch, x, InfosFor(arch, x), FillAll(arch, m, es))
  {
    assert |x.headers| == |x.headers|;
    assert |x.answers| == |x.headers|;
    hide Loads, WellGiven, GotGiven, EntriesInside, FillAll, Contains, RelOf, RelaOf, StubBudget, AllLoadedAs;
    forall i | 0 <= i < |x.headers| && IsImage(InfosFor(arch, x)[i].kind)
      ensures Contains(x.headers[i], FillAll(arch, m, es), InfosFor(arch, x)[i])
      ensures |x.headers[i].bytes| == InfosFor(arch, x)[i].size && InfosFor(arch, x)[i].start % 4 == 0
      ensures StubBudget(arch, RelOf(x), RelaOf(x), i) > 0 ==> InfosFor(arch, x)[i].stubOffset % 4 == 0
    {
      OnWords(arch, x, i);
      ContainsFilled(arch, x, m, es, start, size, i);
    }
  }

  // What is known when an object has been loaded, its GOT filled, and all its relocations run
  ghost predicate Ran(arch: Arch, x: Input, jobs: seq<Job>, loaded: Mem, es: seq<Entry>, start: nat, size: nat,
                      tables: seq<seq<Stub>>, end: State)
  {
    && Loads(arch, x)
    && WellGiven(arch, x) && GotGiven(arch, x, start, size) && EntriesInside(arch, es, start, size)
    && Resident(arch, x, loaded)
    && |tables| == |x.headers| && (forall i :: 0 <= i < |tables| ==> tables[i] == [])
    && Counted(arch, x, jobs)
    && WellPlaced(arch, InfosFor(arch, x), jobs) && HasRoom(arch, InfosFor(arch, x), FillAll(arch, loaded, es), jobs)
    && RunsTo(arch, InfosFor(arch, x), State(FillAll(arch, loaded, es), tables), jobs, end)
  }

  lemma RelinkedWhenRan(arch: Arch, x: Input, jobs: seq<Job>, loaded: Mem, es: seq<Entry>, start: nat, size: nat,
                        tables: seq<seq<Stub>>, end: State)
    requires Ran(arch, x, jobs, loaded, es, start, size, tables, end)
    ensures Relinked(arch, x, InfosFor(arch, x), State(FillAll(arch, loaded, es), tables),
                     jobs, end)
  {
    assert |x.answers| == |x.headers|;
    hide Loads, WellGiven, GotGiven, EntriesInside, FillAll, RelOf, RelaOf, StubBudget, WellPlaced, HasRoom, RunsTo,
         Resident, Fresh, FromFile, NumberOfStubs;
    var infos := InfosFor(arch, x);
    FromFileWhenLoaded(arch, x, loaded, es, start, size);
    LoadedIsFresh(arch, x, jobs, FillAll(arch, loaded, es), tables);
  }

  // Resolving an object writes only to pages that loading it asked for.
  lemma OwnPagesOnly(arch: Arch, x: Input, jobs: seq<Job>, loaded: Mem, es: seq<Entry>, start: nat, size: nat,
                   tables: seq<seq<Stub>>, end: State, a: int)
    requires Ran(arch, x, jobs, loaded, es, start, size, tables, end)
    requires a in loaded && !Claims(arch, x, a)
    ensures a in end.mem && end.mem[a] == loaded[a]
  {
    RelinkedWhenRan(arch, x, jobs, loaded, es, start, size, tables, end);
    assert |x.answers| == |x.headers|;
    hide Loads, WellGiven, GotGiven, EntriesInside, FillAll, RelOf, RelaOf, WellPlaced, HasRoom, RunsTo, Resident,
         Fresh, FromFile, FarTargets, End, Claims;
    var infos, st := InfosFor(arch, x), State(FillAll(arch, loaded, es), tables);
    if InTable(start, size, a) {
      GotClaimed(arch, x, start, size, a);
    }
    FillOutside(arch, loaded, es, start, size, a);
    forall i | 0 <= i < |infos| && Active(infos[i])
      ensures a < infos[i].start || End(arch, infos[i], |FarTargets(arch, infos[i], st.mem, jobs, i)|) <= a
    {
      if infos[i].start <= a < End(arch, infos[i], |FarTargets(arch, infos[i], st.mem, jobs, i)|) {
        RegionClaimed(arch, x, jobs, st.mem, i, a);
      }
    }
    OutsideKept(arch, infos, st, jobs, end, a);
  }

  lemma KeysKept(arch: Arch, x: Input, jobs: seq<Job>, loaded: Mem, es: seq<Entry>, start: nat, size: nat,
                 tables: seq<seq<Stub>>, end: State)
    requires Ran(arch, x, jobs, loaded, es, start, size, tables, end)
    ensures forall a :: a in loaded <==> a in end.mem
  {
    RelinkedWhenRan(arch, x, jobs, loaded, es, start, size, tables, end);
    assert |x.answers| == |x.headers|;
    hide Ran, Fresh, RunsTo, FromFile, FillAll, InfosFor, NumberOfStubs, StubBudget, AllPlaced, TablesOk, Far;
    FreshRun(arch, InfosFor(arch, x), State(FillAll(arch, loaded, es), tables), jobs, end);
    FillAllKeys(arch, loaded, es);
    assert forall a :: a in loaded <==> a in FillAll(arch, loaded, es);
    assert forall a :: a in end.mem <==> a in FillAll(arch, loaded, es);
  }

  // The slots of a GOT that the system gave its own pages are out of the pass's reach.
  lemma GotOutOfReach(arch: Arch, x: Input, jobs: seq<Job>, m: Mem, start: nat, size: nat, a: nat)
    requires Loads(arch, x) && Counted(arch, x, jobs) && HasRoom(arch, InfosFor(arch, x), m, jobs)
    requires WellGiven(arch, x) && GotGiven(arch, x, start, size) && start <= a && a + WordSize(arch) <= start + size
    ensures Beyond(arch, InfosFor(arch, x), m, jobs, a, WordSize(arch))
  {
    assert |x.answers| == |x.headers|;
    hide Loads, HasRoom, FarTargets, Roomy, RequestsApart, StubBudget, RelOf, RelaOf, GotBytes, SectionKindOf;
    var infos := InfosFor(arch, x);
    var ns, asked := Budgets(arch, RelOf(x), RelaOf(x), |infos|), Requests(arch, x.headers, RelOf(x), RelaOf(x));
    LoadedInPages(arch, x);
    RoomyWhenCounted(arch, infos, ns, jobs, m);
    var far := Far(arch, infos, m, jobs);
    hide MapBytes, InOwnPages, End;
    forall i | 0 <= i < |infos| && Active(infos[i])
      ensures a + WordSize(arch) <= infos[i].start || End(arch, infos[i], |FarTargets(arch, infos[i], m, jobs, i)|) <= a
    {
      assert far[i] == FarTargets(arch, infos[i], m, jobs, i);
      RegionWhenRoomy(arch, infos[i], ns[i], asked[i], x.answers[i], |far[i]|);
      assert RequestsApart(x.answers[i], asked[i], Some(start), size);
      GotApart(arch, infos[i], ns[i], asked[i], x.answers[i], |far[i]|, start, size, a);
    }
  }

  lemma GotApart(arch: Arch, info: SectionInfo, n: nat, asked: nat, answer: Option<nat>, k: nat, start: nat, bytes: nat,
                 a: nat)
    requires InOwnPages(arch, info, n, asked, answer) && RequestsApart(answer, asked, Some(start), bytes)
    requires asked > 0 ==> answer.Some? && End(arch, info, k) <= answer.value + PageUp(asked)
    requires asked == 0 ==> End(arch, info, k) == 0
    requires start <= a && a + WordSize(arch) <= start + bytes
    ensures a + WordSize(arch) <= info.start || End(arch, info, k) <= a
  {
    InPage(bytes);
    hide PageUp, End;
  }

  lemma GotSafeWhenRan(arch: Arch, x: Input, jobs: seq<Job>, loaded: Mem, es: seq<Entry>, start: nat, size: nat,
                       tables: seq<seq<Stub>>, end: State)
    requires Ran(arch, x, jobs, loaded, es, start, size, tables, end)
    ensures GotSafe(arch, InfosFor(arch, x), FillAll(arch, loaded, es), jobs, start, size)
  {
    assert |x.answers| == |x.headers|;
    hide Loads, EntriesInside, FillAll, RelOf, RelaOf, WellPlaced, HasRoom, RunsTo, Resident, ApartFromAll, GotBytes,
         SectionKindOf, Beyond;
    var infos, m := InfosFor(arch, x), FillAll(arch, loaded, es);
    forall a | start <= a && a + WordSize(arch) <= start + size
      ensures Beyond(arch, infos, m, jobs, a, WordSize(arch))
    {
      GotOutOfReach(arch, x, jobs, m, start, size, a);
    }
  }

  // ---- beside other objects ----

  // Memory m agrees with r on the sections of the object and their stubs.
  ghost predicate KeepsRegions(arch: Arch, infos: seq<SectionInfo>, m0: Mem, jobs: seq<Job>, r: Mem, m: Mem)
  {
    forall i, a :: 0 <= i < |infos| && Active(infos[i]) && a in r && InRegion(arch, infos, m0, jobs, i, a) ==>
      a in m && m[a] == r[a]
  }

  ghost predicate InRegion(arch: Arch, infos: seq<SectionInfo>, m0: Mem, jobs: seq<Job>, i: nat, a: int)
    requires i < |infos|
  {
    infos[i].start <= a < End(arch, infos[i], |FarTargets(arch, infos[i], m0, jobs, i)|)
  }

  // What one relocation needs of memory still holds as long as its section and stubs are left alone.
  lemma StillThere(arch: Arch, infos: seq<SectionInfo>, st: State, jobs: seq<Job>, end: State, m: Mem, k: nat)
    requires Fresh(arch, infos, st, jobs) && RunsTo(arch, infos, st, jobs, end) && k < |jobs|
    requires KeepsRegions(arch, infos, st.mem, jobs, end.mem, m)
    ensures var j := jobs[k];
      && j.sec < |infos| == |end.tables|
      && Pass.Placed(arch, infos[j.sec], st.mem, Table(m, end.tables[j.sec]), j)
      && TableOk(arch, infos[j.sec], FarTargets(arch, infos[j.sec], st.mem, jobs, j.sec), Table(m, end.tables[j.sec]))
      && Region(arch, infos[j.sec], |FarTargets(arch, infos[j.sec], st.mem, jobs, j.sec)|)
  {
    hide Fresh, RunsTo, Pass.Placed, TableOk, Region, FarTargets, PlaceOf, Width, InSection, End;
    AtEnd(arch, infos, st, jobs, end, k);
    var j := jobs[k];
    var sec, far := infos[j.sec], FarTargets(arch, infos[j.sec], st.mem, jobs, j.sec);
    var t := Table(end.mem, end.tables[j.sec]);
    PlaceInRegion(arch, sec, |far|, j);
    BytesBeforeEnd(arch, sec, |far|);
    PlaceMapped(arch, sec, st.mem, t, j);
    SameInRegion(arch, infos, st.mem, jobs, end.mem, m, j.sec, PlaceOf(arch, sec, j), Width(arch, j.rtype));
    PlacedLater(arch, sec, st.mem, t, Table(m, t.stubs), j);
    forall l | 0 <= l < |t.stubs| ensures SameOn(t.mem, m, t.stubs[l].addr, StubSize(arch)) {
      StubMapped(arch, sec, far, t, l);
      SameInRegion(arch, infos, st.mem, jobs, end.mem, m, j.sec, t.stubs[l].addr, StubSize(arch));
    }
    TableKept(arch, sec, far, t, m);
  }

  lemma PlaceMapped(arch: Arch, sec: SectionInfo, was: Mem, t: Table, j: Job)
    requires Pass.Placed(arch, sec, was, t, j)
    ensures Mapped(t.mem, PlaceOf(arch, sec, j), Width(arch, j.rtype))
  {
    hide PlanOf, PlaceOf, Width, Encode, ValueIn, Read;
  }

  lemma StubMapped(arch: Arch, sec: SectionInfo, far: set<int>, t: Table, l: nat)
    requires TableOk(arch, sec, far, t) && Region(arch, sec, |far|) && l < |t.stubs|
    ensures Mapped(t.mem, t.stubs[l].addr, StubSize(arch))
    ensures sec.start <= t.stubs[l].addr && t.stubs[l].addr + StubSize(arch) <= End(arch, sec, |far|)
  {
    SlotsBehind(arch, sec, far, t);
    hide Region, End, StubCode, StubSize;
    assert HoldsCode(arch, t.mem, t.stubs[l]) && t.stubs[l] in t.stubs;
  }

  lemma SameInRegion(arch: Arch, infos: seq<SectionInfo>, m0: Mem, jobs: seq<Job>, r: Mem, m: Mem, i: nat, a: int,
                     n: nat)
    requires KeepsRegions(arch, infos, m0, jobs, r, m) && i < |infos| && Active(infos[i]) && Mapped(r, a, n)
    requires infos[i].start <= a && a + n <= End(arch, infos[i], |FarTargets(arch, infos[i], m0, jobs, i)|)
    ensures SameOn(r, m, a, n)
  {
    hide End, FarTargets, Active;
    forall x | a <= x < a + n ensures x in r && x in m && m[x] == r[x] {
      assert InRegion(arch, infos, m0, jobs, i, x);
    }
  }

  // Calls of a relinked object still arrive in every later memory that keeps its sections and stubs.
  lemma CallsStillArrive64(infos: seq<SectionInfo>, st: State, jobs: seq<Job>, end: State, m: Mem, k: nat,
                           regs: map<nat, u64>)
    requires Fresh(AArch64, infos, st, jobs) && RunsTo(AArch64, infos, st, jobs, end)
    requires KeepsRegions(AArch64, infos, st.mem, jobs, end.mem, m)
    requires k < |jobs| && jobs[k].sec < |infos| && Calls64.CallSite(infos[jobs[k].sec], st.mem, jobs[k]) && 16 in regs
    requires IsFar(AArch64, infos[jobs[k].sec], st.mem, jobs[k]) ==> jobs[k].addend == 0
    ensures Calls64.CallArrives(infos[jobs[k].sec], st.mem, m, jobs[k], regs)
  {
    hide Fresh, RunsTo, KeepsRegions, Pass.Placed, TableOk, Region, FarTargets, IsFar, Calls64.CallSite,
         Calls64.CallArrives;
    StillThere(AArch64, infos, st, jobs, end, m, k);
    var j := jobs[k];
    Calls64.CallDone(infos[j.sec], FarTargets(AArch64, infos[j.sec], st.mem, jobs, j.sec), st.mem,
                     Table(m, end.tables[j.sec]), j, regs);
  }

  lemma CallsStillArrive32(infos: seq<SectionInfo>, st: State, jobs: seq<Job>, end: State, m: Mem, k: nat,
                           regs: map<nat, u32>)
    requires Fresh(AArch32, infos, st, jobs) && RunsTo(AArch32, infos, st, jobs, end)
    requires KeepsRegions(AArch32, infos, st.mem, jobs, end.mem, m)
    requires k < |jobs| && jobs[k].sec < |infos| && Calls32.CallSite(infos[jobs[k].sec], st.mem, jobs[k]) && 12 in regs
    ensures Calls32.CallArrives(infos[jobs[k].sec], st.mem, m, jobs[k], regs)
  {
    hide Fresh, RunsTo, KeepsRegions, Pass.Placed, TableOk, Region, FarTargets, Calls32.CallSite, Calls32.CallArrives;
    StillThere(AArch32, infos, st, jobs, end, m, k);
    var j := jobs[k];
    Calls32.CallDone(infos[j.sec], FarTargets(AArch32, infos[j.sec], st.mem, jobs, j.sec), st.mem,
                     Table(m, end.tables[j.sec]), j, regs);
  }

  // ---- when the pass over a loaded object succeeds ----

  // Size, stub space and 8 bytes together within branch range make every stub of a loaded section mapped and in reach.
  lemma LoadedReachable(arch: Arch, x: Input, jobs: seq<Job>, m: Mem, es: seq<Entry>)
    requires Loads(arch, x)
    requires Resident(arch, x, m)
    requires Counted(arch, x, jobs)
    requires HasRoom(arch, InfosFor(arch, x), FillAll(arch, m, es), jobs)
    requires Compact(arch, InfosFor(arch, x), Budgets(arch, RelOf(x), RelaOf(x), |x.headers|))
    ensures var r := FillAll(arch, m, es);
      Again.AllReachable(arch, InfosFor(arch, x), Far(arch, InfosFor(arch, x), r, jobs), r)
  {
    assert |x.headers| == |x.headers|;
    assert |x.answers| == |x.headers|;
    hide Loads, HasRoom, FillAll, RelOf, RelaOf, Compact, StubBudget, AllInPages, RoomyAll, MapBytes;
    var infos, r := InfosFor(arch, x), FillAll(arch, m, es);
    var ns, asked := Budgets(arch, RelOf(x), RelaOf(x), |x.headers|), Requests(arch, x.headers, RelOf(x), RelaOf(x));
    LoadedInPages(arch, x);
    RoomyWhenCounted(arch, infos, ns, jobs, r);
    FillAllKeys(arch, m, es);
    assert forall a :: a in m <==> a in r;
    forall i | 0 <= i < |infos| ensures HasPages(r, x.answers[i], asked[i]) {
      assert HasPages(m, x.answers[i], Asked(arch, x.headers, RelOf(x), RelaOf(x), i));
    }
    CompactReachable(arch, infos, ns, asked, x.answers, Far(arch, infos, r, jobs), r);
  }

  // So no relocation of a loaded object ever fails for its stub: the pass succeeds exactly if the code accepts each
  // relocation on the memory with the filled GOT.
  lemma RelocatesIff(arch: Arch, x: Input, jobs: seq<Job>, m: Mem, es: seq<Entry>, tables: seq<seq<Stub>>)
    requires Loads(arch, x)
    requires Resident(arch, x, m)
    requires |tables| == |x.headers| && forall i :: 0 <= i < |tables| ==> tables[i] == []
    requires Counted(arch, x, jobs)
    requires
      && WellPlaced(arch, InfosFor(arch, x), jobs) && HasRoom(arch, InfosFor(arch, x), FillAll(arch, m, es), jobs)
      && Again.AllEnter(arch, InfosFor(arch, x), FillAll(arch, m, es), jobs)
    requires Compact(arch, InfosFor(arch, x), Budgets(arch, RelOf(x), RelaOf(x), |x.headers|))
    ensures var st := State(FillAll(arch, m, es), tables);
      && Fits(InfosFor(arch, x), st, jobs)
      && (Run(arch, InfosFor(arch, x), st, jobs).Ok? <==> Again.AllAccepted(arch, InfosFor(arch, x), st.mem, jobs))
  {
    assert |x.answers| == |x.headers|;
    hide Loads, Resident, HasRoom, FillAll, RelOf, RelaOf, Compact, InSection, ApartPlaces, Fresh, Run, Far,
         Again.AllEnter, Again.AllAccepted, Again.AllReachable;
    var infos := InfosFor(arch, x);
    LoadedReachable(arch, x, jobs, m, es);
    LoadedIsFresh(arch, x, jobs, FillAll(arch, m, es), tables);
    Again.SucceedsIff(arch, infos, State(FillAll(arch, m, es), tables), jobs);
  }

  // ---- the whole object ----

  // Places inside their sections and apart, and room for the stubs of far branches
  ghost predicate WellFormed(arch: Arch, x: Input, g: map<u64, nat>, system: System, m: Mem)
    requires |x.answers| == |x.headers| && TargetsIn(arch, x)
  {
    && WellPlaced(arch, InfosFor(arch, x), JobsFor(arch, x, g, system))
    && HasRoom(arch, InfosFor(arch, x), FilledFor(arch, x, g, system, m), JobsFor(arch, x, g, system))
  }

  function GotStart(x: Input): nat { if x.got.Some? then x.got.value else 0 }

  // The object x was loaded, so that memory was m, and resolved, so that the state is end.
  ghost predicate IsLinked(arch: Arch, x: Input, g: map<u64, nat>, system: System, m: Mem, end: State)
    requires |x.answers| == |x.headers| && TargetsIn(arch, x)
  {
    var jobs, st := JobsFor(arch, x, g, system), StartFor(x, FilledFor(arch, x, g, system, m));
    && Relinked(arch, x, InfosFor(arch, x), st, jobs, end)
    && GotReady(arch, x, g, system, st.mem) && GotGiven(arch, x, GotStart(x), GotBytes(arch, x))
    && GotSafe(arch, InfosFor(arch, x), st.mem, jobs, GotStart(x), GotBytes(arch, x))
  }

  lemma {:induction false} TableCounted(arch: Arch, x: Input, g: map<u64, nat>, system: System, t: RelTable,
                                        implicit: bool, k: nat, i: nat)
    requires |x.answers| == |x.headers| && k <= |t.rels|
    ensures NumberOfStubs(arch, TableJobs(arch, x, g, system, t, implicit, k), i)
      == if t.target == i then StubsIn(arch, t.rels[k..]) else 0
    ensures forall j :: j in TableJobs(arch, x, g, system, t, implicit, k) ==> j.sec == t.target
    decreases |t.rels| - k
  {
    hide ViewFor, NeedStub;
    if k < |t.rels| {
      TableCounted(arch, x, g, system, t, implicit, k + 1, i);
      var j := JobFor(arch, x, g, system, t, t.rels[k], implicit);
      var rest := TableJobs(arch, x, g, system, t, implicit, k + 1);
      assert ([j] + rest)[1..] == rest;
      assert t.rels[k..][1..] == t.rels[k + 1..];
    }
  }

  lemma {:induction false} ListCounted(arch: Arch, x: Input, g: map<u64, nat>, system: System, ts: seq<RelTable>,
                                       implicit: bool, i: nat)
    requires |x.answers| == |x.headers| && TargetsExist(InfosFor(arch, x), ts)
    ensures AllActive(InfosFor(arch, x), ListJobs(arch, x, g, system, ts, implicit))
    ensures i < |x.headers| && Active(InfosFor(arch, x)[i]) ==>
      NumberOfStubs(arch, ListJobs(arch, x, g, system, ts, implicit), i) == StubsFor(arch, ts, i)
  {
    hide InfosFor, TableJobs, NumberOfStubs, StubsIn;
    if ts == [] {
      NoneCounted(arch, i);
    } else {
      ListCounted(arch, x, g, system, ts[1..], implicit, i);
      TableCounted(arch, x, g, system, ts[0], implicit, 0, i);
      assert ts[0].rels[0..] == ts[0].rels;
      var infos, rest := InfosFor(arch, x), ListJobs(arch, x, g, system, ts[1..], implicit);
      var own := if Active(infos[ts[0].target]) then TableJobs(arch, x, g, system, ts[0], implicit, 0) else [];
      NoneCounted(arch, i);
      BudgetAppend(arch, own, rest, i);
      OneTarget(infos, own, ts[0].target);
      ActiveBoth(infos, own, rest);
    }
  }

  lemma OneTarget(infos: seq<SectionInfo>, jobs: seq<Job>, i: nat)
    requires (forall j :: j in jobs ==> j.sec == i) && i < |infos| && (jobs != [] ==> Active(infos[i]))
    ensures AllActive(infos, jobs)
  {
  }

  lemma NoneCounted(arch: Arch, i: nat)
    ensures NumberOfStubs(arch, [], i) == 0
  {
  }

  // The relocations that are run are those of loaded sections, and as many were counted for each before loading.
  lemma JobsCounted(arch: Arch, x: Input, g: map<u64, nat>, system: System)
    requires |x.answers| == |x.headers| && TargetsIn(arch, x)
    ensures Counted(arch, x, JobsFor(arch, x, g, system))
  {
    hide InfosFor, ListJobs, NumberOfStubs, StubsFor, RelOf, RelaOf;
    var a, b := ListJobs(arch, x, g, system, RelOf(x), true), ListJobs(arch, x, g, system, RelaOf(x), false);
    ListCounted(arch, x, g, system, RelOf(x), true, 0);
    ListCounted(arch, x, g, system, RelaOf(x), false, 0);
    ActiveBoth(InfosFor(arch, x), a, b);
    forall i | 0 <= i < |x.headers| && Active(InfosFor(arch, x)[i])
      ensures NumberOfStubs(arch, a + b, i) == StubBudget(arch, RelOf(x), RelaOf(x), i)
    {
      ListCounted(arch, x, g, system, RelOf(x), true, i);
      ListCounted(arch, x, g, system, RelaOf(x), false, i);
      BudgetAppend(arch, a, b, i);
    }
  }

  // Slots are ready when the GOT has been filled.
  lemma GotFilled(arch: Arch, x: Input, g: map<u64, nat>, system: System, m: Mem)
    requires |x.answers| == |x.headers| && WellGiven(arch, x) && AllFound(arch, x, g, system)
    requires AllShort(arch, x, g, system)
    requires GotBytes(arch, x) > 0 ==> x.got.Some? && x.got.value > 0 && Mapped(m, x.got.value, GotBytes(arch, x))
    requires Sound(arch, EntriesFor(arch, x, g, system))
    ensures GotReady(arch, x, g, system, FilledFor(arch, x, g, system, m))
  {
    FillableIff(arch, x, g, system, m);
    hide HeaderSyms, WantFor, SlotFor, Slots, AllFound, AllShort, AllFillable, Sound, WellGiven, GotBytes, FillAll,
         Read, WordSize;
    var syms, es := HeaderSyms(x.headers), EntriesFor(arch, x, g, system);
    forall p | 0 <= p < |syms| && NeedSlot(syms[p])
      ensures SlotReady(arch, FilledFor(arch, x, g, system, m), SlotFor(arch, x, p),
                        AddressFor(arch, x, g, system, syms[p]))
    {
      FillAllHolds(arch, m, es, p);
      SlotPlaced(arch, x, m, p);
      GotInLimit(arch, x);
    }
  }

  lemma GotInLimit(arch: Arch, x: Input)
    requires WellGiven(arch, x) && x.got.Some?
    ensures x.got.value + GotBytes(arch, x) <= AddressLimit(arch)
  {
    hide ApartFromAll, GotBytes, RelOf, RelaOf, SectionKindOf;
  }

  lemma EntriesIn(arch: Arch, x: Input, g: map<u64, nat>, system: System, start: nat, size: nat)
    requires |x.answers| == |x.headers| && GotGiven(arch, x, start, size)
    ensures EntriesInside(arch, EntriesFor(arch, x, g, system), start, size)
  {
    hide HeaderSyms, WantFor, SlotFor, GotGiven, WordSize;
    var es := EntriesFor(arch, x, g, system);
    forall p | 0 <= p < |es| && es[p].needed ensures start <= es[p].at && es[p].at + WordSize(arch) <= start + size {
      SlotWithin(arch, x, start, size, p);
    }
  }

  // For a processed object that was resolved
  lemma LinkedWhenRan(arch: Arch, x: Input, g: map<u64, nat>, system: System, m: Mem, end: State)
    requires |x.answers| == |x.headers| && WellGiven(arch, x) && GotGiven(arch, x, GotStart(x), GotBytes(arch, x))
    requires Loads(arch, x) && Resident(arch, x, m)
    requires GotBytes(arch, x) > 0 ==> x.got.Some? && x.got.value > 0 && Mapped(m, x.got.value, GotBytes(arch, x))
    requires TargetsIn(arch, x) && WellFormed(arch, x, g, system, m)
    requires Sound(arch, EntriesFor(arch, x, g, system)) && AllFound(arch, x, g, system) && AllShort(arch, x, g, system)
    requires RunsTo(arch, InfosFor(arch, x), StartFor(x, FilledFor(arch, x, g, system, m)), JobsFor(arch, x, g, system),
                    end)
    ensures IsLinked(arch, x, g, system, m, end)
    ensures forall a :: !Claims(arch, x, a) ==> Same(m, end.mem, a)
  {
    hide Loads, WellGiven, Resident, GotGiven, JobsFor, Sound, AllFound, AllShort, RunsTo, Claims, FillAll, EntriesFor,
         EntriesInside, WellPlaced, HasRoom, RelOf, RelaOf, Relinked, GotReady, GotSafe, InfosFor, GotStart, GotBytes;
    var es, tables, jobs := EntriesFor(arch, x, g, system), StartFor(x, m).tables, JobsFor(arch, x, g, system);
    EntriesIn(arch, x, g, system, GotStart(x), GotBytes(arch, x));
    JobsCounted(arch, x, g, system);
    assert Ran(arch, x, jobs, m, es, GotStart(x), GotBytes(arch, x), tables, end);
    hide Ran;
    RelinkedWhenRan(arch, x, jobs, m, es, GotStart(x), GotBytes(arch, x), tables, end);
    GotSafeWhenRan(arch, x, jobs, m, es, GotStart(x), GotBytes(arch, x), tables, end);
    GotFilled(arch, x, g, system, m);
    KeysKept(arch, x, jobs, m, es, GotStart(x), GotBytes(arch, x), tables, end);
    forall a | !Claims(arch, x, a) ensures Same(m, end.mem, a) {
      if a in m {
        OwnPagesOnly(arch, x, jobs, m, es, GotStart(x), GotBytes(arch, x), tables, end, a);
      }
    }
  }

  // For a well-formed object whose sections and stubs are within branch range: it can be resolved exactly if its
  // symbols are found, at addresses of at most 48 bits, and the code accepts each relocation on the filled GOT. On
  // arm64 no far branch has an addend.
  lemma ResolvesIff(arch: Arch, x: Input, g: map<u64, nat>, system: System, m: Mem)
    requires Loads(arch, x) && Resident(arch, x, m) && TargetsIn(arch, x) && WellFormed(arch, x, g, system, m)
    requires Compact(arch, InfosFor(arch, x), Budgets(arch, RelOf(x), RelaOf(x), |x.headers|))
    requires Again.AllEnter(arch, InfosFor(arch, x), FilledFor(arch, x, g, system, m), JobsFor(arch, x, g, system))
    ensures Resolves(arch, x, g, system, m) <==>
      && AllFound(arch, x, g, system) && AllShort(arch, x, g, system)
      && Again.AllAccepted(arch, InfosFor(arch, x), FilledFor(arch, x, g, system, m), JobsFor(arch, x, g, system))
  {
    hide Loads, Resident, AllFound, AllShort, Again.AllAccepted, Again.AllEnter, JobsFor, InfosFor, FillAll, EntriesFor,
         WellPlaced, HasRoom, Compact, RelOf, RelaOf, TargetsIn, Counted, Run, Fits, Budgets, InPages, GotBytes;
    AnswersThere(arch, x);
    JobsCounted(arch, x, g, system);
    RelocatesIff(arch, x, JobsFor(arch, x, g, system), m, EntriesFor(arch, x, g, system), StartFor(x, m).tables);
  }
}
