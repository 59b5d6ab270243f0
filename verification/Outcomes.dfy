// Whether an object can be resolved, read off its file: the condition on every relocation, with the word that the file
// has at its place.
module Outcomes {
  import opened Memory
  import opened Types
  import opened Words
  import opened Target
  import opened Pass
  import opened Runs
  import opened Budget
  import opened Checks
  import opened Kinds
  import opened Objects
  import opened Linker
  import opened GotFill
  import opened Loading
  import opened Room
  import opened Inputs
  import opened Resolution
  import opened Programs
  import opened OwnPages
  import opened Files

  // the word at the place before anything is relocated
  function WordBefore(x: Input, h: nat, q: nat): u32
    requires IsRelocation(x, h, q)
  {
    if IsFromFile(x.headers[x.headers[h].info]) then WordIn(x, h, q) else 0
  }

  // The code accepts relocation q of section h.
  predicate FileAccepts(arch: Arch, x: Input, g: map<u64, nat>, system: System, h: nat, q: nat)
    requires |x.answers| == |x.headers| && IsRelocation(x, h, q)
  {
    var s, rel := x.headers[h], x.headers[h].rels[q];
    var v, P := ViewFor(arch, x, g, system, s.link, rel.sym), PlaceIn(arch, x, h, q);
    && v.Some? && P != 0
    && var S, G := Addr(arch, v.value.addr), Addr(arch, v.value.gotAddr);
       if arch.AArch64? then
         s.shType == 4 && S != 0 && Accepts64(rel.rtype, P, S, G, rel.addend, WordBefore(x, h, q))
       else Accepts32(rel.rtype, S, G, s.shType == 9, WordBefore(x, h, q))
  }

  ghost predicate FileAcceptsAll(arch: Arch, x: Input, g: map<u64, nat>, system: System)
    requires |x.answers| == |x.headers|
  {
    forall h, q :: IsRelocation(x, h, q) ==> FileAccepts(arch, x, g, system, h, q)
  }

  // ---- the place ----

  lemma ImageSize(arch: Arch, x: Input, i: nat)
    requires WellGiven(arch, x) && i < |x.headers| && IsFromFile(x.headers[i])
    ensures |x.answers| == |x.headers| && |x.headers[i].bytes| == InfosFor(arch, x)[i].size
  {
    KindIs(x.headers[i]);
    hide ApartFromAll, GotBytes, RelOf, RelaOf, MapBytes, StubBudget, IsFromFile, IsZeroed, IsText;
    assert SectionKindOf(x.headers[i]).Ok? && IsImage(SectionKindOf(x.headers[i]).value);
  }

  lemma LoadedByte(arch: Arch, x: Input, m: Mem, i: nat, a: int)
    requires WellGiven(arch, x) && |x.answers| == |x.headers| && Resident(arch, x, m)
    requires i < |x.headers| && IsLoadedKind(x.headers[i])
    requires InfosFor(arch, x)[i].start <= a < InfosFor(arch, x)[i].start + InfosFor(arch, x)[i].size
    ensures a in m
    ensures m[a] == if IsFromFile(x.headers[i]) then FileByte(x.headers[i], a - InfosFor(arch, x)[i].start) else 0
  {
    InfoKinds(arch, x, i);
    if IsFromFile(x.headers[i]) {
      ImageSize(arch, x, i);
    }
    hide WellGiven, InfosFor, IsFromFile, IsZeroed, HasPages, Asked, RelOf, RelaOf;
    assert Contains(x.headers[i], m, InfosFor(arch, x)[i]);
  }

  // Bytes of a loaded section are as loading left them when the GOT has been filled.
  lemma SectionByte(arch: Arch, x: Input, g: map<u64, nat>, system: System, m: Mem, i: nat, a: int)
    requires InMemory(arch, x, m) && i < |x.headers| && IsLoadedKind(x.headers[i])
    requires InfosFor(arch, x)[i].start <= a < InfosFor(arch, x)[i].start + InfosFor(arch, x)[i].size
    ensures |x.answers| == |x.headers| && a in FilledFor(arch, x, g, system, m)
    ensures FilledFor(arch, x, g, system, m)[a]
      == if IsFromFile(x.headers[i]) then FileByte(x.headers[i], a - InfosFor(arch, x)[i].start) else 0
  {
    assert |x.answers| == |x.headers| by { AnswersThere(arch, x); }
    hide Loads, WellGiven, GotGiven, InfosFor, FillAll, IsLoadedKind, EntriesFor, Resident, FileByte, GotBytes;
    LoadedByte(arch, x, m, i, a);
    InfoKinds(arch, x, i);
    EntriesIn(arch, x, g, system, GotStart(x), GotBytes(arch, x));
    ByteFilled(arch, x, m, EntriesFor(arch, x, g, system), GotStart(x), GotBytes(arch, x), i, a);
  }

  // The place of a relocation inside its section
  lemma PlaceInside(arch: Arch, x: Input, h: nat, q: nat)
    requires Loads(arch, x) && |x.answers| == |x.headers| && IsRelocation(x, h, q)
    requires var info := InfosFor(arch, x)[x.headers[h].info];
      x.headers[h].rels[q].offset + PlaceSize(arch, x.headers[h].rels[q].rtype) <= info.size
    ensures var info := InfosFor(arch, x)[x.headers[h].info];
      && PlaceIn(arch, x, h, q) == info.start + x.headers[h].rels[q].offset && 0 <= info.start
      && info.start + info.size <= Limit(arch)
      && PlaceIn(arch, x, h, q) + PlaceSize(arch, x.headers[h].rels[q].rtype) <= info.start + info.size
  {
    InfoKinds(arch, x, x.headers[h].info);
    hide Loads, InfosFor, IsLoadedKind, RelOf, RelaOf, PlaceSize;
    SectionInLimit(arch, x, x.headers[h].info);
    SizePositive(arch, x.headers[h].rels[q].rtype);
  }

  lemma SizePositive(arch: Arch, t: nat)
    ensures PlaceSize(arch, t) > 0
  {
  }

  lemma ZeroWord(m: Mem, a: int)
    requires Mapped(m, a, 4) && forall i :: a <= i < a + 4 ==> m[i] == 0
    ensures Read(m, a, 4) == 0
  {
    ZeroBytes(Load(m, a, 4));
  }

  lemma {:induction false} ZeroBytes(bs: seq<u8>)
    requires forall i :: 0 <= i < |bs| ==> bs[i] == 0
    ensures FromBytes(bs) == 0
  {
    if bs != [] {
      ZeroBytes(bs[1..]);
    }
  }

  lemma WordOfBytes(h: SectionHeader, m: Mem, start: int, offset: nat)
    requires IsFromFile(h) && offset + 4 <= |h.bytes| && Mapped(m, start + offset, 4)
    requires forall a :: start + offset <= a < start + offset + 4 ==> m[a] == FileByte(h, a - start)
    ensures Read(m, start + offset, 4) == FileWord(h, offset)
  {
    hide IsFromFile;
    assert Load(m, start + offset, 4) == h.bytes[offset..offset + 4];
  }

  lemma PlaceRead(arch: Arch, x: Input, g: map<u64, nat>, system: System, m: Mem, h: nat, q: nat)
    requires InMemory(arch, x, m) && |x.answers| == |x.headers| && IsRelocation(x, h, q)
    requires var info := InfosFor(arch, x)[x.headers[h].info];
      x.headers[h].rels[q].offset + PlaceSize(arch, x.headers[h].rels[q].rtype) <= info.size
    ensures var P, n := PlaceIn(arch, x, h, q), PlaceSize(arch, x.headers[h].rels[q].rtype);
      && Mapped(FilledFor(arch, x, g, system, m), P, n)
      && (n == 4 ==> Read(FilledFor(arch, x, g, system, m), P, n) == WordBefore(x, h, q))
  {
    hide Loads, WellGiven, GotGiven, InfosFor, FilledFor, IsLoadedKind, Resident, FileByte, PlaceSize, GotBytes,
         FileWord, Read, IsFromFile, PlaceIn;
    PlaceInside(arch, x, h, q);
    var i, rel, r := x.headers[h].info, x.headers[h].rels[q], FilledFor(arch, x, g, system, m);
    var P, n, start := PlaceIn(arch, x, h, q), PlaceSize(arch, rel.rtype), InfosFor(arch, x)[i].start;
    forall a | P <= a < P + n
      ensures a in r && r[a] == if IsFromFile(x.headers[i]) then FileByte(x.headers[i], a - start) else 0
    {
      SectionByte(arch, x, g, system, m, i, a);
    }
    if n == 4 {
      if IsFromFile(x.headers[i]) {
        ImageSize(arch, x, i);
        WordOfBytes(x.headers[i], r, start, rel.offset);
      } else {
        ZeroWord(r, P);
      }
    }
  }

  // ---- one relocation ----

  lemma DataWordsAny(t: nat, P: u64, S: u64, G: u64, A: int, w: u32, v: u32)
    requires PlaceSize(AArch64, t) != 4
    ensures Accepts64(t, P, S, G, A, w) == Accepts64(t, P, S, G, A, v)
  {
  }

  // The place as the code sees it
  lemma PlaceFacts(arch: Arch, x: Input, g: map<u64, nat>, system: System, m: Mem, h: nat, q: nat)
    requires InMemory(arch, x, m) && |x.answers| == |x.headers| && IsRelocation(x, h, q)
    requires InSection(arch, InfosFor(arch, x)[x.headers[h].info], FileJob(arch, x, g, system, h, q))
    ensures var P, n := PlaceIn(arch, x, h, q), PlaceSize(arch, x.headers[h].rels[q].rtype);
      && Mapped(FilledFor(arch, x, g, system, m), P, n)
      && (n == 4 ==> U32(Read(FilledFor(arch, x, g, system, m), P, n)) == WordBefore(x, h, q))
      && (arch.AArch64? ==> P < 0x1_0000_0000_0000_0000 && (P != 0 ==> AtPlace64(InfosFor(arch, x)[x.headers[h].info],
                                                                                 P)))
  {
    SizeIsWidth(arch, x.headers[h].rels[q].rtype);
    hide Loads, WellGiven, GotGiven, InfosFor, FilledFor, Resident, PlaceSize, Width, GotBytes, FileWord, Read,
         IsFromFile, IsZeroed, ViewFor, U64, U32, PlaceIn, WordBefore, IsRelocation, WellGiven, InMemory, AtPlace64;
    PlaceRead(arch, x, g, system, m, h, q);
    PlaceInside(arch, x, h, q);
    var info := InfosFor(arch, x)[x.headers[h].info];
    WordWraps(arch, FilledFor(arch, x, g, system, m), PlaceIn(arch, x, h, q),
              PlaceSize(arch, x.headers[h].rels[q].rtype),
              WordBefore(x, h, q));
    if arch.AArch64? {
      EndWraps(info.start + info.size);
      PlaceBetween(info, PlaceIn(arch, x, h, q));
    }
  }

  lemma PlaceBetween(sec: SectionInfo, P: int)
    requires 0 <= sec.start <= P <= sec.start + sec.size <= Limit(AArch64)
    ensures P < 0x1_0000_0000_0000_0000 && (P != 0 ==> AtPlace64(sec, P))
  {
  }

  lemma OneAccepted64(x: Input, g: map<u64, nat>, system: System, m: Mem, h: nat, q: nat)
    requires InMemory(AArch64, x, m) && |x.answers| == |x.headers| && IsRelocation(x, h, q)
    requires InSection(AArch64, InfosFor(AArch64, x)[x.headers[h].info], FileJob(AArch64, x, g, system, h, q))
    ensures Accepted(AArch64, InfosFor(AArch64, x)[x.headers[h].info], FilledFor(AArch64, x, g, system, m),
                     FileJob(AArch64, x, g, system, h, q))
      <==> FileAccepts(AArch64, x, g, system, h, q)
  {
    hide InMemory, InSection, InfosFor, FilledFor, PlaceSize, Read, IsFromFile, IsZeroed, Accepts64, ViewFor, U64, U32,
         WordBefore, AtPlace64;
    PlaceFacts(AArch64, x, g, system, m, h, q);
    var rel, r := x.headers[h].rels[q], FilledFor(AArch64, x, g, system, m);
    var P, n := PlaceIn(AArch64, x, h, q), PlaceSize(AArch64, rel.rtype);
    var v := ViewFor(AArch64, x, g, system, x.headers[h].link, rel.sym);
    PlaceZero(InfosFor(AArch64, x)[x.headers[h].info], P);
    if v.Some? && n != 4 {
      DataWordsAny(rel.rtype, P, U64(v.value.addr), U64(v.value.gotAddr), rel.addend, U32(Read(r, P, n)),
                   WordBefore(x, h, q));
    }
  }

  lemma PlaceZero(sec: SectionInfo, P: u64)
    ensures P == 0 ==> !AtPlace64(sec, P)
  {
  }

  lemma OneAccepted32(x: Input, g: map<u64, nat>, system: System, m: Mem, h: nat, q: nat)
    requires InMemory(AArch32, x, m) && |x.answers| == |x.headers| && IsRelocation(x, h, q)
    requires InSection(AArch32, InfosFor(AArch32, x)[x.headers[h].info], FileJob(AArch32, x, g, system, h, q))
    ensures Accepted(AArch32, InfosFor(AArch32, x)[x.headers[h].info], FilledFor(AArch32, x, g, system, m),
                     FileJob(AArch32, x, g, system, h, q))
      <==> FileAccepts(AArch32, x, g, system, h, q)
  {
    hide InMemory, InSection, InfosFor, FilledFor, Read, IsFromFile, IsZeroed, Accepts32, ViewFor, U32, WordBefore;
    PlaceFacts(AArch32, x, g, system, m, h, q);
  }

  lemma OneAccepted(arch: Arch, x: Input, g: map<u64, nat>, system: System, m: Mem, h: nat, q: nat)
    requires InMemory(arch, x, m) && |x.answers| == |x.headers| && IsRelocation(x, h, q)
    requires InSection(arch, InfosFor(arch, x)[x.headers[h].info], FileJob(arch, x, g, system, h, q))
    ensures Accepted(arch, InfosFor(arch, x)[x.headers[h].info], FilledFor(arch, x, g, system, m),
                     FileJob(arch, x, g, system, h, q))
      <==> FileAccepts(arch, x, g, system, h, q)
  {
    hide InMemory, InSection, InfosFor, FilledFor, Accepted, FileAccepts, FileJob, IsRelocation;
    if arch.AArch64? {
      OneAccepted64(x, g, system, m, h, q);
    } else {
      OneAccepted32(x, g, system, m, h, q);
    }
  }

  lemma WordWraps(arch: Arch, m: Mem, P: int, n: nat, w: u32)
    requires Mapped(m, P, n) && (n == 4 ==> Read(m, P, n) == w)
    ensures n == 4 ==> U32(Read(m, P, n)) == w
  {
    hide Read;
  }

  lemma EndWraps(a: int)
    requires 0 <= a <= Limit(AArch64)
    ensures U64(a) == a
  {
  }

  lemma SizeOn32(t: nat)
    ensures PlaceSize(AArch32, t) == 4
  {
  }

  // ---- all of them ----

  lemma AllAcceptedIff(arch: Arch, x: Input, g: map<u64, nat>, system: System, m: Mem)
    requires InMemory(arch, x, m) && |x.answers| == |x.headers| && TargetsIn(arch, x)
    requires WellPlaced(arch, InfosFor(arch, x), JobsFor(arch, x, g, system))
    ensures Again.AllAccepted(arch, InfosFor(arch, x), FilledFor(arch, x, g, system, m), JobsFor(arch, x, g, system))
      <==> FileAcceptsAll(arch, x, g, system)
  {
    hide InMemory, InSection, InfosFor, FilledFor, Accepted, FileAccepts, JobsFor, IsRelocation, TargetsIn, ApartPlaces,
         FileJob;
    var infos, r, jobs := InfosFor(arch, x), FilledFor(arch, x, g, system, m), JobsFor(arch, x, g, system);
    if FileAcceptsAll(arch, x, g, system) {
      forall k | 0 <= k < |jobs| ensures jobs[k].sec < |infos| && Accepted(arch, infos[jobs[k].sec], r, jobs[k]) {
        JobAccepted(arch, x, g, system, m, k);
      }
    }
    if Again.AllAccepted(arch, infos, r, jobs) {
      forall h, q | IsRelocation(x, h, q) ensures FileAccepts(arch, x, g, system, h, q) {
        RelocationAccepted(arch, x, g, system, m, h, q);
      }
    }
  }

  lemma JobAccepted(arch: Arch, x: Input, g: map<u64, nat>, system: System, m: Mem, k: nat)
    requires InMemory(arch, x, m) && |x.answers| == |x.headers| && TargetsIn(arch, x)
    requires k < |JobsFor(arch, x, g, system)|
    requires WellPlaced(arch, InfosFor(arch, x), JobsFor(arch, x, g, system)) && FileAcceptsAll(arch, x, g, system)
    ensures var j := JobsFor(arch, x, g, system)[k];
      j.sec < |x.headers| && Accepted(arch, InfosFor(arch, x)[j.sec], FilledFor(arch, x, g, system, m), j)
  {
    hide InMemory, InSection, InfosFor, FilledFor, Accepted, FileAccepts, JobsFor, TargetsIn, ApartPlaces, ViewFor,
         IsFromFile, IsZeroed;
    var h, q := EveryJobIsOne(arch, x, g, system, k);
    OneAccepted(arch, x, g, system, m, h, q);
    assert FileAccepts(arch, x, g, system, h, q);
  }

  lemma RelocationAccepted(arch: Arch, x: Input, g: map<u64, nat>, system: System, m: Mem, h: nat, q: nat)
    requires InMemory(arch, x, m) && |x.answers| == |x.headers| && TargetsIn(arch, x) && IsRelocation(x, h, q)
    requires WellPlaced(arch, InfosFor(arch, x), JobsFor(arch, x, g, system))
    requires Again.AllAccepted(arch, InfosFor(arch, x), FilledFor(arch, x, g, system, m), JobsFor(arch, x, g, system))
    ensures FileAccepts(arch, x, g, system, h, q)
  {
    hide InMemory, InSection, InfosFor, FilledFor, Accepted, FileAccepts, JobsFor, TargetsIn, ApartPlaces, ViewFor,
         IsFromFile, IsZeroed;
    var k := EveryRelocationRuns(arch, x, g, system, h, q);
    var jobs := JobsFor(arch, x, g, system);
    assert Accepted(arch, InfosFor(arch, x)[jobs[k].sec], FilledFor(arch, x, g, system, m), jobs[k]);
    OneAccepted(arch, x, g, system, m, h, q);
  }

  // ---- the whole object ----

  // On arm64 no branch that is out of range has an addend.
  ghost predicate FarWithoutAddend(arch: Arch, x: Input, g: map<u64, nat>, system: System)
    requires |x.answers| == |x.headers|
  {
    arch.AArch64? ==> forall h, q :: IsRelocation(x, h, q) ==> EntersAtStart(x, g, system, h, q)
  }

  predicate EntersAtStart(x: Input, g: map<u64, nat>, system: System, h: nat, q: nat)
    requires |x.answers| == |x.headers| && IsRelocation(x, h, q)
  {
    var rel := x.headers[h].rels[q];
    var v := ViewFor(AArch64, x, g, system, x.headers[h].link, rel.sym);
    v.Some? && (rel.rtype == 0x11a || rel.rtype == 0x11b) ==>
      rel.addend == 0 || -0x800_0000 <= S64(U64(v.value.addr) + rel.addend - PlaceIn(AArch64, x, h, q)) < 0x800_0000
  }

  lemma FarIsOutOfRange(t: nat, sec: SectionInfo, P: u64, S: u64, G: u64, A: int)
    requires Arm64.Compute(t, sec, P, S, G, A).Ok? && Arm64.Compute(t, sec, P, S, G, A).value.Via?
    ensures (t == 0x11a || t == 0x11b) && !(-0x800_0000 <= S64(S + A - P) < 0x800_0000)
  {
    Ranges(S64(S + A - P));
    hide S64, U64, IsInt64;
  }

  lemma FarFacts(sec: SectionInfo, m: Mem, j: Job)
    requires IsFar(AArch64, sec, m, j)
    ensures j.symbol.Some? && (j.rtype == 0x11a || j.rtype == 0x11b)
    ensures !(-0x800_0000 <= S64(U64(j.symbol.value.addr) + j.addend - PlaceOf(AArch64, sec, j)) < 0x800_0000)
  {
    hide PlaceOf, Arm64.Compute, S64, U64, Width;
    assert j.symbol.Some? && !j.implicit;
    Again.PlanIs64(sec, m, j);
    hide PlanOf;
    FarIsOutOfRange(j.rtype, sec, PlaceOf(AArch64, sec, j), U64(j.symbol.value.addr), U64(j.symbol.value.gotAddr),
                    j.addend);
  }

  lemma JobEnters(x: Input, g: map<u64, nat>, system: System, m: Mem, h: nat, q: nat)
    requires |x.answers| == |x.headers| && IsRelocation(x, h, q) && EntersAtStart(x, g, system, h, q)
    ensures Again.EntersStub(AArch64, InfosFor(AArch64, x)[x.headers[h].info], m, FileJob(AArch64, x, g, system, h, q))
  {
    hide InfosFor, ViewFor, IsLoadedKind, IsFar, S64, U64, FileJob, PlaceOf, PlaceIn;
    var sec, j := InfosFor(AArch64, x)[x.headers[h].info], FileJob(AArch64, x, g, system, h, q);
    FileJobIs(x, g, system, h, q);
    if IsFar(AArch64, sec, m, j) {
      FarFacts(sec, m, j);
    }
  }

  lemma FileJobIs(x: Input, g: map<u64, nat>, system: System, h: nat, q: nat)
    requires |x.answers| == |x.headers| && IsRelocation(x, h, q)
    ensures var j, rel := FileJob(AArch64, x, g, system, h, q), x.headers[h].rels[q];
      && j.rtype == rel.rtype && j.addend == rel.addend
      && j.symbol == ViewFor(AArch64, x, g, system, x.headers[h].link, rel.sym)
      && PlaceOf(AArch64, InfosFor(AArch64, x)[x.headers[h].info], j) == PlaceIn(AArch64, x, h, q)
  {
    hide InfosFor, ViewFor, IsLoadedKind, Addr;
  }

  lemma AllEnterAtStart(arch: Arch, x: Input, g: map<u64, nat>, system: System, m: Mem)
    requires |x.answers| == |x.headers| && TargetsIn(arch, x) && FarWithoutAddend(arch, x, g, system)
    ensures Again.AllEnter(arch, InfosFor(arch, x), m, JobsFor(arch, x, g, system))
  {
    hide InfosFor, JobsFor, IsRelocation, TargetsIn, FileJob, IsFar, EntersAtStart;
    var infos, jobs := InfosFor(arch, x), JobsFor(arch, x, g, system);
    forall k | 0 <= k < |jobs| ensures jobs[k].sec < |infos| && Again.EntersStub(arch, infos[jobs[k].sec], m, jobs[k]) {
      var h, q := EveryJobIsOne(arch, x, g, system, k);
      FileJobTarget(arch, x, g, system, h, q);
      if arch.AArch64? {
        JobEnters(x, g, system, m, h, q);
      }
    }
  }

  lemma FileJobTarget(arch: Arch, x: Input, g: map<u64, nat>, system: System, h: nat, q: nat)
    requires |x.answers| == |x.headers| && IsRelocation(x, h, q)
    ensures FileJob(arch, x, g, system, h, q).sec == x.headers[h].info < |x.headers|
  {
    hide ViewFor, IsLoadedKind;
  }

  // A well-formed object in memory whose sections and stubs are within branch range, with no addend left behind a stub,
  // can be resolved exactly if its symbols are found, at addresses of at most 48 bits, and the code accepts each of its
  // relocations as the file has it.
  lemma ResolvesByFile(arch: Arch, x: Input, g: map<u64, nat>, system: System, m: Mem)
    requires InMemory(arch, x, m) && TargetsIn(arch, x) && WellFormed(arch, x, g, system, m)
    requires Compact(arch, InfosFor(arch, x), Budgets(arch, RelOf(x), RelaOf(x), |x.headers|))
    requires FarWithoutAddend(arch, x, g, system)
    ensures Resolves(arch, x, g, system, m) <==>
      AllFound(arch, x, g, system) && AllShort(arch, x, g, system) && FileAcceptsAll(arch, x, g, system)
  {
    assert |x.answers| == |x.headers| by { AnswersThere(arch, x); }
    AllEnterAtStart(arch, x, g, system, FilledFor(arch, x, g, system, m));
    hide Resolves, AllFound, AllShort, FileAcceptsAll, FarWithoutAddend, Compact, Budgets, RelOf, RelaOf, InfosFor,
         JobsFor, FilledFor, TargetsIn, WellPlaced, HasRoom, WellGiven, Loads, Resident, GotGiven, GotBytes,
         Again.AllEnter, Again.AllAccepted;
    ResolvesIff(arch, x, g, system, m);
    AllAcceptedIff(arch, x, g, system, m);
  }
}
