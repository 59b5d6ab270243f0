// Resolving an object depends on the pages that loading it asked for, and changes only these: whatever other objects do
// to theirs, it succeeds or fails and ends as it would by itself.
module OwnPages {
  import opened Bits
  import opened Memory
  import opened Types
  import opened Words
  import opened Target
  import opened Plt
  import opened Pass
  import opened Runs
  import opened Budget
  import opened Alike
  import opened Sections
  import opened Objects
  import opened Linker
  import opened Got
  import opened Hash
  import opened Names
  import opened GotFill
  import opened Kinds
  import opened Loading
  import opened Room
  import opened Inputs
  import opened Addresses
  import opened Resolution
  import opened Programs

  // m and r agree on the pages of the object.
  ghost predicate SameClaims(arch: Arch, x: Input, m: Mem, r: Mem)
  {
    forall a :: Claims(arch, x, a) ==> Same(m, r, a)
  }

  // The object is in memory, with its GOT.
  ghost predicate InMemory(arch: Arch, x: Input, m: Mem)
  {
    && WellGiven(arch, x) && Loads(arch, x) && Resident(arch, x, m) && GotGiven(arch, x, GotStart(x), GotBytes(arch, x))
    && (GotBytes(arch, x) > 0 ==> x.got.Some? && x.got.value > 0 && Mapped(m, x.got.value, GotBytes(arch, x)))
  }

  // ---- sections and GOT ----

  lemma ResidentElsewhere(arch: Arch, x: Input, m: Mem, r: Mem)
    requires Loads(arch, x) && Resident(arch, x, m) && WellGiven(arch, x)
    requires forall a :: a in m && Claims(arch, x, a) ==> a in r && r[a] == m[a]
    ensures Resident(arch, x, r)
  {
    assert |x.answers| == |x.headers|;
    hide Loads, WellGiven, Claims, RelOf, RelaOf, Contains, HasPages, Asked, InfosFor;
    forall i | 0 <= i < |x.headers|
      ensures Contains(x.headers[i], r, InfosFor(arch, x)[i])
      ensures HasPages(r, x.answers[i], Asked(arch, x.headers, RelOf(x), RelaOf(x), i))
    {
      assert Contains(x.headers[i], m, InfosFor(arch, x)[i]);
      OneElsewhere(arch, x, m, r, i);
    }
  }

  lemma OneElsewhere(arch: Arch, x: Input, m: Mem, r: Mem, i: nat)
    requires Loads(arch, x) && WellGiven(arch, x) && i < |x.headers|
    requires Contains(x.headers[i], m, InfosFor(arch, x)[i])
    requires HasPages(m, x.answers[i], Asked(arch, x.headers, RelOf(x), RelaOf(x), i))
    requires forall a :: a in m && Claims(arch, x, a) ==> a in r && r[a] == m[a]
    ensures Contains(x.headers[i], r, InfosFor(arch, x)[i])
    ensures HasPages(r, x.answers[i], Asked(arch, x.headers, RelOf(x), RelaOf(x), i))
  {
    var info, asked := InfosFor(arch, x)[i], Asked(arch, x.headers, RelOf(x), RelaOf(x), i);
    if IsImage(info.kind) {
      OnWords(arch, x, i);
    }
    assert |x.answers| == |x.headers|;
    hide Loads, WellGiven, Claims, RelOf, RelaOf, Contains, Asked, InPages, InfosFor;
    if asked > 0 {
      forall a | InPages(x.answers[i].value, asked, a) ensures a in r {
        assert InAnswer(arch, x.headers, RelOf(x), RelaOf(x), x.answers, i, a);
        ClaimedBy(arch, x, i, a);
      }
    }
    if Active(info) {
      forall a | info.start <= a < info.start + info.size && a in m ensures a in r && r[a] == m[a] {
        ImageClaimed(arch, x, i, a);
        ClaimedBy(arch, x, i, a);
      }
    }
    ContainsElsewhere(x.headers[i], info, m, r);
  }

  lemma ClaimedBy(arch: Arch, x: Input, i: nat, a: int)
    requires InAnswer(arch, x.headers, RelOf(x), RelaOf(x), x.answers, i, a)
    ensures Claims(arch, x, a)
  {
  }

  lemma ContainsElsewhere(h: SectionHeader, info: SectionInfo, m: Mem, r: Mem)
    requires Contains(h, m, info) && (IsImage(info.kind) ==> |h.bytes| == info.size)
    requires Active(info) ==> forall a :: info.start <= a < info.start + info.size && a in m ==> a in r && r[a] == m[a]
    ensures Contains(h, r, info)
  {
  }

  lemma InMemoryElsewhere(arch: Arch, x: Input, m: Mem, r: Mem)
    requires InMemory(arch, x, m) && SameClaims(arch, x, m, r)
    ensures InMemory(arch, x, r)
  {
    assert |x.answers| == |x.headers|;
    hide WellGiven, Loads, Resident, Claims, GotBytes;
    ResidentElsewhere(arch, x, m, r);
    var n := GotBytes(arch, x);
    if n > 0 {
      forall a | x.got.value <= a < x.got.value + n ensures a in r {
        GotClaimed(arch, x, GotStart(x), n, a);
      }
    }
  }

  // ---- the filled GOT ----

  lemma FilledFollows(arch: Arch, m: Mem, r: Mem, e: Entry)
    requires e.needed ==> (Mapped(m, e.at, WordSize(arch)) <==> Mapped(r, e.at, WordSize(arch)))
    ensures Follows(m, r, Filled(arch, m, e), Filled(arch, r, e))
  {
    if e.needed && IsMapped(m, e.at, WordSize(arch)) {
      StoreSame(m, r, e.at, ToBytes(e.want, WordSize(arch)));
    }
  }

  lemma {:induction false} FillFollows(arch: Arch, m: Mem, r: Mem, es: seq<Entry>)
    requires forall p :: 0 <= p < |es| && es[p].needed ==>
      Mapped(m, es[p].at, WordSize(arch)) && Mapped(r, es[p].at, WordSize(arch))
    ensures Follows(m, r, FillAll(arch, m, es), FillAll(arch, r, es))
  {
    hide WordSize, Filled, Same;
    if es != [] {
      var n := |es| - 1;
      FillFollows(arch, m, r, es[..n]);
      FillAllKeys(arch, m, es[..n]);
      FillAllKeys(arch, r, es[..n]);
      SameKeysMapped(m, FillAll(arch, m, es[..n]), es[n].at, WordSize(arch));
      SameKeysMapped(r, FillAll(arch, r, es[..n]), es[n].at, WordSize(arch));
      FilledFollows(arch, FillAll(arch, m, es[..n]), FillAll(arch, r, es[..n]), es[n]);
    }
  }

  lemma SameKeysMapped(m: Mem, r: Mem, a: int, n: nat)
    requires m.Keys == r.Keys
    ensures Mapped(m, a, n) <==> Mapped(r, a, n)
  {
    assert forall i :: i in m <==> i in r;
  }

  lemma SlotsMapped(arch: Arch, x: Input, g: map<u64, nat>, system: System, m: Mem)
    requires InMemory(arch, x, m)
    ensures forall p :: 0 <= p < |EntriesFor(arch, x, g, system)| && EntriesFor(arch, x, g, system)[p].needed ==>
      Mapped(m, EntriesFor(arch, x, g, system)[p].at, WordSize(arch))
  {
    assert |x.answers| == |x.headers|;
    hide WellGiven, Loads, Resident, GotBytes, WantFor, SlotFor, HeaderSyms;
    var es := EntriesFor(arch, x, g, system);
    forall p | 0 <= p < |es| && es[p].needed ensures Mapped(m, es[p].at, WordSize(arch)) {
      SlotPlaced(arch, x, m, p);
    }
  }

  lemma FilledAlike(arch: Arch, x: Input, g: map<u64, nat>, system: System, m: Mem, r: Mem)
    requires InMemory(arch, x, m) && InMemory(arch, x, r)
    ensures |x.answers| == |x.headers|
    ensures Follows(m, r, FilledFor(arch, x, g, system, m), FilledFor(arch, x, g, system, r))
  {
    SlotsMapped(arch, x, g, system, m);
    SlotsMapped(arch, x, g, system, r);
    hide InMemory, EntriesFor, FillAll, Follows;
    FillFollows(arch, m, r, EntriesFor(arch, x, g, system));
  }

  // ---- the far targets ----

  lemma {:induction false} FarTargetsSame(arch: Arch, sec: SectionInfo, m: Mem, r: Mem, jobs: seq<Job>, i: nat)
    requires forall k :: 0 <= k < |jobs| && jobs[k].sec == i ==>
      SameOn(m, r, PlaceOf(arch, sec, jobs[k]), Width(arch, jobs[k].rtype))
    ensures FarTargets(arch, sec, m, jobs, i) == FarTargets(arch, sec, r, jobs, i)
  {
    hide PlanOf, PlaceOf, Width;
    if jobs != [] {
      FarTargetsSame(arch, sec, m, r, jobs[1..], i);
      if jobs[0].sec == i {
        PlanSame(arch, sec, m, r, jobs[0]);
      }
    }
  }

  // The bytes of a place belong to the object.
  lemma PlaceClaimed(arch: Arch, x: Input, jobs: seq<Job>, m: Mem, r: Mem, k: nat)
    requires Loads(arch, x) && SameClaims(arch, x, m, r)
    requires WellPlaced(arch, InfosFor(arch, x), jobs) && Counted(arch, x, jobs) && k < |jobs|
    ensures jobs[k].sec < |x.headers|
    ensures SameOn(m, r, PlaceOf(arch, InfosFor(arch, x)[jobs[k].sec], jobs[k]), Width(arch, jobs[k].rtype))
  {
    assert |x.answers| == |x.headers|;
    hide Loads, InfosFor, Claims, PlaceOf, Width, RelOf, RelaOf, NumberOfStubs, ApartPlaces;
    var i, info := jobs[k].sec, InfosFor(arch, x)[jobs[k].sec];
    assert InSection(arch, info, jobs[k]);
    SectionInLimit(arch, x, i);
    PlaceInRegion(arch, info, 0, jobs[k]);
    hide InSection;
    forall a | PlaceOf(arch, info, jobs[k]) <= a < PlaceOf(arch, info, jobs[k]) + Width(arch, jobs[k].rtype)
      ensures (a in m <==> a in r) && (a in m ==> m[a] == r[a])
    {
      ImageClaimed(arch, x, i, a);
      ClaimedBy(arch, x, i, a);
      assert Same(m, r, a);
    }
  }

  lemma SectionInLimit(arch: Arch, x: Input, i: nat)
    requires Loads(arch, x) && i < |x.headers| && Active(InfosFor(arch, x)[i])
    ensures Region(arch, InfosFor(arch, x)[i], 0)
  {
    assert |x.answers| == |x.headers|;
    LoadedInPages(arch, x);
    var n, asked := StubBudget(arch, RelOf(x), RelaOf(x), i), Asked(arch, x.headers, RelOf(x), RelaOf(x), i);
    assert InOwnPages(arch, InfosFor(arch, x)[i], n, asked, x.answers[i]);
    hide Loads, InfosFor, RelOf, RelaOf, StubBudget, MapBytes, Region, InOwnPages;
    RegionWhenRoomy(arch, InfosFor(arch, x)[i], n, asked, x.answers[i], 0);
  }

  lemma RoomAlike(arch: Arch, x: Input, jobs: seq<Job>, m: Mem, r: Mem)
    requires Loads(arch, x) && SameClaims(arch, x, m, r)
    requires WellPlaced(arch, InfosFor(arch, x), jobs) && Counted(arch, x, jobs)
    ensures Far(arch, InfosFor(arch, x), m, jobs) == Far(arch, InfosFor(arch, x), r, jobs)
    ensures HasRoom(arch, InfosFor(arch, x), m, jobs) <==> HasRoom(arch, InfosFor(arch, x), r, jobs)
  {
    assert |x.answers| == |x.headers|;
    hide Loads, InfosFor, SameClaims, PlaceOf, Width, Counted, WellPlaced, FarTargets, NumberOfStubs, Roomy;
    forall i | 0 <= i < |x.headers|
      ensures FarTargets(arch, InfosFor(arch, x)[i], m, jobs, i) == FarTargets(arch, InfosFor(arch, x)[i], r, jobs, i)
    {
      forall k | 0 <= k < |jobs| && jobs[k].sec == i
        ensures SameOn(m, r, PlaceOf(arch, InfosFor(arch, x)[i], jobs[k]), Width(arch, jobs[k].rtype))
      {
        PlaceClaimed(arch, x, jobs, m, r, k);
      }
      FarTargetsSame(arch, InfosFor(arch, x)[i], m, r, jobs, i);
    }
    assert Far(arch, InfosFor(arch, x), m, jobs) == Far(arch, InfosFor(arch, x), r, jobs);
    assert forall i :: 0 <= i < |x.headers| ==>
      FarTargets(arch, InfosFor(arch, x)[i], m, jobs, i) == FarTargets(arch, InfosFor(arch, x)[i], r, jobs, i);
  }

  // ---- resolving ----

  // The state after resolving the object in memory m, if that succeeds
  ghost function LinkedState(arch: Arch, x: Input, g: map<u64, nat>, system: System, m: Mem): State
    requires |x.answers| == |x.headers| && TargetsIn(arch, x)
  {
    var st, jobs := StartFor(x, FilledFor(arch, x, g, system, m)), JobsFor(arch, x, g, system);
    if RunsThrough(arch, InfosFor(arch, x), st, jobs) then Run(arch, InfosFor(arch, x), st, jobs).value else st
  }

  lemma EndIs(arch: Arch, x: Input, g: map<u64, nat>, system: System, m: Mem, end: State)
    requires |x.answers| == |x.headers| && TargetsIn(arch, x)
    requires RunsTo(arch, InfosFor(arch, x), StartFor(x, FilledFor(arch, x, g, system, m)), JobsFor(arch, x, g, system),
                    end)
    ensures LinkedState(arch, x, g, system, m) == end
  {
    hide StartFor, FilledFor, JobsFor, InfosFor, Run;
  }

  lemma ClaimsFollow(arch: Arch, x: Input, m: Mem, r: Mem, p: Mem, q: Mem)
    requires SameClaims(arch, x, m, r) && Follows(m, r, p, q)
    ensures SameClaims(arch, x, p, q)
  {
    hide Claims, Same;
  }

  // A well-formed object is well-formed in all memories that agree on its pages.
  lemma WellFormedElsewhere(arch: Arch, x: Input, g: map<u64, nat>, system: System, m: Mem, r: Mem)
    requires InMemory(arch, x, m) && SameClaims(arch, x, m, r) && TargetsIn(arch, x)
    requires WellFormed(arch, x, g, system, m)
    ensures WellFormed(arch, x, g, system, r)
  {
    assert |x.answers| == |x.headers|;
    InMemoryElsewhere(arch, x, m, r);
    FilledAlike(arch, x, g, system, m, r);
    var p, q := FilledFor(arch, x, g, system, m), FilledFor(arch, x, g, system, r);
    hide WellGiven, Loads, Resident, GotGiven, FilledFor, JobsFor, InfosFor, WellPlaced, HasRoom, SameClaims, Counted,
         Follows;
    ClaimsFollow(arch, x, m, r, p, q);
    JobsCounted(arch, x, g, system);
    RoomAlike(arch, x, JobsFor(arch, x, g, system), p, q);
  }

  lemma RegionsSame(arch: Arch, x: Input, jobs: seq<Job>, m: Mem, r: Mem)
    requires Loads(arch, x) && SameClaims(arch, x, m, r)
    requires Counted(arch, x, jobs) && HasRoom(arch, InfosFor(arch, x), m, jobs)
    ensures SameRegions(arch, InfosFor(arch, x), Far(arch, InfosFor(arch, x), m, jobs), m, r)
  {
    assert |x.answers| == |x.headers|;
    hide Loads, InfosFor, Claims, Counted, HasRoom, FarTargets, Same, End;
    var infos, far := InfosFor(arch, x), Far(arch, InfosFor(arch, x), m, jobs);
    forall i, a | 0 <= i < |infos| && Active(infos[i]) && infos[i].start <= a < End(arch, infos[i], |far[i]|)
      ensures Same(m, r, a)
    {
      assert far[i] == FarTargets(arch, infos[i], m, jobs, i);
      RegionClaimed(arch, x, jobs, m, i, a);
    }
  }

  // Its relocations do the same there.
  lemma RunsElsewhere(arch: Arch, x: Input, jobs: seq<Job>, p: Mem, q: Mem)
    requires Loads(arch, x) && SameClaims(arch, x, p, q) && Counted(arch, x, jobs)
    requires WellPlaced(arch, InfosFor(arch, x), jobs) && HasRoom(arch, InfosFor(arch, x), p, jobs)
    ensures Fits(InfosFor(arch, x), StartFor(x, p), jobs) && Fits(InfosFor(arch, x), StartFor(x, q), jobs)
    ensures var a := Run(arch, InfosFor(arch, x), StartFor(x, p), jobs);
      var b := Run(arch, InfosFor(arch, x), StartFor(x, q), jobs);
      && (a.Ok? <==> b.Ok?)
      && (a.Ok? ==> a.value.tables == b.value.tables && Follows(p, q, a.value.mem, b.value.mem))
  {
    assert |x.answers| == |x.headers|;
    var infos, st := InfosFor(arch, x), StartFor(x, p);
    assert Fits(infos, st, jobs) by { hide InSection, ApartPlaces; }
    hide Loads, InfosFor, Counted, SameClaims, WellPlaced, HasRoom, Far, Follows, Run, Fits, SameRegions, Fresh, Ready;
    RegionsSame(arch, x, jobs, p, q);
    LoadedIsFresh(arch, x, jobs, p, st.tables);
    FreshReady(arch, infos, st, jobs);
    RunAlike(arch, infos, Far(arch, infos, p, jobs), p, st, q, jobs);
  }

  // So whether a well-formed object can be resolved, and how, is decided by its own pages: whatever other objects do
  // to theirs, it ends as it would have.
  lemma ResolvesElsewhere(arch: Arch, x: Input, g: map<u64, nat>, system: System, m: Mem, r: Mem)
    requires InMemory(arch, x, m) && SameClaims(arch, x, m, r) && TargetsIn(arch, x)
    requires WellFormed(arch, x, g, system, m)
    ensures Resolves(arch, x, g, system, m) <==> Resolves(arch, x, g, system, r)
    ensures Resolves(arch, x, g, system, m) ==>
      && LinkedState(arch, x, g, system, m).tables == LinkedState(arch, x, g, system, r).tables
      && SameClaims(arch, x, LinkedState(arch, x, g, system, m).mem, LinkedState(arch, x, g, system, r).mem)
  {
    assert |x.answers| == |x.headers|;
    InMemoryElsewhere(arch, x, m, r);
    FilledAlike(arch, x, g, system, m, r);
    var p, q := FilledFor(arch, x, g, system, m), FilledFor(arch, x, g, system, r);
    hide WellGiven, Loads, Resident, GotGiven, FilledFor, JobsFor, InfosFor, WellPlaced, HasRoom, SameClaims, Counted,
         Follows, Run, Fits, StartFor, AllFound, AllShort, TargetsIn;
    ClaimsFollow(arch, x, m, r, p, q);
    JobsCounted(arch, x, g, system);
    RunsElsewhere(arch, x, JobsFor(arch, x, g, system), p, q);
    if Resolves(arch, x, g, system, m) {
      ClaimsFollow(arch, x, p, q, LinkedState(arch, x, g, system, m).mem, LinkedState(arch, x, g, system, r).mem);
    }
  }

  // ---- the resolved object ----

  lemma SlotsOrdered(es: seq<ElfSym>, p: nat, q: nat)
    requires p < q < |es| && NeedSlot(es[p])
    ensures Slots(es[..p]) < Slots(es[..q])
  {
    assert es[..q][..p] == es[..p];
    SlotsGrow(es[..q], p);
  }

  lemma EntriesApart(arch: Arch, x: Input, g: map<u64, nat>, system: System, p: nat, q: nat)
    requires |x.answers| == |x.headers| && p < q < |HeaderSyms(x.headers)| && x.got.Some?
    ensures ApartEntries(arch, EntryFor(arch, x, g, system, p), EntryFor(arch, x, g, system, q))
  {
    hide HeaderSyms, WantFor, Slots;
    var es := HeaderSyms(x.headers);
    if NeedSlot(es[p]) && NeedSlot(es[q]) {
      SlotsOrdered(es, p, q);
      LastSlot(x.got.value, WordSize(arch), Slots(es[..p]), Slots(es[..q]));
    }
  }

  lemma WantIsWord(arch: Arch, x: Input, g: map<u64, nat>, system: System, e: ElfSym)
    requires |x.answers| == |x.headers| && WordsOnly(arch, g) && forall n :: system(n) < AddressLimit(arch)
    ensures WantFor(arch, x, g, system, e) < Pow2(8 * WordSize(arch))
  {
    WordLimit(arch);
    hide Pow2, WordSize, InfosFor, KnuthHash;
    OwnIsWord(arch, InfosFor(arch, x), e);
    hide OwnAddress;
  }

  // Slots are apart, and what they are to hold fits into them.
  lemma EntriesSound(arch: Arch, x: Input, g: map<u64, nat>, system: System)
    requires |x.answers| == |x.headers| && WordsOnly(arch, g) && forall n :: system(n) < AddressLimit(arch)
    requires GotBytes(arch, x) > 0 ==> x.got.Some?
    ensures Sound(arch, EntriesFor(arch, x, g, system))
  {
    hide HeaderSyms, WantFor, SlotFor, Slots, Pow2, WordsOnly, AddressLimit, WordSize;
    var es, syms := EntriesFor(arch, x, g, system), HeaderSyms(x.headers);
    forall p | 0 <= p < |es| ensures es[p].want < Pow2(8 * WordSize(arch)) {
      WantIsWord(arch, x, g, system, syms[p]);
    }
    forall p, q | 0 <= p < q < |es| ensures ApartEntries(arch, es[p], es[q]) {
      if x.got.Some? {
        EntriesApart(arch, x, g, system, p, q);
      } else {
        NoSlotNeeded(arch, x, p);
      }
    }
  }

  lemma NoSlotNeeded(arch: Arch, x: Input, p: nat)
    requires GotBytes(arch, x) == 0 && p < |HeaderSyms(x.headers)|
    ensures !NeedSlot(HeaderSyms(x.headers)[p])
  {
    hide HeaderSyms;
    if NeedSlot(HeaderSyms(x.headers)[p]) {
      SlotsGrow(HeaderSyms(x.headers), p);
    }
  }

  // A well-formed object that can be resolved is linked in the end, and has changed its own pages only.
  lemma LinkedWhenResolved(arch: Arch, x: Input, g: map<u64, nat>, system: System, m: Mem)
    requires InMemory(arch, x, m) && TargetsIn(arch, x) && WellFormed(arch, x, g, system, m)
    requires Resolves(arch, x, g, system, m)
    requires WordsOnly(arch, g) && forall n :: system(n) < AddressLimit(arch)
    ensures IsLinked(arch, x, g, system, m, LinkedState(arch, x, g, system, m))
    ensures forall a :: !Claims(arch, x, a) ==> Same(m, LinkedState(arch, x, g, system, m).mem, a)
  {
    assert |x.answers| == |x.headers|;
    hide WellGiven, Loads, Resident, GotGiven, FilledFor, JobsFor, InfosFor, WellFormed, Run, Fits, Claims, Sound,
         EntriesFor, Same, StartFor, AllFound, AllShort, TargetsIn, IsLinked, WordsOnly, AddressLimit, GotBytes;
    EntriesSound(arch, x, g, system);
    LinkedWhenRan(arch, x, g, system, m, LinkedState(arch, x, g, system, m));
  }

  ghost predicate SystemWords(arch: Arch, system: System)
  {
    forall n :: system(n) < AddressLimit(arch)
  }

  // The well-formed object was loaded, so that memory was m, and resolved; memory now still has its pages as that left
  // them.
  ghost predicate IsLinkedIn(arch: Arch, x: Input, g: map<u64, nat>, system: System, m: Mem, now: Mem)
  {
    && InMemory(arch, x, m) && TargetsIn(arch, x) && WellFormed(arch, x, g, system, m)
    && Resolves(arch, x, g, system, m)
    && WordsOnly(arch, g) && SystemWords(arch, system)
    && SameClaims(arch, x, LinkedState(arch, x, g, system, m).mem, now)
  }

  lemma LinkedAtOnce(arch: Arch, x: Input, g: map<u64, nat>, system: System, m: Mem)
    requires InMemory(arch, x, m) && TargetsIn(arch, x) && WellFormed(arch, x, g, system, m)
    requires Resolves(arch, x, g, system, m)
    requires WordsOnly(arch, g) && forall n :: system(n) < AddressLimit(arch)
    ensures IsLinkedIn(arch, x, g, system, m, LinkedState(arch, x, g, system, m).mem)
  {
    hide InMemory, TargetsIn, WellFormed, Resolves, WordsOnly, AddressLimit, Claims, LinkedState;
  }

  lemma RegionsKept(arch: Arch, x: Input, jobs: seq<Job>, m: Mem, r: Mem, now: Mem)
    requires Loads(arch, x) && Counted(arch, x, jobs) && HasRoom(arch, InfosFor(arch, x), m, jobs)
    requires SameClaims(arch, x, r, now)
    ensures KeepsRegions(arch, InfosFor(arch, x), m, jobs, r, now)
  {
    assert |x.answers| == |x.headers|;
    hide Loads, InfosFor, Claims, Counted, HasRoom, FarTargets, End;
    var infos := InfosFor(arch, x);
    forall i, a | 0 <= i < |infos| && Active(infos[i]) && a in r && InRegion(arch, infos, m, jobs, i, a)
      ensures a in now && now[a] == r[a]
    {
      RegionClaimed(arch, x, jobs, m, i, a);
      assert Same(r, now, a);
    }
  }

  // Sections, stubs and GOT are then as the pass left them.
  lemma LinkedRegions(arch: Arch, x: Input, g: map<u64, nat>, system: System, m: Mem, now: Mem)
    requires IsLinkedIn(arch, x, g, system, m, now)
    ensures |x.answers| == |x.headers| && TargetsIn(arch, x)
    ensures IsLinked(arch, x, g, system, m, LinkedState(arch, x, g, system, m))
    ensures KeepsRegions(arch, InfosFor(arch, x), FilledFor(arch, x, g, system, m), JobsFor(arch, x, g, system),
                         LinkedState(arch, x, g, system, m).mem, now)
  {
    assert |x.answers| == |x.headers|;
    LinkedWhenResolved(arch, x, g, system, m);
    hide WellGiven, Loads, Resident, GotGiven, FilledFor, JobsFor, InfosFor, SameClaims, Resolves, LinkedState,
         WordsOnly, TargetsIn, IsLinked, WellPlaced, HasRoom, Counted, KeepsRegions, SystemWords, GotBytes;
    JobsCounted(arch, x, g, system);
    RegionsKept(arch, x, JobsFor(arch, x, g, system), FilledFor(arch, x, g, system, m),
                LinkedState(arch, x, g, system, m).mem, now);
  }
}
