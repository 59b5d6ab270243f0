// Loading an object and resolving it: what becomes of its file, as a value.
module Linking {
  import opened Memory
  import opened Results
  import opened Words
  import opened Target
  import opened Runs
  import opened Sections
  import opened Objects
  import opened Linker
  import opened Got
  import opened NameKeys
  import opened Inputs
  import opened Names
  import opened Addresses
  import opened Resolution
  import opened Programs
  import opened OwnPages
  import opened ObjectCodes
  import opened LoadOrder

  // The object can be loaded beside the addresses g and then resolved.
  ghost predicate Links(arch: Arch, x: Input, g: map<u64, nat>, system: System, m: Mem)
    requires |x.answers| == |x.headers| && TargetsIn(arch, x)
  {
    Outcome(arch, x, g).Ok? && Resolves(arch, x, Outcome(arch, x, g).value, system, LoadedMemory(arch, x, m))
  }

  // processObject and resolveObject. Both succeed exactly if the object can be loaded and resolved, which its input,
  // the addresses known, the system and memory decide; its relocations are those of its file then, run over the filled
  // GOT. A well-formed object with room for its stubs is linked, and no memory that was there before has changed.
  method LoadAndResolve(arch: Arch, l: Linker, system: System, mem: Ram, oc: ObjectCode, x: Input) returns (ok: bool)
    requires l.Valid() && l.Defined() && oc.Matches(x) && SystemAnswers(arch, mem.cells, x) && TargetsIn(arch, x)
    requires forall e :: e in HeaderSyms(oc.headers) ==> SectionSymbolLocal(e)
    requires WordsOnly(arch, l.Addresses()) && forall n :: system(n) < AddressLimit(arch)
    modifies oc, mem, l`entered, l.gsyms, l.gsyms.repr
    ensures ok <==> Links(arch, x, old(l.Addresses()), system, old(mem.cells))
    ensures ok ==> oc.Matches(x) && l.Valid() && l.Defined()
    ensures ok ==> Outcome(arch, x, old(l.Addresses())) == Ok(l.Addresses())
    ensures ok ==> SymbolsResolved(arch, x, l.Addresses(), system, oc.flat)
    ensures ok ==> var m := LoadedMemory(arch, x, old(mem.cells));
      && RunsTo(arch, InfosFor(arch, x), StartFor(x, FilledFor(arch, x, l.Addresses(), system, m)),
                JobsFor(arch, x, l.Addresses(), system), StateOf(mem, oc.sections))
      && (WellFormed(arch, x, l.Addresses(), system, m) ==>
            && IsLinkedIn(arch, x, l.Addresses(), system, m, mem.cells)
            && forall a :: !Claims(arch, x, a) ==> Same(old(mem.cells), mem.cells, a))
  {
    hide SystemAnswers, IsLinked, IsLinkedIn, Claims, InMemory, ObjectCode.Processed, BinaryTree.Contents,
         BinaryTree.Nodes, BinaryTree.Linked, BinaryTree.Ordered, Same, LinkedState, Claimed, HasContents, HeaderSyms,
         SectionSymbolLocal, WordsOnly, AddressLimit, TargetsIn, Outcome, EnterAll, NamesWritten, Keyed, InfosOf,
         ExportsNamed, ExportsOf, Resolves, SymbolsResolved, RunsTo, StartFor, FilledFor, JobsFor, InfosFor, WellFormed,
         LoadedMemory;
    ghost var g, m0 := l.Addresses(), mem.cells;
    ok := oc.Process(arch, l, system, mem, x);
    if !ok {
      return;
    }
    OutcomeAreWords(arch, x, g);
    LoadedMemoryIs(arch, x, m0, mem.cells);
    ghost var m, h := mem.cells, l.Addresses();
    oc.IsInMemory(arch, x, m);
    ok := oc.Resolve(arch, l, system, mem, x);
    if ok {
      EndIs(arch, x, h, system, m, StateOf(mem, oc.sections));
      if WellFormed(arch, x, h, system, m) {
        LinkedAtOnce(arch, x, h, system, m);
        OnlyClaims(arch, x, m0, m, mem.cells);
      }
    }
  }

  lemma OnlyClaims(arch: Arch, x: Input, m0: Mem, m: Mem, r: Mem)
    requires Claimed(arch, x, m0, m) && forall a :: !Claims(arch, x, a) ==> Same(m, r, a)
    ensures forall a :: !Claims(arch, x, a) ==> Same(m0, r, a)
  {
    hide Claims;
    forall a | !Claims(arch, x, a) ensures Same(m0, r, a) {
      assert Same(m, r, a);
    }
  }

  // ---- several objects ----

  ghost function SectionsOf(ocs: seq<ObjectCode>): set<Section>
    reads ocs
  {
    set i, s | 0 <= i < |ocs| && s in ocs[i].sections :: s
  }

  ghost function SymbolsIn(ocs: seq<ObjectCode>): set<ElfSymbol>
    reads ocs
  {
    set i, s | 0 <= i < |ocs| && s in ocs[i].flat :: s
  }

  // The object ended as if it had been resolved by itself, in memory m: its symbols, its stubs, and its pages in r.
  ghost predicate Ended(arch: Arch, x: Input, oc: ObjectCode, g: map<u64, nat>, system: System, m: Mem, r: Mem)
    requires |x.answers| == |x.headers| && TargetsIn(arch, x)
    reads oc, set s | s in oc.sections, set s | s in oc.flat
  {
    && SymbolsResolved(arch, x, g, system, oc.flat) && StubsOf(oc.sections) == LinkedState(arch, x, g, system, m).tables
    && SameClaims(arch, x, LinkedState(arch, x, g, system, m).mem, r)
  }

  // resolveObject, while other objects have changed their pages since memory was m
  method ResolveOne(arch: Arch, l: Linker, system: System, mem: Ram, oc: ObjectCode, ghost x: Input, ghost m: Mem)
    returns (ok: bool)
    requires l.Valid() && l.Defined() && oc.Matches(x) && oc.Processed(arch, x, mem.cells) && TargetsIn(arch, x)
    requires WordsOnly(arch, l.Addresses()) && forall n :: system(n) < AddressLimit(arch)
    requires InMemory(arch, x, m) && WellFormed(arch, x, l.Addresses(), system, m) && SameClaims(arch, x, m, mem.cells)
    modifies mem, oc.sections, oc.flat`addr
    ensures l.Valid() && l.Defined()
    ensures ok <==> Resolves(arch, x, old(l.Addresses()), system, m)
    ensures ok ==> l.Addresses() == old(l.Addresses()) && Ended(arch, x, oc, l.Addresses(), system, m, mem.cells)
    ensures ok ==> forall a :: !Claims(arch, x, a) ==> Same(old(mem.cells), mem.cells, a)
  {
    hide InMemory, IsLinked, Claims, WordsOnly, AddressLimit, TargetsIn, SymbolsResolved, RunsTo, StartFor, FilledFor,
         JobsFor, InfosFor, WellFormed, Resolves, SameClaims, LinkedState, Same;
    ghost var g, m1 := l.Addresses(), mem.cells;
    WellFormedElsewhere(arch, x, g, system, m, m1);
    ResolvesElsewhere(arch, x, g, system, m, m1);
    ok := oc.Resolve(arch, l, system, mem, x);
    if ok {
      EndIs(arch, x, g, system, m1, StateOf(mem, oc.sections));
    }
  }

  // The object is processed, well-formed in memory m, and has its pages in r as they were in m.
  ghost predicate Waits(arch: Arch, x: Input, oc: ObjectCode, g: map<u64, nat>, system: System, m: Mem, r: Mem)
    reads oc, set s | s in oc.sections, set s | s in oc.flat
  {
    && oc.Matches(x) && oc.Processed(arch, x, r) && TargetsIn(arch, x)
    && InMemory(arch, x, m) && WellFormed(arch, x, g, system, m) && SameClaims(arch, x, m, r)
  }

  // It could be resolved in memory m, and has ended in r as if it had been.
  ghost predicate Done(arch: Arch, x: Input, oc: ObjectCode, g: map<u64, nat>, system: System, m: Mem, r: Mem)
    reads oc, set s | s in oc.sections, set s | s in oc.flat
  {
    && |x.answers| == |x.headers| && TargetsIn(arch, x)
    && Resolves(arch, x, g, system, m) && Ended(arch, x, oc, g, system, m, r)
  }

  lemma StillWaits(arch: Arch, x: Input, oc: ObjectCode, g: map<u64, nat>, system: System, m: Mem, r: Mem, q: Mem)
    requires Waits(arch, x, oc, g, system, m, r) && SameClaims(arch, x, r, q)
    ensures Waits(arch, x, oc, g, system, m, q)
  {
    hide InMemory, Claims, TargetsIn, WellFormed, ObjectCode.Processed;
    assert forall a :: Claims(arch, x, a) ==> Same(m, r, a) && Same(r, q, a);
    assert forall a :: Claims(arch, x, a) ==> Same(m, q, a);
    assert forall a :: a in r && Claims(arch, x, a) ==> a in q && q[a] == r[a];
    oc.StaysProcessed(arch, x, r, q);
  }

  lemma StaysDone(arch: Arch, x: Input, oc: ObjectCode, g: map<u64, nat>, system: System, m: Mem, r: Mem, q: Mem)
    requires Done(arch, x, oc, g, system, m, r) && SameClaims(arch, x, r, q)
    ensures Done(arch, x, oc, g, system, m, q)
  {
    hide Claims, TargetsIn, Resolves, SymbolsResolved, LinkedState;
    var p := LinkedState(arch, x, g, system, m).mem;
    assert forall a :: Claims(arch, x, a) ==> Same(p, r, a) && Same(r, q, a);
  }

  lemma OthersSame(arch: Arch, x: Input, y: Input, r: Mem, q: Mem)
    requires ClaimsApart(arch, x, y) && forall a :: !Claims(arch, x, a) ==> Same(r, q, a)
    ensures SameClaims(arch, y, r, q)
  {
    hide Claims, Same;
  }

  // nothing that belongs to no object
  ghost predicate Untouched(arch: Arch, xs: seq<Input>, m: Mem, r: Mem)
  {
    forall a :: (forall i :: 0 <= i < |xs| ==> !Claims(arch, xs[i], a)) ==> Same(m, r, a)
  }

  lemma StillUntouched(arch: Arch, xs: seq<Input>, m: Mem, r: Mem, q: Mem, k: nat)
    requires Untouched(arch, xs, m, r) && k < |xs| && forall a :: !Claims(arch, xs[k], a) ==> Same(r, q, a)
    ensures Untouched(arch, xs, m, q)
  {
    hide Claims;
    forall a | forall i :: 0 <= i < |xs| ==> !Claims(arch, xs[i], a) ensures Same(m, q, a) {
      assert !Claims(arch, xs[k], a);
      assert Same(m, r, a) && Same(r, q, a);
    }
  }

  // resolveObject on one that waits
  method ResolveWaiting(arch: Arch, l: Linker, system: System, mem: Ram, oc: ObjectCode, ghost x: Input, ghost m: Mem)
    returns (ok: bool)
    requires l.Valid() && l.Defined() && WordsOnly(arch, l.Addresses()) && forall n :: system(n) < AddressLimit(arch)
    requires Waits(arch, x, oc, l.Addresses(), system, m, mem.cells)
    modifies mem, oc.sections, oc.flat`addr
    ensures l.Valid() && l.Defined() && |x.answers| == |x.headers| && TargetsIn(arch, x)
    ensures ok <==> Resolves(arch, x, old(l.Addresses()), system, m)
    ensures ok ==> l.Addresses() == old(l.Addresses()) && Done(arch, x, oc, l.Addresses(), system, m, mem.cells)
    ensures ok ==> forall a :: !Claims(arch, x, a) ==> Same(old(mem.cells), mem.cells, a)
  {
    hide InMemory, Claims, WordsOnly, AddressLimit, TargetsIn, WellFormed, Resolves, SameClaims, Same, Ended,
         ObjectCode.Processed;
    ok := ResolveOne(arch, l, system, mem, oc, x, m);
  }

  // What belongs to other objects is left alone.
  method ResolveNext(arch: Arch, l: Linker, system: System, mem: Ram, ocs: seq<ObjectCode>, ghost xs: seq<Input>,
                     ghost m: Mem,
                     k: nat)
    returns (ok: bool)
    requires l.Valid() && l.Defined() && WordsOnly(arch, l.Addresses()) && forall n :: system(n) < AddressLimit(arch)
    requires k < |ocs| == |xs| && Separate(ocs) && AllApart(arch, xs) && Untouched(arch, xs, m, mem.cells)
    requires forall i :: 0 <= i < k ==> Done(arch, xs[i], ocs[i], l.Addresses(), system, m, mem.cells)
    requires forall i :: k <= i < |xs| ==> Waits(arch, xs[i], ocs[i], l.Addresses(), system, m, mem.cells)
    modifies mem, ocs[k].sections, ocs[k].flat`addr
    ensures l.Valid() && l.Defined() && |xs[k].answers| == |xs[k].headers| && TargetsIn(arch, xs[k])
    ensures ok <==> Resolves(arch, xs[k], old(l.Addresses()), system, m)
    ensures ok ==> l.Addresses() == old(l.Addresses()) && Untouched(arch, xs, m, mem.cells)
    ensures ok ==> forall i :: 0 <= i <= k ==> Done(arch, xs[i], ocs[i], l.Addresses(), system, m, mem.cells)
    ensures ok ==> forall i :: k < i < |xs| ==> Waits(arch, xs[i], ocs[i], l.Addresses(), system, m, mem.cells)
  {
    hide Waits, Done, Untouched, Resolves, WordsOnly, AddressLimit, Same, Claims, ClaimsApart, SameClaims, TargetsIn;
    ghost var g, r := l.Addresses(), mem.cells;
    assert forall i :: 0 <= i < |ocs| && i != k ==> NothingShared(ocs[i], ocs[k]);
    ok := ResolveWaiting(arch, l, system, mem, ocs[k], xs[k], m);
    if ok {
      StillUntouched(arch, xs, m, r, mem.cells, k);
      forall i | 0 <= i < k ensures Done(arch, xs[i], ocs[i], g, system, m, mem.cells) {
        OthersSame(arch, xs[k], xs[i], r, mem.cells);
        StaysDone(arch, xs[i], ocs[i], g, system, m, r, mem.cells);
      }
      forall i | k < i < |xs| ensures Waits(arch, xs[i], ocs[i], g, system, m, mem.cells) {
        OthersSame(arch, xs[k], xs[i], r, mem.cells);
        StillWaits(arch, xs[i], ocs[i], g, system, m, r, mem.cells);
      }
    }
  }

  lemma WaitsFacts(arch: Arch, x: Input, oc: ObjectCode, g: map<u64, nat>, system: System, m: Mem, r: Mem)
    requires Waits(arch, x, oc, g, system, m, r)
    ensures |x.answers| == |x.headers| && TargetsIn(arch, x) && InMemory(arch, x, m)
    ensures WellFormed(arch, x, g, system, m)
  {
    hide InMemory, WellFormed, SameClaims, ObjectCode.Processed;
    assert InMemory(arch, x, m) ==> |x.answers| == |x.headers| by { MemoryAnswers(arch, x, m); }
  }

  lemma MemoryAnswers(arch: Arch, x: Input, m: Mem)
    ensures InMemory(arch, x, m) ==> |x.answers| == |x.headers|
  {
  }

  lemma DoneFacts(arch: Arch, x: Input, oc: ObjectCode, g: map<u64, nat>, system: System, m: Mem, r: Mem)
    requires Done(arch, x, oc, g, system, m, r)
    ensures |x.answers| == |x.headers| && TargetsIn(arch, x) && Resolves(arch, x, g, system, m)
  {
    hide Resolves, Ended;
  }

  lemma NothingTouched(arch: Arch, xs: seq<Input>, m: Mem)
    ensures Untouched(arch, xs, m, m)
  {
  }

  method ResolveAll(arch: Arch, l: Linker, system: System, mem: Ram, ocs: seq<ObjectCode>, ghost xs: seq<Input>)
    returns (ok: bool)
    requires l.Valid() && l.Defined() && WordsOnly(arch, l.Addresses()) && forall n :: system(n) < AddressLimit(arch)
    requires |ocs| == |xs| && Separate(ocs) && AllApart(arch, xs)
    requires forall i :: 0 <= i < |xs| ==> Waits(arch, xs[i], ocs[i], l.Addresses(), system, mem.cells, mem.cells)
    modifies mem, SectionsOf(ocs), SymbolsIn(ocs)`addr
    ensures l.Valid() && l.Defined()
    ensures forall i :: 0 <= i < |xs| ==> |xs[i].answers| == |xs[i].headers| && TargetsIn(arch, xs[i])
    ensures ok <==> forall i :: 0 <= i < |xs| ==> Resolves(arch, xs[i], old(l.Addresses()), system, old(mem.cells))
    ensures ok ==> l.Addresses() == old(l.Addresses()) && Untouched(arch, xs, old(mem.cells), mem.cells)
    ensures ok ==> forall i :: 0 <= i < |xs| ==>
      Done(arch, xs[i], ocs[i], l.Addresses(), system, old(mem.cells), mem.cells)
  {
    hide Waits, Done, Separate, AllApart, Untouched, Resolves, WordsOnly, AddressLimit, TargetsIn, BinaryTree.Contents,
         BinaryTree.Nodes, BinaryTree.Linked, BinaryTree.Ordered;
    ghost var m, g := mem.cells, l.Addresses();
    forall i | 0 <= i < |xs| ensures |xs[i].answers| == |xs[i].headers| && TargetsIn(arch, xs[i]) {
      WaitsFacts(arch, xs[i], ocs[i], g, system, m, m);
    }
    NothingTouched(arch, xs, m);
    var k := 0;
    while k < |ocs|
      invariant k <= |ocs| && l.Valid() && l.Defined() && l.Addresses() == g && Untouched(arch, xs, m, mem.cells)
      invariant forall i :: 0 <= i < k ==> Done(arch, xs[i], ocs[i], g, system, m, mem.cells)
      invariant forall i :: k <= i < |xs| ==> Waits(arch, xs[i], ocs[i], g, system, m, mem.cells)
    {
      assert (set s | s in ocs[k].sections) <= SectionsOf(ocs) && (set s | s in ocs[k].flat) <= SymbolsIn(ocs);
      ok := ResolveNext(arch, l, system, mem, ocs, xs, m, k);
      if !ok {
        return;
      }
      k := k + 1;
    }
    forall i | 0 <= i < |xs| ensures Resolves(arch, xs[i], g, system, m) {
      DoneFacts(arch, xs[i], ocs[i], g, system, m, mem.cells);
    }
    return true;
  }

  // ---- what a list of objects comes to ----

  // Relocation tables name sections that are there.
  ghost predicate AllTargetsIn(arch: Arch, xs: seq<Input>)
  {
    forall i :: 0 <= i < |xs| ==> |xs[i].answers| == |xs[i].headers| && TargetsIn(arch, xs[i])
  }

  ghost predicate AllWellFormed(arch: Arch, xs: seq<Input>, g: map<u64, nat>, system: System, m: Mem)
    requires AllTargetsIn(arch, xs)
  {
    forall i :: 0 <= i < |xs| ==> WellFormed(arch, xs[i], g, system, m)
  }

  ghost predicate AllResolve(arch: Arch, xs: seq<Input>, g: map<u64, nat>, system: System, m: Mem)
    requires AllTargetsIn(arch, xs)
  {
    forall i :: 0 <= i < |xs| ==> Resolves(arch, xs[i], g, system, m)
  }

  // Memory m, with the pages of each object as resolving that object by itself leaves them
  ghost predicate AreResolved(arch: Arch, xs: seq<Input>, g: map<u64, nat>, system: System, m: Mem, r: Mem)
    requires AllTargetsIn(arch, xs)
  {
    && Untouched(arch, xs, m, r)
    && forall i :: 0 <= i < |xs| ==> SameClaims(arch, xs[i], LinkedState(arch, xs[i], g, system, m).mem, r)
  }

  // In whatever order they are resolved, the objects decide the memory afterwards.
  lemma AreResolvedUnique(arch: Arch, xs: seq<Input>, ys: seq<Input>, g: map<u64, nat>, system: System, m: Mem, r: Mem,
                          q: Mem)
    requires multiset(xs) == multiset(ys) && AllTargetsIn(arch, xs) && AllTargetsIn(arch, ys)
    requires AreResolved(arch, xs, g, system, m, r) && AreResolved(arch, ys, g, system, m, q)
    ensures r == q
  {
    hide Claims, LinkedState, TargetsIn;
    forall a ensures Same(r, q, a) {
      if i :| 0 <= i < |xs| && Claims(arch, xs[i], a) {
        assert xs[i] in multiset(ys);
        var k :| 0 <= k < |ys| && ys[k] == xs[i];
        var p := LinkedState(arch, xs[i], g, system, m).mem;
        assert Same(p, r, a) && Same(p, q, a);
      } else {
        forall k | 0 <= k < |ys| ensures !Claims(arch, ys[k], a) {
          assert ys[k] in multiset(xs);
          var i :| 0 <= i < |xs| && xs[i] == ys[k];
        }
        assert Same(m, r, a) && Same(m, q, a);
      }
    }
    SameEverywhere(r, q);
  }

  // All objects can be loaded, and then each can be resolved.
  ghost predicate AllLink(arch: Arch, xs: seq<Input>, g: map<u64, nat>, system: System, m: Mem)
    requires AnswersComplete(xs) && AllTargetsIn(arch, xs)
  {
    && OutcomeAll(arch, xs, g).Ok?
    && AllResolve(arch, xs, OutcomeAll(arch, xs, g).value, system, LoadedMemories(arch, xs, m))
  }

  // The objects are well-formed and have room for their stubs.
  ghost predicate AllRoomy(arch: Arch, xs: seq<Input>, g: map<u64, nat>, system: System, m: Mem)
    requires AnswersComplete(xs) && AllTargetsIn(arch, xs)
  {
    OutcomeAll(arch, xs, g).Ok? ==>
      AllWellFormed(arch, xs, OutcomeAll(arch, xs, g).value, system, LoadedMemories(arch, xs, m))
  }

  // Memory in the end, if they can be linked
  ghost predicate LinksTo(arch: Arch, xs: seq<Input>, g: map<u64, nat>, system: System, m: Mem, h: map<u64, nat>,
                          r: Mem)
    requires AnswersComplete(xs) && AllTargetsIn(arch, xs)
  {
    OutcomeAll(arch, xs, g) == Ok(h) && AreResolved(arch, xs, h, system, LoadedMemories(arch, xs, m), r)
  }

  lemma AllWait(arch: Arch, xs: seq<Input>, ocs: seq<ObjectCode>, g: map<u64, nat>, system: System, m: Mem)
    requires |ocs| == |xs| && AllTargetsIn(arch, xs) && AllWellFormed(arch, xs, g, system, m)
    requires forall i :: 0 <= i < |xs| ==> IsProcessed(arch, xs[i], ocs[i], m)
    ensures forall i :: 0 <= i < |xs| ==> Waits(arch, xs[i], ocs[i], g, system, m, m)
  {
    hide TargetsIn, WellFormed, ObjectCode.Processed, InMemory, Claims;
    forall i | 0 <= i < |xs| ensures Waits(arch, xs[i], ocs[i], g, system, m, m) {
      ocs[i].IsInMemory(arch, xs[i], m);
    }
  }

  lemma AllWaitFacts(arch: Arch, xs: seq<Input>, ocs: seq<ObjectCode>, g: map<u64, nat>, system: System, m: Mem)
    requires |ocs| == |xs| && AllTargetsIn(arch, xs)
    requires forall i :: 0 <= i < |xs| ==> Waits(arch, xs[i], ocs[i], g, system, m, m)
    ensures AllWellFormed(arch, xs, g, system, m) && forall i :: 0 <= i < |xs| ==> InMemory(arch, xs[i], m)
  {
    hide Waits, InMemory, WellFormed, TargetsIn;
    forall i | 0 <= i < |xs| ensures InMemory(arch, xs[i], m) && WellFormed(arch, xs[i], g, system, m) {
      WaitsFacts(arch, xs[i], ocs[i], g, system, m, m);
    }
  }

  lemma AllEnded(arch: Arch, xs: seq<Input>, ocs: seq<ObjectCode>, g: map<u64, nat>, system: System, m: Mem, r: Mem)
    requires |ocs| == |xs| && AllTargetsIn(arch, xs) && Untouched(arch, xs, m, r)
    requires forall i :: 0 <= i < |xs| ==> Done(arch, xs[i], ocs[i], g, system, m, r)
    requires AllWellFormed(arch, xs, g, system, m) && forall i :: 0 <= i < |xs| ==> InMemory(arch, xs[i], m)
    requires WordsOnly(arch, g) && SystemWords(arch, system)
    ensures AreResolved(arch, xs, g, system, m, r)
    ensures forall i :: 0 <= i < |xs| ==> IsLinkedIn(arch, xs[i], g, system, m, r)
  {
    hide TargetsIn, Resolves, SymbolsResolved, LinkedState, SameClaims, Untouched, InMemory, WellFormed, WordsOnly,
         SystemWords;
  }

  lemma AnsweredApart(arch: Arch, m: Mem, xs: seq<Input>)
    requires AllAnswered(arch, m, xs)
    ensures AllApart(arch, xs)
  {
  }

  // Loading them all makes them ready to be resolved.
  method LoadAll(arch: Arch, l: Linker, system: System, mem: Ram, ocs: seq<ObjectCode>, xs: seq<Input>)
    returns (ok: bool)
    requires l.Valid() && l.Defined() && Paired(ocs, xs) && Unlike(ocs) && AnswersComplete(xs)
    requires AllAnswered(arch, mem.cells, xs) && AllLocal(xs) && AllTargetsIn(arch, xs)
    requires WordsOnly(arch, l.Addresses()) && AllRoomy(arch, xs, l.Addresses(), system, mem.cells)
    modifies ocs, mem, l`entered, l.gsyms, l.gsyms.repr
    ensures ok <==> OutcomeAll(arch, xs, old(l.Addresses())).Ok?
    ensures ok ==> l.Valid() && l.Defined() && OutcomeAll(arch, xs, old(l.Addresses())) == Ok(l.Addresses())
    ensures ok ==> mem.cells == LoadedMemories(arch, xs, old(mem.cells)) && WordsOnly(arch, l.Addresses())
    ensures ok ==> Separate(ocs) && fresh(SectionsOf(ocs)) && fresh(SymbolsIn(ocs))
    ensures ok ==> forall i :: 0 <= i < |xs| ==> Waits(arch, xs[i], ocs[i], l.Addresses(), system, mem.cells, mem.cells)
  {
    hide OutcomeAll, AllAnswered, AreLoaded, AllLocal, AllTargetsIn, AllWellFormed, AnswersComplete, WordsOnly, Waits,
         IsProcessed, Separate, LoadedMemories, Unlike, BinaryTree.Contents, BinaryTree.Nodes, BinaryTree.Linked,
         BinaryTree.Ordered;
    ghost var g, m0 := l.Addresses(), mem.cells;
    ok := ProcessAll(arch, l, system, mem, ocs, xs);
    if ok {
      LoadedMemoriesAre(arch, xs, m0, mem.cells);
      AllAreWords(arch, xs, g);
      AllWait(arch, xs, ocs, l.Addresses(), system, mem.cells);
    }
  }

  // Loading a list of objects and resolving them, as Tests.c does. Both succeed exactly if the objects can be loaded
  // together and each by itself can be resolved then; and each ends as if it alone had been.
  method LinkAll(arch: Arch, l: Linker, system: System, mem: Ram, ocs: seq<ObjectCode>, xs: seq<Input>)
    returns (ok: bool)
    requires l.Valid() && l.Defined() && Paired(ocs, xs) && Unlike(ocs) && AnswersComplete(xs)
    requires AllAnswered(arch, mem.cells, xs) && AllLocal(xs) && AllTargetsIn(arch, xs)
    requires WordsOnly(arch, l.Addresses()) && forall n :: system(n) < AddressLimit(arch)
    requires AllRoomy(arch, xs, l.Addresses(), system, mem.cells)
    modifies ocs, mem, l`entered, l.gsyms, l.gsyms.repr
    ensures ok <==> AllLink(arch, xs, old(l.Addresses()), system, old(mem.cells))
    ensures ok ==> l.Valid() && l.Defined()
    ensures ok ==> LinksTo(arch, xs, old(l.Addresses()), system, old(mem.cells), l.Addresses(), mem.cells)
    ensures ok ==> var m := LoadedMemories(arch, xs, old(mem.cells));
      forall i :: 0 <= i < |xs| ==>
        && Done(arch, xs[i], ocs[i], l.Addresses(), system, m, mem.cells)
        && IsLinkedIn(arch, xs[i], l.Addresses(), system, m, mem.cells)
  {
    hide OutcomeAll, AllAnswered, AllLocal, AllTargetsIn, AreResolved, IsLinkedIn, InMemory, WellFormed,
         AnswersComplete, WordsOnly, AddressLimit, Waits, Done, Untouched, Separate, AllApart, LoadedMemories, Unlike,
         AllRoomy, Resolves, TargetsIn, SectionsOf, SymbolsIn, BinaryTree.Contents, BinaryTree.Nodes, BinaryTree.Linked,
         BinaryTree.Ordered;
    AnsweredApart(arch, mem.cells, xs);
    ok := LoadAll(arch, l, system, mem, ocs, xs);
    if !ok {
      return;
    }
    ghost var m, h := mem.cells, l.Addresses();
    AllWaitFacts(arch, xs, ocs, h, system, m);
    ok := ResolveAll(arch, l, system, mem, ocs, xs);
    if ok {
      AllEnded(arch, xs, ocs, h, system, m, mem.cells);
    }
  }

  // For two orders of the same objects, linked from nothing: either both fail, or the same addresses are known
  // afterwards and memory is the same, relocated code, GOTs and stubs included.
  lemma LinkOrderDoesNotMatter(arch: Arch, xs: seq<Input>, ys: seq<Input>, system: System, m: Mem)
    requires AnswersComplete(xs) && AnswersComplete(ys) && multiset(xs) == multiset(ys)
    requires AllTargetsIn(arch, xs) && AllTargetsIn(arch, ys)
    ensures AllLink(arch, xs, map[], system, m) <==> AllLink(arch, ys, map[], system, m)
    ensures forall g, h, r, q ::
      LinksTo(arch, xs, map[], system, m, g, r) && LinksTo(arch, ys, map[], system, m, h, q) ==>
      g == h && r == q
  {
    hide OutcomeAll, LoadedMemories, Resolves, TargetsIn, AnswersComplete, AreResolved;
    LoadOrderDoesNotMatter(arch, xs, ys);
    LoadedMemoriesPermuted(arch, xs, ys, m);
    if OutcomeAll(arch, xs, map[]).Ok? {
      var g, n := OutcomeAll(arch, xs, map[]).value, LoadedMemories(arch, xs, m);
      ResolvePermuted(arch, xs, ys, g, system, n);
      ResolvePermuted(arch, ys, xs, g, system, n);
      forall r, q | AreResolved(arch, xs, g, system, n, r) && AreResolved(arch, ys, g, system, n, q) ensures r == q {
        AreResolvedUnique(arch, xs, ys, g, system, n, r, q);
      }
    }
  }

  lemma ResolvePermuted(arch: Arch, xs: seq<Input>, ys: seq<Input>, g: map<u64, nat>, system: System, m: Mem)
    requires multiset(xs) == multiset(ys) && AllTargetsIn(arch, xs) && AllTargetsIn(arch, ys)
    ensures AllResolve(arch, xs, g, system, m) ==> AllResolve(arch, ys, g, system, m)
  {
    hide Resolves, TargetsIn;
    forall i | 0 <= i < |ys| && AllResolve(arch, xs, g, system, m) ensures Resolves(arch, ys[i], g, system, m) {
      assert ys[i] in multiset(xs);
      var k :| 0 <= k < |xs| && xs[k] == ys[i];
    }
  }
}
