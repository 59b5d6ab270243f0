// Loading several objects: the addresses known afterwards do not depend on the order.
module LoadOrder {
  import opened Memory
  import opened Results
  import opened Words
  import opened Target
  import opened Sections
  import opened Objects
  import opened Linker
  import opened Got
  import opened Names
  import opened Inputs
  import opened Addresses
  import opened ObjectCodes

  predicate AnswersComplete(xs: seq<Input>)
  {
    forall i :: 0 <= i < |xs| ==> |xs[i].answers| == |xs[i].headers|
  }

  // The global addresses after loading one object after the other
  ghost function OutcomeAll(arch: Arch, xs: seq<Input>, g: map<u64, nat>): Result<map<u64, nat>>
    requires AnswersComplete(xs)
    decreases |xs|
  {
    if xs == [] then Ok(g)
    else
      var h :- Outcome(arch, xs[0], g);
      OutcomeAll(arch, xs[1..], h)
  }

  // No page belongs to two objects.
  ghost predicate AllApart(arch: Arch, xs: seq<Input>)
  {
    forall i, k :: 0 <= i < |xs| && 0 <= k < |xs| && i != k ==> ClaimsApart(arch, xs[i], xs[k])
  }

  // Memory m, extended by exactly what loading the objects adds
  ghost predicate AreLoaded(arch: Arch, xs: seq<Input>, m: Mem, r: Mem)
  {
    && (forall a :: a in m ==> a in r && r[a] == m[a])
    && (forall a :: a in r && a !in m ==> exists i :: 0 <= i < |xs| && Claims(arch, xs[i], a))
    && forall i :: 0 <= i < |xs| ==> HasContents(arch, xs[i], r)
  }

  lemma OneMore(arch: Arch, xs: seq<Input>, k: nat, m0: Mem, m: Mem, r: Mem)
    requires k < |xs| && AreLoaded(arch, xs[..k], m0, m) && IsLoaded(arch, xs[k], m, r)
    ensures AreLoaded(arch, xs[..k + 1], m0, r)
  {
    hide Claims, HasContents;
    var ys, zs := xs[..k], xs[..k + 1];
    forall a | a in r && a !in m0 ensures exists i :: 0 <= i < |zs| && Claims(arch, zs[i], a) {
      if a in m {
        var i :| 0 <= i < |ys| && Claims(arch, ys[i], a);
        assert zs[i] == ys[i];
      } else {
        assert zs[k] == xs[k];
      }
    }
    forall i | 0 <= i < |zs| ensures HasContents(arch, zs[i], r) {
      if i < k {
        assert ys[i] == zs[i];
        ContentsStay(arch, zs[i], m, r);
      }
    }
  }

  // The objects, in whatever order, decide the memory after loading them.
  lemma AreLoadedUnique(arch: Arch, xs: seq<Input>, ys: seq<Input>, m: Mem, r: Mem, q: Mem)
    requires multiset(xs) == multiset(ys) && AreLoaded(arch, xs, m, r) && AreLoaded(arch, ys, m, q)
    ensures r == q
  {
    hide Claims, HasContents;
    forall a ensures Same(r, q, a) {
      if a !in m && a in r {
        var i :| 0 <= i < |xs| && Claims(arch, xs[i], a);
        SameAmong(arch, xs, ys, m, r, q, i, a);
      } else if a !in m && a in q {
        var i :| 0 <= i < |ys| && Claims(arch, ys[i], a);
        SameAmong(arch, ys, xs, m, q, r, i, a);
      }
    }
    SameEverywhere(r, q);
  }

  lemma LoadedPermuted(arch: Arch, xs: seq<Input>, ys: seq<Input>, m: Mem, r: Mem)
    requires multiset(xs) == multiset(ys) && AreLoaded(arch, xs, m, r)
    ensures AreLoaded(arch, ys, m, r)
  {
    hide Claims, HasContents;
    forall a | a in r && a !in m ensures exists i :: 0 <= i < |ys| && Claims(arch, ys[i], a) {
      var i :| 0 <= i < |xs| && Claims(arch, xs[i], a);
      assert xs[i] in multiset(ys);
      var k :| 0 <= k < |ys| && ys[k] == xs[i];
    }
    forall i | 0 <= i < |ys| ensures HasContents(arch, ys[i], r) {
      assert ys[i] in multiset(xs);
      var k :| 0 <= k < |xs| && xs[k] == ys[i];
    }
  }

  // Memory after loading the objects into m
  ghost function LoadedMemories(arch: Arch, xs: seq<Input>, m: Mem): Mem
  {
    if exists r :: AreLoaded(arch, xs, m, r) then var r :| AreLoaded(arch, xs, m, r); r else m
  }

  lemma LoadedMemoriesAre(arch: Arch, xs: seq<Input>, m: Mem, r: Mem)
    requires AreLoaded(arch, xs, m, r)
    ensures LoadedMemories(arch, xs, m) == r
  {
    hide AreLoaded;
    AreLoadedUnique(arch, xs, xs, m, r, LoadedMemories(arch, xs, m));
  }

  lemma LoadedMemoriesPermuted(arch: Arch, xs: seq<Input>, ys: seq<Input>, m: Mem)
    requires multiset(xs) == multiset(ys)
    ensures LoadedMemories(arch, xs, m) == LoadedMemories(arch, ys, m)
  {
    hide AreLoaded;
    if r :| AreLoaded(arch, xs, m, r) {
      LoadedPermuted(arch, xs, ys, m, r);
      LoadedMemoriesAre(arch, xs, m, r);
      LoadedMemoriesAre(arch, ys, m, r);
    } else if r :| AreLoaded(arch, ys, m, r) {
      LoadedPermuted(arch, ys, xs, m, r);
    }
  }

  lemma SameAmong(arch: Arch, xs: seq<Input>, ys: seq<Input>, m: Mem, r: Mem, q: Mem, i: nat, a: int)
    requires multiset(xs) == multiset(ys) && AreLoaded(arch, xs, m, r) && AreLoaded(arch, ys, m, q)
    requires i < |xs| && Claims(arch, xs[i], a)
    ensures Same(r, q, a)
  {
    hide Claims, HasContents;
    assert xs[i] in multiset(ys);
    var k :| 0 <= k < |ys| && ys[k] == xs[i];
    SameContents(arch, xs[i], r, q, a);
  }

  // What the system promises for all the objects: good answers for each, and no page for two of them
  ghost predicate AllAnswered(arch: Arch, m: Mem, xs: seq<Input>)
  {
    (forall i :: 0 <= i < |xs| ==> SystemAnswers(arch, m, xs[i])) && AllApart(arch, xs)
  }

  lemma StillAnswered(arch: Arch, m: Mem, r: Mem, xs: seq<Input>)
    requires xs != [] && AllAnswered(arch, m, xs) && Claimed(arch, xs[0], m, r)
    ensures AllAnswered(arch, r, xs[1..])
  {
    hide SystemAnswers, ClaimsApart, Claimed;
    var rest := xs[1..];
    forall i | 0 <= i < |rest| ensures SystemAnswers(arch, r, rest[i]) {
      assert rest[i] == xs[i + 1];
      AnswersLater(arch, xs[0], xs[i + 1], m, r);
    }
    assert forall i :: 0 <= i < |rest| ==> rest[i] == xs[i + 1];
  }

  lemma FirstAnswered(arch: Arch, m: Mem, xs: seq<Input>)
    requires xs != [] && AllAnswered(arch, m, xs)
    ensures SystemAnswers(arch, m, xs[0])
  {
    hide SystemAnswers, ClaimsApart;
  }

  ghost predicate AllLocal(xs: seq<Input>)
  {
    forall i :: 0 <= i < |xs| ==> forall e :: e in HeaderSyms(xs[i].headers) ==> SectionSymbolLocal(e)
  }

  // objects and their inputs
  ghost predicate Paired(ocs: seq<ObjectCode>, xs: seq<Input>)
  {
    |ocs| == |xs| && forall i :: 0 <= i < |xs| ==> ocs[i].Matches(xs[i])
  }

  lemma {:induction false} AllAreWords(arch: Arch, xs: seq<Input>, g: map<u64, nat>)
    requires AnswersComplete(xs) && WordsOnly(arch, g) && OutcomeAll(arch, xs, g).Ok?
    ensures WordsOnly(arch, OutcomeAll(arch, xs, g).value)
    decreases |xs|
  {
    hide Outcome, WordsOnly;
    if xs != [] {
      OutcomeAreWords(arch, xs[0], g);
      AllAreWords(arch, xs[1..], Outcome(arch, xs[0], g).value);
    }
  }

  lemma OneOutcome(arch: Arch, xs: seq<Input>, k: nat, g: map<u64, nat>)
    requires AnswersComplete(xs) && k < |xs|
    ensures AnswersComplete(xs[k..]) && AnswersComplete(xs[k + 1..])
    ensures var o := Outcome(arch, xs[k], g);
      OutcomeAll(arch, xs[k..], g) == if o.Ok? then OutcomeAll(arch, xs[k + 1..], o.value) else Abort
  {
    hide Outcome;
    assert xs[k..][0] == xs[k] && xs[k..][1..] == xs[k + 1..];
  }

  ghost predicate NothingShared(a: ObjectCode, b: ObjectCode)
    reads a, b
  {
    (forall s :: s in a.sections ==> s !in b.sections) && forall s :: s in a.flat ==> s !in b.flat
  }

  // No section and no symbol belongs to two objects.
  ghost predicate Separate(ocs: seq<ObjectCode>)
    reads ocs
  {
    forall i, k :: 0 <= i < |ocs| && 0 <= k < |ocs| && i != k ==> NothingShared(ocs[i], ocs[k])
  }

  // The object is ready to be resolved, in memory m.
  ghost predicate IsProcessed(arch: Arch, x: Input, oc: ObjectCode, m: Mem)
    reads oc, set s | s in oc.sections, set s | s in oc.flat
  {
    oc.Matches(x) && oc.Processed(arch, x, m)
  }

  lemma StillProcessed(arch: Arch, x: Input, oc: ObjectCode, m: Mem, r: Mem)
    requires IsProcessed(arch, x, oc, m) && forall a :: a in m ==> a in r && r[a] == m[a]
    ensures IsProcessed(arch, x, oc, r)
  {
    hide ObjectCode.Processed;
    oc.StaysProcessed(arch, x, m, r);
  }

  // what matters of one object for the others
  method LoadOne(arch: Arch, l: Linker, system: System, mem: Ram, oc: ObjectCode, x: Input) returns (ok: bool)
    requires l.Valid() && l.Defined() && oc.Matches(x) && SystemAnswers(arch, mem.cells, x)
    requires forall e :: e in HeaderSyms(x.headers) ==> SectionSymbolLocal(e)
    modifies oc, mem, l`entered, l.gsyms, l.gsyms.repr
    ensures oc.Matches(x) && (ok <==> Outcome(arch, x, old(l.Addresses())).Ok?)
    ensures ok ==> l.Valid() && l.Defined() && fresh(l.gsyms.repr - old(l.gsyms.repr))
    ensures ok ==>
      Outcome(arch, x, old(l.Addresses())) == Ok(l.Addresses()) && IsLoaded(arch, x, old(mem.cells), mem.cells)
    ensures ok ==> IsProcessed(arch, x, oc, mem.cells)
    ensures ok ==> fresh(set s | s in oc.sections) && fresh(set s | s in oc.flat)
  {
    hide Outcome, SystemAnswers, IsLoaded, InGot, NamesWritten, EnterAll, HeaderSyms, SectionSymbolLocal,
         ObjectCode.Processed;
    ok := oc.Process(arch, l, system, mem, x);
  }

  lemma AfterOne(arch: Arch, xs: seq<Input>, k: nat, m0: Mem, m: Mem, r: Mem)
    requires k < |xs| && AreLoaded(arch, xs[..k], m0, m) && AllAnswered(arch, m, xs[k..]) && IsLoaded(arch, xs[k], m, r)
    ensures AreLoaded(arch, xs[..k + 1], m0, r) && AllAnswered(arch, r, xs[k + 1..])
    ensures forall a :: a in m ==> a in r && r[a] == m[a]
  {
    assert xs[k..][0] == xs[k] && xs[k..][1..] == xs[k + 1..];
    hide AreLoaded, AllAnswered, HasContents, Claims;
    OneMore(arch, xs, k, m0, m, r);
    StillAnswered(arch, m, r, xs[k..]);
  }

  lemma OneMoreApart(ocs: seq<ObjectCode>, k: nat, secs: set<Section>, syms: set<ElfSymbol>)
    requires k < |ocs| && Separate(ocs[..k])
    requires forall i, s :: 0 <= i < k && s in ocs[i].sections ==> s in secs
    requires forall i, s :: 0 <= i < k && s in ocs[i].flat ==> s in syms
    requires (forall s :: s in ocs[k].sections ==> s !in secs) && forall s :: s in ocs[k].flat ==> s !in syms
    ensures Separate(ocs[..k + 1])
  {
    var cs := ocs[..k + 1];
    forall i, j | 0 <= i < |cs| && 0 <= j < |cs| && i != j ensures NothingShared(cs[i], cs[j]) {
      if i < k && j < k {
        assert ocs[..k][i] == cs[i] && ocs[..k][j] == cs[j];
      }
    }
  }

  // One object, with those before it
  method LoadNext(arch: Arch, l: Linker, system: System, mem: Ram, ocs: seq<ObjectCode>, xs: seq<Input>, k: nat,
                  ghost m0: Mem)
    returns (ok: bool)
    requires l.Valid() && l.Defined() && k < |ocs| == |xs| && Unlike(ocs) && ocs[k].Matches(xs[k])
    requires AllAnswered(arch, mem.cells, xs[k..]) && AreLoaded(arch, xs[..k], m0, mem.cells)
    requires forall e :: e in HeaderSyms(xs[k].headers) ==> SectionSymbolLocal(e)
    requires Separate(ocs[..k]) && forall i :: 0 <= i < k ==> IsProcessed(arch, xs[i], ocs[i], mem.cells)
    modifies ocs[k], mem, l`entered, l.gsyms, l.gsyms.repr
    ensures ocs[k].Matches(xs[k]) && (ok <==> Outcome(arch, xs[k], old(l.Addresses())).Ok?)
    ensures ok ==> l.Valid() && l.Defined() && fresh(l.gsyms.repr - old(l.gsyms.repr))
    ensures ok ==> Outcome(arch, xs[k], old(l.Addresses())) == Ok(l.Addresses())
    ensures ok ==> AllAnswered(arch, mem.cells, xs[k + 1..]) && AreLoaded(arch, xs[..k + 1], m0, mem.cells)
    ensures ok ==> forall i :: 0 <= i <= k ==> IsProcessed(arch, xs[i], ocs[i], mem.cells)
    ensures ok ==> fresh(set s | s in ocs[k].sections) && fresh(set s | s in ocs[k].flat) && Separate(ocs[..k + 1])
  {
    hide Outcome, SystemAnswers, IsLoaded, AllAnswered, AreLoaded, HeaderSyms, SectionSymbolLocal, IsProcessed;
    ghost var m := mem.cells;
    ghost var secs := set i, s | 0 <= i < k && s in ocs[i].sections :: s;
    ghost var syms := set i, s | 0 <= i < k && s in ocs[i].flat :: s;
    assert xs[k..][0] == xs[k];
    FirstAnswered(arch, m, xs[k..]);
    ok := LoadOne(arch, l, system, mem, ocs[k], xs[k]);
    if ok {
      AfterOne(arch, xs, k, m0, m, mem.cells);
      forall i | 0 <= i < k ensures IsProcessed(arch, xs[i], ocs[i], mem.cells) {
        assert ocs[i] != ocs[k];
        StillProcessed(arch, xs[i], ocs[i], m, mem.cells);
      }
      OneMoreApart(ocs, k, secs, syms);
    }
  }

  predicate Unlike(ocs: seq<ObjectCode>)
  {
    forall i, k :: 0 <= i < k < |ocs| ==> ocs[i] != ocs[k]
  }

  // Loading a list of objects, as loadArchive and programs that load several files do. Success, the global addresses
  // and memory are decided by the inputs; each object ends ready to be resolved.
  method ProcessAll(arch: Arch, l: Linker, system: System, mem: Ram, ocs: seq<ObjectCode>, xs: seq<Input>)
    returns (ok: bool)
    requires l.Valid() && l.Defined() && Paired(ocs, xs) && Unlike(ocs) && AnswersComplete(xs)
    requires AllAnswered(arch, mem.cells, xs) && AllLocal(xs)
    modifies ocs, mem, l`entered, l.gsyms, l.gsyms.repr
    ensures ok <==> OutcomeAll(arch, xs, old(l.Addresses())).Ok?
    ensures ok ==> l.Valid() && l.Defined() && OutcomeAll(arch, xs, old(l.Addresses())) == Ok(l.Addresses())
    ensures ok ==> AreLoaded(arch, xs, old(mem.cells), mem.cells) && fresh(l.gsyms.repr - old(l.gsyms.repr))
    ensures ok ==> Separate(ocs) && forall i :: 0 <= i < |xs| ==> IsProcessed(arch, xs[i], ocs[i], mem.cells)
    ensures ok ==> forall i :: 0 <= i < |xs| ==> fresh(set s | s in ocs[i].sections) && fresh(set s | s in ocs[i].flat)
  {
    hide OutcomeAll, Outcome, AllAnswered, AreLoaded, SystemAnswers, HeaderSyms, SectionSymbolLocal, AnswersComplete,
         IsProcessed;
    ghost var a, m0 := l.Addresses(), mem.cells;
    var k := 0;
    assert xs[0..] == xs;
    NothingLoaded(arch, xs, m0);
    while k < |ocs|
      invariant k <= |ocs| && l.Valid() && l.Defined() && fresh(l.gsyms.repr - old(l.gsyms.repr))
      invariant AnswersComplete(xs[k..]) && AllAnswered(arch, mem.cells, xs[k..])
      invariant AreLoaded(arch, xs[..k], m0, mem.cells)
      invariant OutcomeAll(arch, xs, a) == OutcomeAll(arch, xs[k..], l.Addresses())
      invariant forall i :: 0 <= i < k ==> IsProcessed(arch, xs[i], ocs[i], mem.cells)
      invariant forall i :: 0 <= i < k ==> fresh(set s | s in ocs[i].sections) && fresh(set s | s in ocs[i].flat)
      invariant Separate(ocs[..k])
      invariant forall i :: k <= i < |ocs| ==> ocs[i].Matches(xs[i])
    {
      assert xs[k..][0] == xs[k] && xs[k..][1..] == xs[k + 1..];
      OneOutcome(arch, xs, k, l.Addresses());
      ok := LoadNext(arch, l, system, mem, ocs, xs, k, m0);
      if !ok {
        return false;
      }
      k := k + 1;
    }
    assert xs[k..] == [];
    assert xs[..k] == xs && ocs[..k] == ocs;
    NothingLeft(arch, l.Addresses());
    return true;
  }

  lemma NothingLoaded(arch: Arch, xs: seq<Input>, m: Mem)
    ensures AreLoaded(arch, xs[..0], m, m)
  {
  }

  lemma NothingLeft(arch: Arch, g: map<u64, nat>)
    ensures OutcomeAll(arch, [], g) == Ok(g)
  {
  }

  // ---- any order ----

  ghost predicate AllAcceptable(arch: Arch, xs: seq<Input>)
    requires AnswersComplete(xs)
  {
    forall i :: 0 <= i < |xs| ==> Acceptable(arch, xs[i])
  }

  function ExportLists(arch: Arch, xs: seq<Input>): (ls: seq<seq<Export<nat>>>)
    requires AnswersComplete(xs)
    ensures |ls| == |xs|
  {
    if xs == [] then [] else [ExportsFor(arch, xs[0])] + ExportLists(arch, xs[1..])
  }

  // Objects are loaded exactly if each is acceptable and no hash is exported twice.
  lemma {:induction false} OutcomeAllIs(arch: Arch, xs: seq<Input>, g: map<u64, nat>)
    requires AnswersComplete(xs)
    ensures OutcomeAll(arch, xs, g)
      == if AllAcceptable(arch, xs) then EnterAll(g, Loaded(ExportLists(arch, xs))) else Abort
    decreases |xs|
  {
    hide Acceptable, ExportsFor, EnterAll;
    if xs == [] {
      EnterNone(g);
    } else {
      var es, rest := ExportsFor(arch, xs[0]), xs[1..];
      var ls := ExportLists(arch, xs);
      assert ls[0] == es && ls[1..] == ExportLists(arch, rest);
      EnterAllAppend(g, es, Loaded(ls[1..]));
      assert AllAcceptable(arch, xs) <==> Acceptable(arch, xs[0]) && AllAcceptable(arch, rest) by {
        AcceptableSplit(arch, xs);
      }
      if Acceptable(arch, xs[0]) && EnterAll(g, es).Ok? {
        OutcomeAllIs(arch, rest, EnterAll(g, es).value);
      }
    }
  }

  lemma EnterNone(g: map<u64, nat>)
    ensures EnterAll(g, []) == Ok(g)
  {
  }

  lemma AcceptableSplit(arch: Arch, xs: seq<Input>)
    requires AnswersComplete(xs) && xs != []
    ensures AllAcceptable(arch, xs) <==> Acceptable(arch, xs[0]) && AllAcceptable(arch, xs[1..])
  {
    hide Acceptable;
    var rest := xs[1..];
    if Acceptable(arch, xs[0]) && AllAcceptable(arch, rest) {
      forall i | 0 <= i < |xs| ensures Acceptable(arch, xs[i]) {
        if i > 0 {
          assert rest[i - 1] == xs[i];
        }
      }
    }
    if AllAcceptable(arch, xs) {
      forall i | 0 <= i < |rest| ensures Acceptable(arch, rest[i]) {
        assert rest[i] == xs[i + 1];
      }
    }
  }

  lemma HeadList(arch: Arch, xs: seq<Input>)
    requires AnswersComplete(xs) && xs != []
    ensures AnswersComplete(xs[1..])
    ensures multiset(ExportLists(arch, xs)) == multiset{ExportsFor(arch, xs[0])} + multiset(ExportLists(arch, xs[1..]))
  {
    hide ExportsFor;
    assert ExportLists(arch, xs) == [ExportsFor(arch, xs[0])] + ExportLists(arch, xs[1..]);
  }

  lemma CompleteWithout(xs: seq<Input>, i: nat)
    requires AnswersComplete(xs) && i < |xs|
    ensures AnswersComplete(xs[..i] + xs[i + 1..])
  {
    var rest := xs[..i] + xs[i + 1..];
    assert forall k :: 0 <= k < |rest| ==> rest[k] == if k < i then xs[k] else xs[k + 1];
  }

  lemma {:induction false} ListsWithout(arch: Arch, xs: seq<Input>, i: nat)
    requires AnswersComplete(xs) && i < |xs|
    ensures AnswersComplete(xs[..i] + xs[i + 1..])
    ensures multiset(ExportLists(arch, xs))
      == multiset{ExportsFor(arch, xs[i])} + multiset(ExportLists(arch, xs[..i] + xs[i + 1..]))
    decreases |xs|
  {
    CompleteWithout(xs, i);
    hide ExportsFor, ExportLists, AnswersComplete;
    HeadList(arch, xs);
    if i == 0 {
      assert xs[..i] + xs[i + 1..] == xs[1..];
    } else {
      RestOfRest(xs, i);
      HeadList(arch, xs[..i] + xs[i + 1..]);
      ListsWithout(arch, xs[1..], i - 1);
    }
  }

  lemma RestOfRest<T>(xs: seq<T>, i: nat)
    requires 0 < i < |xs|
    ensures var rest := xs[..i] + xs[i + 1..]; rest[0] == xs[0] && rest[1..] == xs[1..][..i - 1] + xs[1..][i..]
  {
  }

  lemma {:induction false} ListsPermuted(arch: Arch, xs: seq<Input>, ys: seq<Input>)
    requires AnswersComplete(xs) && AnswersComplete(ys) && multiset(xs) == multiset(ys)
    ensures multiset(ExportLists(arch, xs)) == multiset(ExportLists(arch, ys))
    decreases |xs|
  {
    hide ExportsFor;
    if xs == [] {
      assert |multiset(ys)| == |ys|;
    } else {
      var i := TakeOut(xs, ys);
      ListsWithout(arch, ys, i);
      ListsPermuted(arch, xs[1..], ys[..i] + ys[i + 1..]);
    }
  }

  lemma AcceptablePermuted(arch: Arch, xs: seq<Input>, ys: seq<Input>)
    requires AnswersComplete(xs) && AnswersComplete(ys) && multiset(xs) == multiset(ys) && AllAcceptable(arch, xs)
    ensures AllAcceptable(arch, ys)
  {
    hide Acceptable;
    forall i | 0 <= i < |ys| ensures Acceptable(arch, ys[i]) {
      assert ys[i] in multiset(xs);
      var k :| 0 <= k < |xs| && xs[k] == ys[i];
    }
  }

  // For two orders of the same objects, loaded into an empty linker: either both fail, or the same addresses are known
  // afterwards, and so every lookup of any name gives the same answer.
  lemma LoadOrderDoesNotMatter(arch: Arch, xs: seq<Input>, ys: seq<Input>)
    requires AnswersComplete(xs) && AnswersComplete(ys) && multiset(xs) == multiset(ys)
    ensures OutcomeAll(arch, xs, map[]) == OutcomeAll(arch, ys, map[])
  {
    hide OutcomeAll, EnterAll, AllAcceptable, ExportLists;
    OutcomeAllIs(arch, xs, map[]);
    OutcomeAllIs(arch, ys, map[]);
    ListsPermuted(arch, xs, ys);
    ListOrderDoesNotMatter(ExportLists(arch, xs), ExportLists(arch, ys));
    if AllAcceptable(arch, xs) {
      AcceptablePermuted(arch, xs, ys);
    } else if AllAcceptable(arch, ys) {
      AcceptablePermuted(arch, ys, xs);
    }
  }

  // Two linkers that loaded the same objects in different orders answer alike.
  lemma SameAnswers(arch: Arch, xs: seq<Input>, ys: seq<Input>, l: Linker, k: Linker, system: System, name: seq<u8>)
    requires AnswersComplete(xs) && AnswersComplete(ys) && multiset(xs) == multiset(ys)
    requires OutcomeAll(arch, xs, map[]) == Ok(l.Addresses()) && OutcomeAll(arch, ys, map[]) == Ok(k.Addresses())
    ensures l.AddressOf(system, name) == k.AddressOf(system, name)
  {
    hide OutcomeAll, AnswerFrom;
    LoadOrderDoesNotMatter(arch, xs, ys);
    LookupIsAnswer(l, system, name);
    LookupIsAnswer(k, system, name);
  }
}
