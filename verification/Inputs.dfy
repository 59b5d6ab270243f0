// What decides how an object is loaded: its headers, where its file is, and the memory that the system gives it. From
// these follow where its sections are, what it exports, and whether it can be loaded at all.
module Inputs {
  import opened Memory
  import opened Results
  import opened Types
  import opened Words
  import opened Target
  import opened Sections
  import opened Objects
  import opened Linker
  import opened Checks
  import opened Got
  import opened Init
  import opened Kinds
  import opened Loading
  import opened Names

  datatype Input = Input(headers: seq<SectionHeader>, image: nat, answers: seq<Option<nat>>, got: Option<nat>)

  function RelOf(x: Input): seq<RelTable> { RelTablesOf(x.headers, SHT_REL) }

  function RelaOf(x: Input): seq<RelTable> { RelTablesOf(x.headers, SHT_RELA) }

  function GotBytes(arch: Arch, x: Input): nat { Slots(HeaderSyms(x.headers)) * WordSize(arch) }

  // ---- sections ----

  // The section that a header becomes
  function InfoOf(arch: Arch, h: SectionHeader, image: nat, n: nat, answer: Option<nat>): SectionInfo
  {
    var kind := if SectionKindOf(h).Ok? then SectionKindOf(h).value else OTHER;
    var start :=
      if MapBytes(arch, h, n) > 0 && answer.Some? then answer.value else if kind == OTHER then image + h.offset else 0;
    var size := if kind == ZEROFILL && h.size == 0 then 1 else h.size;
    SectionInfo(start, size, kind, if IsImage(kind) && MapBytes(arch, h, n) > 0 then start + size else 0)
  }

  lemma LoadedAsIs(arch: Arch, h: SectionHeader, image: nat, n: nat, answer: Option<nat>, info: SectionInfo,
                   stubSize: nat)
    requires LoadedAs(arch, h, image, n, answer, info, stubSize)
    ensures info == InfoOf(arch, h, image, n, answer)
  {
    hide SectionKindOf, MapBytes;
  }

  function InfosFor(arch: Arch, x: Input): (infos: seq<SectionInfo>)
    requires |x.answers| == |x.headers|
    ensures |infos| == |x.headers|
  {
    seq(|x.headers|, i requires 0 <= i < |x.headers| =>
      InfoOf(arch, x.headers[i], x.image, StubBudget(arch, RelOf(x), RelaOf(x), i), x.answers[i]))
  }

  // Relocations are run for exactly the sections that are loaded by type and flags.
  lemma InfoKinds(arch: Arch, x: Input, i: nat)
    requires |x.answers| == |x.headers| && i < |x.headers|
    ensures IsImage(InfosFor(arch, x)[i].kind) <==> IsFromFile(x.headers[i])
    ensures InfosFor(arch, x)[i].kind != OTHER <==> IsFromFile(x.headers[i]) || IsZeroed(x.headers[i])
  {
    KindIs(x.headers[i]);
    hide SectionKindOf, IsFromFile, IsZeroed, IsText, MapBytes, StubBudget;
  }

  lemma InfosAre(arch: Arch, x: Input, secs: seq<Section>)
    requires |x.answers| == |x.headers| == |secs|
    requires AllLoadedAs(arch, x.headers, RelOf(x), RelaOf(x), x.image, x.answers, secs)
    ensures InfosOf(secs) == InfosFor(arch, x)
  {
    hide LoadedAs, InfoOf, StubBudget, RelOf, RelaOf;
    forall i | 0 <= i < |secs|
      ensures secs[i].info
        == InfoOf(arch, x.headers[i], x.image, StubBudget(arch, RelOf(x), RelaOf(x), i), x.answers[i])
    {
      LoadedAsIs(arch, x.headers[i], x.image, StubBudget(arch, RelOf(x), RelaOf(x), i), x.answers[i], secs[i].info,
                 secs[i].stubSize);
    }
  }

  // ---- stubs counted ----

  // The relocations for section i that may need a stub, as pairs of a relocation section and a place in it
  ghost function BranchesFor(arch: Arch, headers: seq<SectionHeader>, i: nat): set<(nat, nat)>
  {
    set h: nat, q: nat | h < |headers| && q < |headers[h].rels| && IsBranchFor(arch, headers[h], i, q) :: (h, q)
  }

  predicate IsBranchFor(arch: Arch, h: SectionHeader, i: nat, q: nat)
    requires q < |h.rels|
  {
    (h.shType == 9 || h.shType == 4) && h.info == i && IsBranchCode(arch, h.rels[q].rtype)
  }

  lemma {:induction false} StubsInMore(arch: Arch, rels: seq<Rel>, r: Rel)
    ensures StubsIn(arch, rels + [r]) == StubsIn(arch, rels) + (if IsBranchCode(arch, r.rtype) then 1 else 0)
  {
    CountedCodes(arch, r.rtype);
    hide NeedStub, IsBranchCode;
    if rels == [] {
      assert (rels + [r])[1..] == [];
    } else {
      assert (rels + [r])[1..] == rels[1..] + [r];
      StubsInMore(arch, rels[1..], r);
    }
  }

  lemma {:induction false} StubsForMore(arch: Arch, ts: seq<RelTable>, t: RelTable, i: nat)
    ensures StubsFor(arch, ts + [t], i) == StubsFor(arch, ts, i) + (if t.target == i then StubsIn(arch, t.rels) else 0)
  {
    hide StubsIn;
    if ts == [] {
      assert (ts + [t])[1..] == [];
    } else {
      assert (ts + [t])[1..] == ts[1..] + [t];
      StubsForMore(arch, ts[1..], t, i);
    }
  }

  // those of one section, up to a place
  ghost function BranchesIn(arch: Arch, h: SectionHeader, k: nat, i: nat, n: nat): set<(nat, nat)>
    requires n <= |h.rels|
  {
    set q: nat | q < n && IsBranchFor(arch, h, i, q) :: (k, q)
  }

  lemma {:induction false} BranchesInSize(arch: Arch, h: SectionHeader, k: nat, i: nat, n: nat)
    requires n <= |h.rels| && (h.shType == 9 || h.shType == 4) && h.info == i
    ensures |BranchesIn(arch, h, k, i, n)| == StubsIn(arch, h.rels[..n])
  {
    hide IsBranchCode, StubsIn;
    if n == 0 {
      assert h.rels[..0] == [] && BranchesIn(arch, h, k, i, 0) == {};
      assert StubsIn(arch, []) == 0 by { NoStubs(arch); }
    } else {
      BranchesInSize(arch, h, k, i, n - 1);
      assert h.rels[..n] == h.rels[..n - 1] + [h.rels[n - 1]];
      StubsInMore(arch, h.rels[..n - 1], h.rels[n - 1]);
      OneMoreBranch(arch, h, k, i, n - 1);
    }
  }

  lemma OneMoreBranch(arch: Arch, h: SectionHeader, k: nat, i: nat, n: nat)
    requires n < |h.rels|
    ensures |BranchesIn(arch, h, k, i, n + 1)|
      == |BranchesIn(arch, h, k, i, n)| + (if IsBranchFor(arch, h, i, n) then 1 else 0)
  {
    hide IsBranchFor;
    var a := BranchesIn(arch, h, k, i, n);
    assert (k, n) !in a;
    assert BranchesIn(arch, h, k, i, n + 1) == a + (if IsBranchFor(arch, h, i, n) then {(k, n)} else {});
  }

  lemma NoStubs(arch: Arch)
    ensures StubsIn(arch, []) == 0
  {
  }

  lemma LastTable(arch: Arch, headers: seq<SectionHeader>, ty: nat, i: nat)
    requires headers != []
    ensures var n := |headers| - 1;
      StubsFor(arch, RelTablesOf(headers, ty), i)
      == StubsFor(arch, RelTablesOf(headers[..n], ty), i)
        + (if headers[n].shType == ty && headers[n].info == i then StubsIn(arch, headers[n].rels) else 0)
  {
    hide StubsIn, StubsFor;
    var n := |headers| - 1;
    var h, ts := headers[n], RelTablesOf(headers[..n], ty);
    StubsForMore(arch, ts, RelTable(n, h.info, h.link, h.rels), i);
    assert ts + [] == ts;
  }

  // The count is exact: as many stubs are budgeted for a section as the file has branch relocations for it.
  lemma {:induction false} BudgetIs(arch: Arch, headers: seq<SectionHeader>, i: nat)
    ensures StubBudget(arch, RelTablesOf(headers, SHT_REL), RelTablesOf(headers, SHT_RELA), i)
      == |BranchesFor(arch, headers, i)|
  {
    hide IsBranchCode, StubsIn;
    if headers == [] {
      assert BranchesFor(arch, headers, i) == {};
    } else {
      hide StubsFor, RelTablesOf, BranchesFor, BranchesIn;
      var n := |headers| - 1;
      BudgetIs(arch, headers[..n], i);
      LastBranches(arch, headers, i);
      LastTable(arch, headers, SHT_REL, i);
      LastTable(arch, headers, SHT_RELA, i);
      LastBranchesSize(arch, headers[n], n, i);
    }
  }

  lemma LastBranchesSize(arch: Arch, h: SectionHeader, k: nat, i: nat)
    ensures |BranchesIn(arch, h, k, i, |h.rels|)|
      == if (h.shType == 9 || h.shType == 4) && h.info == i then StubsIn(arch, h.rels) else 0
  {
    hide IsBranchCode, StubsIn;
    if (h.shType == 9 || h.shType == 4) && h.info == i {
      BranchesInSize(arch, h, k, i, |h.rels|);
      assert h.rels[..|h.rels|] == h.rels;
    } else {
      assert BranchesIn(arch, h, k, i, |h.rels|) == {};
    }
  }

  lemma LastBranches(arch: Arch, headers: seq<SectionHeader>, i: nat)
    requires headers != []
    ensures var n := |headers| - 1;
      |BranchesFor(arch, headers, i)|
      == |BranchesFor(arch, headers[..n], i)| + |BranchesIn(arch, headers[n], n, i, |headers[n].rels|)|
  {
    hide IsBranchFor;
    var n := |headers| - 1;
    var a, b := BranchesFor(arch, headers[..n], i), BranchesIn(arch, headers[n], n, i, |headers[n].rels|);
    assert BranchesFor(arch, headers, i) == a + b;
    assert a !! b;
  }

  // Section i can be loaded, in terms of its type and flags, the relocations for it, and the answer of the system.
  ghost predicate SectionLoads(arch: Arch, x: Input, i: nat)
    requires |x.answers| == |x.headers| && i < |x.headers|
  {
    var h, n := x.headers[i], |BranchesFor(arch, x.headers, i)|;
    && !IsRefused(h) && (IsFromFile(h) && n > 0 ==> IsText(h) && h.size % 4 == 0)
    && (BytesAsked(h, if arch.AArch64? then 20 * n else 12 * n) > 0 ==> x.answers[i].Some?)
  }

  lemma SectionLoadsIff(arch: Arch, x: Input, i: nat)
    requires |x.answers| == |x.headers| && i < |x.headers|
    ensures Loadable(arch, x.headers[i], StubBudget(arch, RelOf(x), RelaOf(x), i), x.answers[i])
      <==> SectionLoads(arch, x, i)
  {
    hide StubBudget, BranchesFor, IsRefused, IsFromFile, IsText, BytesAsked, Loadable;
    BudgetIs(arch, x.headers, i);
    LoadableIff(arch, x.headers[i], StubBudget(arch, RelOf(x), RelaOf(x), i), x.answers[i]);
  }

  // So data with no branches among its relocations is loaded whenever the system has memory for it.
  lemma DataLoads(arch: Arch, x: Input, i: nat)
    requires |x.answers| == |x.headers| && i < |x.headers| && IsFromFile(x.headers[i]) && x.answers[i].Some?
    requires forall h, q :: 0 <= h < |x.headers| && 0 <= q < |x.headers[h].rels| ==>
      !IsBranchFor(arch, x.headers[h], i, q)
    ensures StubBudget(arch, RelOf(x), RelaOf(x), i) == 0
    ensures Loadable(arch, x.headers[i], StubBudget(arch, RelOf(x), RelaOf(x), i), x.answers[i])
  {
    hide StubBudget, IsBranchFor, BytesAsked, Loadable, IsFromFile;
    BudgetIs(arch, x.headers, i);
    SectionLoadsIff(arch, x, i);
    assert BranchesFor(arch, x.headers, i) == {};
    FromFileStays(x.headers[i]);
  }

  lemma FromFileStays(h: SectionHeader)
    ensures IsFromFile(h) ==> !IsRefused(h)
  {
  }

  // Where section i is: in the memory that the system answered with, if it asked for some, and in the file's image if
  // it is not loaded.
  lemma SectionStart(arch: Arch, x: Input, i: nat)
    requires |x.answers| == |x.headers| && i < |x.headers|
    ensures var h, n := x.headers[i], |BranchesFor(arch, x.headers, i)|;
      InfosFor(arch, x)[i].start
      == if BytesAsked(h, if arch.AArch64? then 20 * n else 12 * n) > 0 && x.answers[i].Some? then x.answers[i].value
         else if IsFromFile(h) || IsZeroed(h) then 0
         else x.image + h.offset
  {
    hide StubBudget, BranchesFor, IsFromFile, IsText, IsZeroed, BytesAsked, Loadable, SectionKindOf, MapBytes;
    BudgetIs(arch, x.headers, i);
    KindIs(x.headers[i]);
    LoadableIff(arch, x.headers[i], StubBudget(arch, RelOf(x), RelaOf(x), i), x.answers[i]);
  }

  // ---- exports ----

  // Hashes and addresses of the symbols that get_names exports
  function AddressExports(arch: Arch, infos: seq<SectionInfo>, es: seq<ElfSym>): seq<Export<nat>>
  {
    if es == [] then []
    else
      var n, e := |es| - 1, es[|es| - 1];
      AddressExports(arch, infos, es[..n])
      + (if IsExport(arch, infos, e) then [Export(HashOf(e), Addr(arch, infos[e.shndx].start + e.value))] else [])
  }

  function ExportsFor(arch: Arch, x: Input): seq<Export<nat>>
    requires |x.answers| == |x.headers|
  {
    AddressExports(arch, InfosFor(arch, x), HeaderSyms(x.headers))
  }

  // ---- success ----

  // What loading demands of the object alone: sections that can be loaded, symbols in sections that are there, and
  // memory for a GOT if it needs one
  ghost predicate Acceptable(arch: Arch, x: Input)
    requires |x.answers| == |x.headers|
  {
    && (forall i :: 0 <= i < |x.headers| ==>
          Loadable(arch, x.headers[i], StubBudget(arch, RelOf(x), RelaOf(x), i), x.answers[i]))
    && (forall e :: e in HeaderSyms(x.headers) ==> OwnAddress(arch, InfosFor(arch, x), e).Ok?)
    && (Slots(HeaderSyms(x.headers)) > 0 ==> x.got.Some?)
  }

  // The table of global addresses after loading the object, if it can be loaded
  ghost function Outcome(arch: Arch, x: Input, g: map<u64, nat>): Result<map<u64, nat>>
    requires |x.answers| == |x.headers|
  {
    if Acceptable(arch, x) then EnterAll(g, ExportsFor(arch, x)) else Abort
  }

  // ---- memory ----

  // an address in the pages of the GOT
  ghost predicate InGot(arch: Arch, x: Input, a: int)
  {
    GotBytes(arch, x) > 0 && x.got.Some? && InPages(x.got.value, GotBytes(arch, x), a)
  }

  // addresses in the pages that loading the object asked for
  ghost predicate Claims(arch: Arch, x: Input, a: int)
  {
    (exists i :: InAnswer(arch, x.headers, RelOf(x), RelaOf(x), x.answers, i, a)) || InGot(arch, x, a)
  }

  ghost predicate ClaimsApart(arch: Arch, x: Input, y: Input)
  {
    forall a :: Claims(arch, x, a) ==> !Claims(arch, y, a)
  }

  // What the system promises for its answers: fresh pages, apart from each other, below the limit of addresses
  ghost predicate SystemAnswers(arch: Arch, m: Mem, x: Input)
  {
    && Answers(arch, m, x.headers, RelOf(x), RelaOf(x), x.answers)
    && Free(m, x.got, GotBytes(arch, x))
    && ApartFromAll(arch, x.headers, RelOf(x), RelaOf(x), x.answers, x.got, GotBytes(arch, x))
    && (x.got.Some? ==> x.got.value + PageUp(GotBytes(arch, x)) <= Limit(arch))
    && forall i :: 0 <= i < |x.headers| && x.answers[i].Some? ==>
        x.answers[i].value + PageUp(Asked(arch, x.headers, RelOf(x), RelaOf(x), i)) <= Limit(arch)
  }

  // Memory r extends m by no more than the object's claims.
  ghost predicate Claimed(arch: Arch, x: Input, m: Mem, r: Mem)
  {
    && (forall a :: a in m ==> a in r && r[a] == m[a])
    && forall a :: a in r && a !in m ==> Claims(arch, x, a)
  }

  lemma PagesStayFree(arch: Arch, x: Input, y: Input, m: Mem, r: Mem, b: nat, n: nat)
    requires Claimed(arch, x, m, r) && ClaimsApart(arch, x, y) && FreshPages(m, b, n)
    requires forall a :: InPages(b, n, a) ==> Claims(arch, y, a)
    ensures FreshPages(r, b, n)
  {
    hide Claims, PageUp;
    forall a | b <= a < b + PageUp(n) ensures a !in r {
      assert InPages(b, n, a);
    }
  }

  lemma GrantedStays(arch: Arch, x: Input, y: Input, m: Mem, r: Mem, i: nat)
    requires Claimed(arch, x, m, r) && ClaimsApart(arch, x, y) && i < |y.headers| == |y.answers|
    requires Granted(arch, m, y.headers[i], StubBudget(arch, RelOf(y), RelaOf(y), i), y.answers[i])
    ensures Granted(arch, r, y.headers[i], StubBudget(arch, RelOf(y), RelaOf(y), i), y.answers[i])
  {
    assert PageUp(0) == 0;
    hide PageUp, Claimed, ClaimsApart, MapBytes, StubBudget, GotBytes, RelOf, RelaOf;
    var n := Asked(arch, y.headers, RelOf(y), RelaOf(y), i);
    if y.answers[i].Some? && n > 0 {
      forall a | InPages(y.answers[i].value, n, a) ensures Claims(arch, y, a) {
        assert InAnswer(arch, y.headers, RelOf(y), RelaOf(y), y.answers, i, a);
      }
      PagesStayFree(arch, x, y, m, r, y.answers[i].value, n);
    }
  }

  lemma GotStays(arch: Arch, x: Input, y: Input, m: Mem, r: Mem)
    requires Claimed(arch, x, m, r) && ClaimsApart(arch, x, y) && Free(m, y.got, GotBytes(arch, y))
    ensures Free(r, y.got, GotBytes(arch, y))
  {
    assert PageUp(0) == 0;
    hide PageUp, Claimed, ClaimsApart, GotBytes, RelOf, RelaOf, InAnswer;
    if y.got.Some? && GotBytes(arch, y) > 0 {
      PagesStayFree(arch, x, y, m, r, y.got.value, GotBytes(arch, y));
    }
  }

  // The answers for one object stay good while another one is loaded.
  lemma AnswersLater(arch: Arch, x: Input, y: Input, m: Mem, r: Mem)
    requires Claimed(arch, x, m, r) && ClaimsApart(arch, x, y) && SystemAnswers(arch, m, y)
    ensures SystemAnswers(arch, r, y)
  {
    hide Claimed, ClaimsApart, MapBytes, StubBudget, GotBytes, RelOf, RelaOf, RequestsApart, Granted, Free, PageUp;
    forall i | 0 <= i < |y.headers|
      ensures Granted(arch, r, y.headers[i], StubBudget(arch, RelOf(y), RelaOf(y), i), y.answers[i])
    {
      GrantedStays(arch, x, y, m, r, i);
    }
    GotStays(arch, x, y, m, r);
  }

  // The pages of the object hold what loading puts there: the bytes of the file, and zeros.
  ghost predicate HasContents(arch: Arch, x: Input, r: Mem)
  {
    && AllExact(arch, x.headers, RelOf(x), RelaOf(x), x.answers, r, |x.headers|)
    && forall a :: InGot(arch, x, a) ==> a in r && r[a] == 0
  }

  // Memory m, extended by exactly what loading the object adds
  ghost predicate IsLoaded(arch: Arch, x: Input, m: Mem, r: Mem)
  {
    Claimed(arch, x, m, r) && HasContents(arch, x, r)
  }

  lemma ExactKept(h: SectionHeader, m: Mem, r: Mem, answer: Option<nat>, n: nat)
    requires PagesExact(h, m, answer, n) && forall a :: a in m ==> a in r && r[a] == m[a]
    ensures PagesExact(h, r, answer, n)
  {
    hide InPages, FileByte;
  }

  lemma AllExactKept(arch: Arch, x: Input, m: Mem, r: Mem)
    requires AllExact(arch, x.headers, RelOf(x), RelaOf(x), x.answers, m, |x.headers|)
    requires forall a :: a in m ==> a in r && r[a] == m[a]
    ensures AllExact(arch, x.headers, RelOf(x), RelaOf(x), x.answers, r, |x.headers|)
  {
    hide Asked, RelOf, RelaOf, PagesExact;
    forall i | 0 <= i < |x.headers|
      ensures PagesExact(x.headers[i], r, x.answers[i], Asked(arch, x.headers, RelOf(x), RelaOf(x), i))
    {
      ExactKept(x.headers[i], m, r, x.answers[i], Asked(arch, x.headers, RelOf(x), RelaOf(x), i));
    }
  }

  lemma ContentsStay(arch: Arch, x: Input, m: Mem, r: Mem)
    requires HasContents(arch, x, m) && forall a :: a in m ==> a in r && r[a] == m[a]
    ensures HasContents(arch, x, r)
  {
    hide AllExact, InGot, RelOf, RelaOf;
    AllExactKept(arch, x, m, r);
  }

  // The object decides its pages.
  lemma SameContents(arch: Arch, x: Input, r: Mem, q: Mem, a: int)
    requires HasContents(arch, x, r) && HasContents(arch, x, q) && Claims(arch, x, a)
    ensures Same(r, q, a)
  {
    hide Asked, GotBytes, RelOf, RelaOf, InPages, FileByte;
    if !InGot(arch, x, a) {
      var i: nat :| InAnswer(arch, x.headers, RelOf(x), RelaOf(x), x.answers, i, a);
      assert PagesExact(x.headers[i], r, x.answers[i], Asked(arch, x.headers, RelOf(x), RelaOf(x), i));
      assert PagesExact(x.headers[i], q, x.answers[i], Asked(arch, x.headers, RelOf(x), RelaOf(x), i));
    }
  }

  // So it decides the memory after loading it.
  lemma LoadedUnique(arch: Arch, x: Input, m: Mem, r: Mem, q: Mem)
    requires IsLoaded(arch, x, m, r) && IsLoaded(arch, x, m, q)
    ensures r == q
  {
    hide HasContents, Claims;
    forall a ensures Same(r, q, a) {
      if a !in m && Claims(arch, x, a) {
        SameContents(arch, x, r, q, a);
      }
    }
    SameEverywhere(r, q);
  }

  lemma SameEverywhere(r: Mem, q: Mem)
    requires forall a :: Same(r, q, a)
    ensures r == q
  {
    forall a ensures a in r <==> a in q {
      assert Same(r, q, a);
    }
    forall a | a in r ensures r[a] == q[a] {
      assert Same(r, q, a);
    }
    assert r == q;
  }

  // Memory after loading the object into m
  ghost function LoadedMemory(arch: Arch, x: Input, m: Mem): Mem
  {
    if exists r :: IsLoaded(arch, x, m, r) then var r :| IsLoaded(arch, x, m, r); r else m
  }

  lemma LoadedMemoryIs(arch: Arch, x: Input, m: Mem, r: Mem)
    requires IsLoaded(arch, x, m, r)
    ensures LoadedMemory(arch, x, m) == r
  {
    hide IsLoaded;
    LoadedUnique(arch, x, m, r, LoadedMemory(arch, x, m));
  }
}
