// Elf.c's load_sections: memory for each section and the stubs behind it.
module Loading {
  import opened Memory
  import opened Results
  import opened Types
  import opened Target
  import opened Sections
  import opened Objects
  import opened Kinds

  // The bytes asked of mmap for a section with n stubs; 0 if it is not asked
  function MapBytes(arch: Arch, h: SectionHeader, n: nat): nat
  {
    var k := SectionKindOf(h);
    if k.Abort? then 0
    else if IsImage(k.value) then h.size + StubBytes(arch, n)
    else if k.value == ZEROFILL then (if h.size > 0 then h.size else 1)
    else 0
  }

  // What loading asserts: only text has stubs, these are word-aligned, and the system has the memory.
  predicate Loadable(arch: Arch, h: SectionHeader, n: nat, answer: Option<nat>)
  {
    && SectionKindOf(h).Ok?
    && (IsImage(SectionKindOf(h).value) ==> n == 0 || SectionKindOf(h).value == TEXT)
    && (IsImage(SectionKindOf(h).value) && n > 0 ==> h.size % 4 == 0)
    && (MapBytes(arch, h, n) > 0 ==> answer.Some?)
  }

  // The loaded section: address and size, and stub space behind the bytes of image sections
  ghost predicate LoadedAs(arch: Arch, h: SectionHeader, image: nat, n: nat, answer: Option<nat>, info: SectionInfo,
                           stubSize: nat)
  {
    && SectionKindOf(h) == Ok(info.kind)
    && info.start == (if MapBytes(arch, h, n) > 0 && answer.Some? then answer.value
                      else if info.kind == OTHER then image + h.offset else 0)
    && info.size == (if info.kind == ZEROFILL && h.size == 0 then 1 else h.size)
    && info.stubOffset == (if IsImage(info.kind) && MapBytes(arch, h, n) > 0 then info.start + info.size else 0)
    && stubSize == (if IsImage(info.kind) then StubBytes(arch, n) else 0)
  }

  // The section's own bytes are in its memory, zeros if the file has none.
  ghost predicate Contains(h: SectionHeader, m: Mem, info: SectionInfo)
  {
    && (IsImage(info.kind) ==>
          forall x :: info.start <= x < info.start + |h.bytes| ==> x in m && m[x] == h.bytes[x - info.start])
    && (info.kind == ZEROFILL ==> forall x :: info.start <= x < info.start + info.size ==> x in m && m[x] == 0)
  }

  // the answer of the system is good for a section
  ghost predicate Granted(arch: Arch, m: Mem, h: SectionHeader, n: nat, answer: Option<nat>)
  {
    && (SectionKindOf(h).Ok? && IsImage(SectionKindOf(h).value) ==> |h.bytes| == h.size)
    && (answer.Some? ==> FreshPages(m, answer.value, MapBytes(arch, h, n)))
  }

  ghost predicate OnlyPages(m: Mem, r: Mem, a: nat, n: nat)
  {
    && (forall x :: x in r <==> x in m || InPages(a, n, x))
    && forall x :: x in m ==> x in r && r[x] == m[x]
  }

  // The byte k of the memory of a section: from the file, if the file has it, otherwise 0
  function FileByte(h: SectionHeader, k: int): u8
  {
    if IsFromFile(h) && 0 <= k < |h.bytes| then h.bytes[k] else 0
  }

  // The pages of a section hold exactly these bytes.
  ghost predicate PagesExact(h: SectionHeader, m: Mem, answer: Option<nat>, n: nat)
  {
    n > 0 && answer.Some? ==>
      forall x :: InPages(answer.value, n, x) ==> x in m && m[x] == FileByte(h, x - answer.value)
  }

  method CopyIn(mem: Ram, a: nat, n: nat, bytes: seq<u8>)
    requires FreshPages(mem.cells, a, n) && |bytes| <= n
    modifies mem
    ensures OnlyPages(old(mem.cells), mem.cells, a, n)
    ensures forall x :: a <= x < a + |bytes| ==> x in mem.cells && mem.cells[x] == bytes[x - a]
    ensures forall x :: InPages(a, n, x) && a + |bytes| <= x ==> x in mem.cells && mem.cells[x] == 0
  {
    mem.MapPages(a, n);
    assert n <= PageUp(n);
    hide PageUp;
    assert Mapped(mem.cells, a, |bytes|);
    mem.cells := Store(mem.cells, a, bytes);
  }

  // In terms of types and flags: a section for n stubs can be loaded.
  predicate MayLoad(arch: Arch, h: SectionHeader, n: nat, answer: Option<nat>)
  {
    && !IsRefused(h) && (IsFromFile(h) && n > 0 ==> IsText(h) && h.size % 4 == 0)
    && (BytesAsked(h, StubBytes(arch, n)) > 0 ==> answer.Some?)
  }

  lemma LoadableIff(arch: Arch, h: SectionHeader, n: nat, answer: Option<nat>)
    ensures Loadable(arch, h, n, answer) <==> MayLoad(arch, h, n, answer)
    ensures MapBytes(arch, h, n) == BytesAsked(h, StubBytes(arch, n))
  {
    KindIs(h);
    hide SectionKindOf, IsFromFile, IsZeroed, IsText;
  }

  // where the section is, and what is there
  ghost predicate StandsAs(arch: Arch, h: SectionHeader, image: nat, n: nat, answer: Option<nat>, info: SectionInfo,
                           m: Mem)
  {
    && info.start == (if BytesAsked(h, StubBytes(arch, n)) > 0 && answer.Some? then answer.value
                      else if IsFromFile(h) || IsZeroed(h) then 0 else image + h.offset)
    && info.size == (if IsZeroed(h) && h.size == 0 then 1 else h.size)
    && (info.kind == OTHER <==> !IsFromFile(h) && !IsZeroed(h))
    && (IsFromFile(h) ==>
          forall a :: info.start <= a < info.start + |h.bytes| ==> a in m && m[a] == h.bytes[a - info.start])
    && (IsZeroed(h) ==> forall a :: info.start <= a < info.start + info.size ==> a in m && m[a] == 0)
  }

  lemma StandsAsLoaded(arch: Arch, h: SectionHeader, image: nat, n: nat, answer: Option<nat>, info: SectionInfo,
                       stubSize: nat, m: Mem)
    requires LoadedAs(arch, h, image, n, answer, info, stubSize) && Contains(h, m, info)
    ensures StandsAs(arch, h, image, n, answer, info, m)
  {
    KindIs(h);
    LoadableIff(arch, h, n, answer);
    hide SectionKindOf, IsFromFile, IsZeroed, IsText, MapBytes, BytesAsked, Loadable, MayLoad;
  }

  // What loading one section ensures
  twostate predicate SectionDone(arch: Arch, mem: Ram, h: SectionHeader, image: nat, n: nat, answer: Option<nat>,
                                 new sec: Section)
    reads mem, sec
  {
    && fresh(sec) && sec.Valid() && sec.stubs == []
    && LoadedAs(arch, h, image, n, answer, sec.info, sec.stubSize) && Contains(h, mem.cells, sec.info)
    && (if MapBytes(arch, h, n) == 0 then mem.cells == old(mem.cells)
        else answer.Some? && OnlyPages(old(mem.cells), mem.cells, answer.value, MapBytes(arch, h, n)))
    && PagesExact(h, mem.cells, answer, MapBytes(arch, h, n))
  }

  lemma ImageExact(h: SectionHeader, m: Mem, answer: Option<nat>, n: nat)
    requires SectionKindOf(h).Ok? && IsImage(SectionKindOf(h).value) && answer.Some?
    requires forall x :: answer.value <= x < answer.value + |h.bytes| ==> x in m && m[x] == h.bytes[x - answer.value]
    requires forall x :: InPages(answer.value, n, x) && answer.value + |h.bytes| <= x ==> x in m && m[x] == 0
    ensures PagesExact(h, m, answer, n)
  {
    KindIs(h);
    hide SectionKindOf, PageUp, IsFromFile, IsZeroed;
  }

  // text and initialised data
  method LoadImage(arch: Arch, mem: Ram, h: SectionHeader, image: nat, n: nat, answer: Option<nat>)
    returns (sec: Option<Section>)
    requires SectionKindOf(h).Ok? && IsImage(SectionKindOf(h).value) && Granted(arch, mem.cells, h, n, answer)
    modifies mem
    ensures sec.Some? <==> Loadable(arch, h, n, answer)
    ensures sec.Some? ==> SectionDone(arch, mem, h, image, n, answer, sec.value)
  {
    var kind := SectionKindOf(h).value;
    assert MapBytes(arch, h, n) == h.size + StubBytes(arch, n);
    hide SectionKindOf, FreshPages, InPages, MapBytes;
    if n != 0 && kind != TEXT {
      return None;
    }
    if h.size + StubBytes(arch, n) == 0 {
      var s := new Section(SectionInfo(0, 0, kind, 0), 0);
      return Some(s);
    }
    if (StubBytes(arch, n) != 0 && h.size % 4 != 0) || answer.None? {
      return None;
    }
    CopyIn(mem, answer.value, h.size + StubBytes(arch, n), h.bytes);
    ImageExact(h, mem.cells, answer, h.size + StubBytes(arch, n));
    var s := new Section(SectionInfo(answer.value, h.size, kind, answer.value + h.size), StubBytes(arch, n));
    return Some(s);
  }

  // data without bytes in the file; an empty section gets one byte
  method LoadZeros(arch: Arch, mem: Ram, h: SectionHeader, image: nat, n: nat, answer: Option<nat>)
    returns (sec: Option<Section>)
    requires SectionKindOf(h) == Ok(ZEROFILL) && Granted(arch, mem.cells, h, n, answer)
    modifies mem
    ensures sec.Some? <==> Loadable(arch, h, n, answer)
    ensures sec.Some? ==> SectionDone(arch, mem, h, image, n, answer, sec.value)
  {
    KindIs(h);
    hide SectionKindOf, IsFromFile, IsZeroed;
    if answer.None? {
      return None;
    }
    var size := if h.size > 0 then h.size else 1;
    assert size <= PageUp(size);
    hide PageUp;
    mem.MapPages(answer.value, size);
    var s := new Section(SectionInfo(answer.value, size, ZEROFILL, 0), 0);
    return Some(s);
  }

  // a section that is not loaded
  method LeaveInImage(arch: Arch, mem: Ram, h: SectionHeader, image: nat, n: nat, answer: Option<nat>)
    returns (sec: Section)
    requires SectionKindOf(h) == Ok(OTHER)
    ensures SectionDone(arch, mem, h, image, n, answer, sec)
  {
    sec := new Section(SectionInfo(image + h.offset, h.size, OTHER, 0), 0);
  }

  // by its kind
  method LoadKind(arch: Arch, mem: Ram, h: SectionHeader, image: nat, n: nat, answer: Option<nat>)
    returns (sec: Option<Section>)
    requires Granted(arch, mem.cells, h, n, answer)
    modifies mem
    ensures sec.Some? <==> Loadable(arch, h, n, answer)
    ensures sec.Some? ==> SectionDone(arch, mem, h, image, n, answer, sec.value)
  {
    hide SectionKindOf, SectionDone, Granted;
    var kind := SectionKindOf(h);
    if kind.Abort? {
      return None;
    }
    match kind.value {
      case TEXT | RODATA | RWDATA =>
        sec := LoadImage(arch, mem, h, image, n, answer);
      case ZEROFILL =>
        sec := LoadZeros(arch, mem, h, image, n, answer);
      case OTHER =>
        var s := LeaveInImage(arch, mem, h, image, n, answer);
        sec := Some(s);
    }
  }

  // One section
  method LoadSection(arch: Arch, mem: Ram, h: SectionHeader, image: nat, n: nat, answer: Option<nat>)
    returns (sec: Option<Section>)
    requires Granted(arch, mem.cells, h, n, answer)
    modifies mem
    ensures sec.Some? <==> Loadable(arch, h, n, answer)
    ensures sec.Some? <==> MayLoad(arch, h, n, answer)
    ensures sec.Some? ==> SectionDone(arch, mem, h, image, n, answer, sec.value)
    ensures sec.Some? ==> StandsAs(arch, h, image, n, answer, sec.value.info, mem.cells)
  {
    hide SectionKindOf, Granted, Loadable, MayLoad, LoadedAs, Contains, StandsAs, MapBytes, OnlyPages, PagesExact;
    LoadableIff(arch, h, n, answer);
    sec := LoadKind(arch, mem, h, image, n, answer);
    if sec.Some? {
      StandsAsLoaded(arch, h, image, n, answer, sec.value.info, sec.value.stubSize, mem.cells);
    }
  }

  // ---- all sections ----

  // numberOfStubsForSection
  function StubBudget(arch: Arch, rel: seq<RelTable>, rela: seq<RelTable>, i: nat): nat
  {
    StubsFor(arch, rel, i) + StubsFor(arch, rela, i)
  }

  predicate PagesApart(a: nat, n: nat, b: nat, k: nat)
  {
    n > 0 && k > 0 ==> a + PageUp(n) <= b || b + PageUp(k) <= a
  }

  function Asked(arch: Arch, headers: seq<SectionHeader>, rel: seq<RelTable>, rela: seq<RelTable>, i: nat): nat
    requires i < |headers|
  {
    MapBytes(arch, headers[i], StubBudget(arch, rel, rela, i))
  }

  // The system as an allocator: what it answers to the requests is fresh and pairwise disjoint.
  ghost predicate Answers(arch: Arch, m: Mem, headers: seq<SectionHeader>, rel: seq<RelTable>, rela: seq<RelTable>,
                          answers: seq<Option<nat>>)
  {
    && |answers| == |headers|
    && (forall i :: 0 <= i < |headers| ==> Granted(arch, m, headers[i], StubBudget(arch, rel, rela, i), answers[i]))
    && forall i, k :: 0 <= i < k < |headers| ==>
        RequestsApart(answers[i], Asked(arch, headers, rel, rela, i), answers[k], Asked(arch, headers, rel, rela, k))
  }

  // the pages of another request, apart from all these
  ghost predicate ApartFromAll(arch: Arch, headers: seq<SectionHeader>, rel: seq<RelTable>, rela: seq<RelTable>,
                               answers: seq<Option<nat>>, other: Option<nat>, k: nat)
  {
    && |answers| == |headers|
    && forall i :: 0 <= i < |headers| ==> RequestsApart(answers[i], Asked(arch, headers, rel, rela, i), other, k)
  }

  ghost predicate AllLoadedAs(arch: Arch, headers: seq<SectionHeader>, rel: seq<RelTable>, rela: seq<RelTable>,
                              image: nat,
                              answers: seq<Option<nat>>, secs: seq<Section>)
    requires |answers| == |headers|
  {
    && |secs| <= |headers|
    && forall i :: 0 <= i < |secs| ==>
        LoadedAs(arch, headers[i], image, StubBudget(arch, rel, rela, i), answers[i], secs[i].info, secs[i].stubSize)
  }

  // Memory after loading one section: pages it asked for are added, nothing else changes.
  ghost predicate Extended(m: Mem, r: Mem, answer: Option<nat>, n: nat)
  {
    if n == 0 then r == m else answer.Some? && OnlyPages(m, r, answer.value, n)
  }

  // free pages for a later request
  ghost predicate Free(m: Mem, other: Option<nat>, k: nat)
  {
    other.Some? ==> FreshPages(m, other.value, k)
  }

  ghost predicate RequestsApart(answer: Option<nat>, n: nat, other: Option<nat>, k: nat)
  {
    answer.Some? && other.Some? ==> PagesApart(answer.value, n, other.value, k)
  }

  lemma FreeLater(m: Mem, r: Mem, answer: Option<nat>, n: nat, other: Option<nat>, k: nat)
    requires Extended(m, r, answer, n) && Free(m, other, k) && RequestsApart(answer, n, other, k)
    ensures Free(r, other, k)
  {
    assert PageUp(0) == 0;
    hide PageUp;
    if other.Some? && n > 0 {
      var b := other.value;
      forall x | b <= x < b + PageUp(k) ensures x !in r {
        assert k > 0 && x !in m && !InPages(answer.value, n, x);
      }
    }
  }

  lemma GrantedLater(arch: Arch, m: Mem, r: Mem, answer: Option<nat>, n: nat, h: SectionHeader, k: nat,
                     other: Option<nat>)
    requires Extended(m, r, answer, n) && Granted(arch, m, h, k, other)
    requires RequestsApart(answer, n, other, MapBytes(arch, h, k))
    ensures Granted(arch, r, h, k, other)
  {
    hide MapBytes, SectionKindOf, FreshPages, Extended;
    FreeLater(m, r, answer, n, other, MapBytes(arch, h, k));
  }

  lemma ContainsLater(m: Mem, r: Mem, answer: Option<nat>, n: nat, h: SectionHeader, info: SectionInfo)
    requires Extended(m, r, answer, n) && Contains(h, m, info)
    ensures Contains(h, r, info)
  {
    hide InPages;
  }

  // The pages a section asked for are mapped.
  ghost predicate HasPages(m: Mem, answer: Option<nat>, n: nat)
  {
    n > 0 ==> answer.Some? && forall x :: InPages(answer.value, n, x) ==> x in m
  }

  lemma PagesLater(m: Mem, r: Mem, answer: Option<nat>, n: nat, other: Option<nat>, k: nat)
    requires Extended(m, r, answer, n) && HasPages(m, other, k)
    ensures HasPages(r, other, k)
  {
    hide InPages;
  }

  lemma ExactLater(m: Mem, r: Mem, answer: Option<nat>, n: nat, h: SectionHeader, other: Option<nat>, k: nat)
    requires Extended(m, r, answer, n) && PagesExact(h, m, other, k)
    ensures PagesExact(h, r, other, k)
  {
    hide InPages, FileByte;
  }

  // All sections loaded so far hold their exact bytes.
  ghost predicate AllExact(arch: Arch, headers: seq<SectionHeader>, rel: seq<RelTable>, rela: seq<RelTable>,
                           answers: seq<Option<nat>>, m: Mem, count: nat)
  {
    && count <= |headers| == |answers|
    && forall i :: 0 <= i < count ==> PagesExact(headers[i], m, answers[i], Asked(arch, headers, rel, rela, i))
  }

  lemma ExactNext(arch: Arch, headers: seq<SectionHeader>, rel: seq<RelTable>, rela: seq<RelTable>,
                  answers: seq<Option<nat>>, m: Mem, r: Mem, i: nat)
    requires AllExact(arch, headers, rel, rela, answers, m, i) && i < |headers|
    requires Extended(m, r, answers[i], Asked(arch, headers, rel, rela, i))
    requires PagesExact(headers[i], r, answers[i], Asked(arch, headers, rel, rela, i))
    ensures AllExact(arch, headers, rel, rela, answers, r, i + 1)
  {
    hide Extended, PagesExact, Asked;
    forall k | 0 <= k < i ensures PagesExact(headers[k], r, answers[k], Asked(arch, headers, rel, rela, k)) {
      ExactLater(m, r, answers[i], Asked(arch, headers, rel, rela, i), headers[k], answers[k],
                 Asked(arch, headers, rel, rela, k));
    }
  }

  lemma PagesNow(m: Mem, r: Mem, answer: Option<nat>, n: nat)
    requires Extended(m, r, answer, n)
    ensures HasPages(r, answer, n) && forall x :: x in m ==> x in r && r[x] == m[x]
  {
    hide InPages;
  }

  // The sections loaded so far, and what memory has of them
  ghost predicate LoadedTo(arch: Arch, headers: seq<SectionHeader>, rel: seq<RelTable>, rela: seq<RelTable>, image: nat,
                           answers: seq<Option<nat>>, m: Mem, secs: seq<Section>)
    requires |answers| == |headers|
  {
    && AllLoadedAs(arch, headers, rel, rela, image, answers, secs)
    && (forall i :: 0 <= i < |secs| ==> Contains(headers[i], m, secs[i].info))
    && (forall i :: 0 <= i < |secs| ==> HasPages(m, answers[i], Asked(arch, headers, rel, rela, i)))
  }

  // an address in the pages that section i asked for
  ghost predicate InAnswer(arch: Arch, headers: seq<SectionHeader>, rel: seq<RelTable>, rela: seq<RelTable>,
                           answers: seq<Option<nat>>, i: nat, x: int)
  {
    && i < |headers| == |answers| && answers[i].Some?
    && Asked(arch, headers, rel, rela, i) > 0 && InPages(answers[i].value, Asked(arch, headers, rel, rela, i), x)
  }

  // Memory m with some of these pages added
  ghost predicate Added(arch: Arch, headers: seq<SectionHeader>, rel: seq<RelTable>, rela: seq<RelTable>,
                        answers: seq<Option<nat>>, m: Mem, r: Mem)
  {
    && (forall x :: x in m ==> x in r && r[x] == m[x])
    && forall x :: x in r && x !in m ==> exists i :: InAnswer(arch, headers, rel, rela, answers, i, x)
  }

  lemma AddedNext(arch: Arch, headers: seq<SectionHeader>, rel: seq<RelTable>, rela: seq<RelTable>,
                  answers: seq<Option<nat>>, m0: Mem, m: Mem, r: Mem, i: nat)
    requires Added(arch, headers, rel, rela, answers, m0, m) && i < |headers| == |answers|
    requires Extended(m, r, answers[i], Asked(arch, headers, rel, rela, i))
    ensures Added(arch, headers, rel, rela, answers, m0, r)
  {
    hide Asked, InPages;
    forall x | x in r && x !in m0 ensures exists k :: InAnswer(arch, headers, rel, rela, answers, k, x) {
      if x !in m {
        assert InAnswer(arch, headers, rel, rela, answers, i, x);
      }
    }
  }

  // Pages apart from all those added stay free.
  lemma FreeAfter(arch: Arch, headers: seq<SectionHeader>, rel: seq<RelTable>, rela: seq<RelTable>,
                  answers: seq<Option<nat>>, m: Mem, r: Mem, other: Option<nat>, k: nat)
    requires Added(arch, headers, rel, rela, answers, m, r)
    requires Free(m, other, k) && ApartFromAll(arch, headers, rel, rela, answers, other, k)
    ensures Free(r, other, k)
  {
    assert PageUp(0) == 0;
    hide Asked, PageUp;
    assert forall i :: 0 <= i < |headers| ==> RequestsApart(answers[i], Asked(arch, headers, rel, rela, i), other, k);
  }

  // the requests that are still to come
  ghost predicate Pending(arch: Arch, m: Mem, headers: seq<SectionHeader>, rel: seq<RelTable>, rela: seq<RelTable>,
                          answers: seq<Option<nat>>, i: nat)
    requires |answers| == |headers|
  {
    forall k :: i <= k < |headers| ==> Granted(arch, m, headers[k], StubBudget(arch, rel, rela, k), answers[k])
  }

  lemma LoadedNext(arch: Arch, headers: seq<SectionHeader>, rel: seq<RelTable>, rela: seq<RelTable>, image: nat,
                   answers: seq<Option<nat>>, m0: Mem, m: Mem, r: Mem, secs: seq<Section>, s: Section)
    requires Answers(arch, m0, headers, rel, rela, answers) && |secs| < |headers|
    requires LoadedTo(arch, headers, rel, rela, image, answers, m, secs)
    requires Pending(arch, m, headers, rel, rela, answers, |secs|)
    requires var i := |secs|;
      && Extended(m, r, answers[i], Asked(arch, headers, rel, rela, i)) && Contains(headers[i], r, s.info)
      && LoadedAs(arch, headers[i], image, StubBudget(arch, rel, rela, i), answers[i], s.info, s.stubSize)
    ensures LoadedTo(arch, headers, rel, rela, image, answers, r, secs + [s])
    ensures Pending(arch, r, headers, rel, rela, answers, |secs| + 1)
  {
    hide Extended, Contains, HasPages, LoadedAs, StubBudget, MapBytes, Granted, RequestsApart;
    var i, n := |secs|, Asked(arch, headers, rel, rela, |secs|);
    forall k | 0 <= k < i
      ensures Contains(headers[k], r, secs[k].info) && HasPages(r, answers[k], Asked(arch, headers, rel, rela, k))
    {
      ContainsLater(m, r, answers[i], n, headers[k], secs[k].info);
      PagesLater(m, r, answers[i], n, answers[k], Asked(arch, headers, rel, rela, k));
    }
    PagesNow(m, r, answers[i], n);
    forall k | i < k < |headers| ensures Granted(arch, r, headers[k], StubBudget(arch, rel, rela, k), answers[k]) {
      GrantedLater(arch, m, r, answers[i], n, headers[k], StubBudget(arch, rel, rela, k), answers[k]);
    }
  }

  lemma AllStand(arch: Arch, headers: seq<SectionHeader>, rel: seq<RelTable>, rela: seq<RelTable>, image: nat,
                 answers: seq<Option<nat>>, m: Mem, secs: seq<Section>)
    requires |answers| == |headers| == |secs| && LoadedTo(arch, headers, rel, rela, image, answers, m, secs)
    ensures forall i :: 0 <= i < |secs| ==>
      StandsAs(arch, headers[i], image, StubBudget(arch, rel, rela, i), answers[i], secs[i].info, m)
  {
    hide LoadedAs, Contains, HasPages, StandsAs, StubBudget, MapBytes;
    forall i | 0 <= i < |secs|
      ensures StandsAs(arch, headers[i], image, StubBudget(arch, rel, rela, i), answers[i], secs[i].info, m)
    {
      assert Contains(headers[i], m, secs[i].info);
      StandsAsLoaded(arch, headers[i], image, StubBudget(arch, rel, rela, i), answers[i], secs[i].info,
                     secs[i].stubSize, m);
    }
  }

  lemma AllLoadableIff(arch: Arch, headers: seq<SectionHeader>, rel: seq<RelTable>, rela: seq<RelTable>,
                       answers: seq<Option<nat>>)
    requires |answers| == |headers|
    ensures
      (forall i :: 0 <= i < |headers| ==> Loadable(arch, headers[i], StubBudget(arch, rel, rela, i), answers[i]))
      <==> forall i :: 0 <= i < |headers| ==> MayLoad(arch, headers[i], StubBudget(arch, rel, rela, i), answers[i])
  {
    hide Loadable, MayLoad, StubBudget;
    forall i | 0 <= i < |headers|
      ensures Loadable(arch, headers[i], StubBudget(arch, rel, rela, i), answers[i])
        <==> MayLoad(arch, headers[i], StubBudget(arch, rel, rela, i), answers[i])
    {
      LoadableIff(arch, headers[i], StubBudget(arch, rel, rela, i), answers[i]);
    }
  }

  // load_sections
  method LoadSections(arch: Arch, mem: Ram, headers: seq<SectionHeader>, rel: seq<RelTable>, rela: seq<RelTable>,
                      image: nat,
                      answers: seq<Option<nat>>)
    returns (ok: bool, secs: seq<Section>)
    requires Answers(arch, mem.cells, headers, rel, rela, answers)
    modifies mem
    ensures ok <==>
      forall i :: 0 <= i < |headers| ==> Loadable(arch, headers[i], StubBudget(arch, rel, rela, i), answers[i])
    ensures ok <==>
      forall i :: 0 <= i < |headers| ==> MayLoad(arch, headers[i], StubBudget(arch, rel, rela, i), answers[i])
    ensures ok ==> |secs| == |headers| && forall i :: 0 <= i < |secs| ==>
      StandsAs(arch, headers[i], image, StubBudget(arch, rel, rela, i), answers[i], secs[i].info, mem.cells)
    ensures ok ==> |secs| == |headers| && LoadedTo(arch, headers, rel, rela, image, answers, mem.cells, secs)
    ensures ok ==> SectionsValid(secs) && forall i :: 0 <= i < |secs| ==> fresh(secs[i]) && secs[i].stubs == []
    ensures ok ==> Added(arch, headers, rel, rela, answers, old(mem.cells), mem.cells)
    ensures ok ==> AllExact(arch, headers, rel, rela, answers, mem.cells, |headers|)
  {
    hide MayLoad, StandsAs, Loadable, LoadedTo, Pending, SectionDone, Answers, StubsFor, Added, AllExact;
    secs := [];
    ghost var m0 := mem.cells;
    Start(arch, m0, headers, rel, rela, image, answers);
    AllLoadableIff(arch, headers, rel, rela, answers);
    var i := 0;
    while i < |headers|
      invariant i <= |headers| && |secs| == i && |answers| == |headers|
      invariant forall k :: 0 <= k < i ==> Loadable(arch, headers[k], StubBudget(arch, rel, rela, k), answers[k])
      invariant LoadedTo(arch, headers, rel, rela, image, answers, mem.cells, secs)
      invariant Pending(arch, mem.cells, headers, rel, rela, answers, i)
      invariant SectionsValid(secs) && forall k :: 0 <= k < |secs| ==> fresh(secs[k]) && secs[k].stubs == []
      invariant Added(arch, headers, rel, rela, answers, m0, mem.cells)
      invariant AllExact(arch, headers, rel, rela, answers, mem.cells, i)
    {
      var sec := LoadNext(arch, mem, headers, rel, rela, image, answers, secs, m0);
      if sec.None? {
        assert !Loadable(arch, headers[i], StubBudget(arch, rel, rela, i), answers[i]);
        return false, [];
      }
      secs := secs + [sec.value];
      i := i + 1;
    }
    AllStand(arch, headers, rel, rela, image, answers, mem.cells, secs);
    return true, secs;
  }

  // The section behind those loaded so far
  method LoadNext(arch: Arch, mem: Ram, headers: seq<SectionHeader>, rel: seq<RelTable>, rela: seq<RelTable>,
                  image: nat,
                  answers: seq<Option<nat>>, secs: seq<Section>, ghost m0: Mem)
    returns (sec: Option<Section>)
    requires Answers(arch, m0, headers, rel, rela, answers) && |secs| < |headers| == |answers|
    requires LoadedTo(arch, headers, rel, rela, image, answers, mem.cells, secs)
    requires Pending(arch, mem.cells, headers, rel, rela, answers, |secs|)
    requires Added(arch, headers, rel, rela, answers, m0, mem.cells)
    requires AllExact(arch, headers, rel, rela, answers, mem.cells, |secs|)
    modifies mem
    ensures sec.Some? <==> Loadable(arch, headers[|secs|], StubBudget(arch, rel, rela, |secs|), answers[|secs|])
    ensures sec.Some? ==>
      && fresh(sec.value) && sec.value.Valid() && sec.value.stubs == []
      && LoadedTo(arch, headers, rel, rela, image, answers, mem.cells, secs + [sec.value])
      && Pending(arch, mem.cells, headers, rel, rela, answers, |secs| + 1)
      && Added(arch, headers, rel, rela, answers, m0, mem.cells)
      && AllExact(arch, headers, rel, rela, answers, mem.cells, |secs| + 1)
  {
    hide PagesExact, AllExact, Loadable, LoadedTo, LoadedAs, Contains, Answers, StubsFor, Granted, OnlyPages, MapBytes,
         Added;
    var i := |secs|;
    ghost var m := mem.cells;
    var n := NumberOfStubsForSection(arch, rel, rela, i);
    sec := LoadSection(arch, mem, headers[i], image, n, answers[i]);
    if sec.Some? {
      LoadedNext(arch, headers, rel, rela, image, answers, m0, m, mem.cells, secs, sec.value);
      AddedNext(arch, headers, rel, rela, answers, m0, m, mem.cells, i);
      ExactNext(arch, headers, rel, rela, answers, m, mem.cells, i);
    }
  }

  lemma Start(arch: Arch, m: Mem, headers: seq<SectionHeader>, rel: seq<RelTable>, rela: seq<RelTable>, image: nat,
              answers: seq<Option<nat>>)
    requires Answers(arch, m, headers, rel, rela, answers)
    ensures |answers| == |headers| && Pending(arch, m, headers, rel, rela, answers, 0)
    ensures LoadedTo(arch, headers, rel, rela, image, answers, m, [])
    ensures Added(arch, headers, rel, rela, answers, m, m) && AllExact(arch, headers, rel, rela, answers, m, 0)
  {
    hide Granted;
  }
}
