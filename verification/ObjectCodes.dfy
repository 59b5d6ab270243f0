// Elf.c's processObject and resolveObject: an object from its headers to relocated code.
module ObjectCodes {
  import opened Bits
  import opened Memory
  import opened Results
  import opened Types
  import opened Words
  import opened Target
  import opened Pass
  import opened Runs
  import opened BinaryTree
  import opened Sections
  import opened Objects
  import opened Linker
  import opened Got
  import opened GotFill
  import opened Resolve
  import opened Init
  import opened Kinds
  import opened Loading
  import opened Room
  import opened Names
  import opened NameKeys
  import opened Inputs
  import opened Addresses
  import opened Resolution
  import opened Programs
  import opened OwnPages

  lemma SymbolsLocal(headers: seq<SectionHeader>, tabs: seq<SymbolTable>, flat: seq<ElfSymbol>)
    requires Built(headers, tabs) && flat == Flat(tabs)
    requires forall e :: e in HeaderSyms(headers) ==> SectionSymbolLocal(e)
    ensures forall s :: s in flat ==> SectionSymbolLocal(s.elf)
  {
    hide Flat, HeaderSyms;
    forall s | s in flat ensures SectionSymbolLocal(s.elf) {
      var i :| 0 <= i < |flat| && flat[i] == s;
      assert ElfOf(flat)[i] == s.elf;
    }
  }

  ghost predicate Stubless(secs: seq<Section>)
    reads secs
  {
    SectionsValid(secs) && forall i :: 0 <= i < |secs| ==> secs[i].stubs == []
  }

  lemma FreeForGot(arch: Arch, m: Mem, x: Input)
    requires SystemAnswers(arch, m, x)
    ensures Free(m, x.got, GotBytes(arch, x))
    ensures ApartFromAll(arch, x.headers, RelOf(x), RelaOf(x), x.answers, x.got, GotBytes(arch, x))
  {
  }

  lemma NotLoadable(arch: Arch, x: Input, a: map<u64, nat>)
    requires |x.answers| == |x.headers|
    requires exists i ::
      0 <= i < |x.headers| && !Loadable(arch, x.headers[i], StubBudget(arch, RelOf(x), RelaOf(x), i), x.answers[i])
    ensures Outcome(arch, x, a) == Abort
  {
    hide Loadable;
  }

  lemma LoadedOutcome(arch: Arch, x: Input, a: map<u64, nat>)
    requires |x.answers| == |x.headers|
    requires forall i :: 0 <= i < |x.headers| ==>
      Loadable(arch, x.headers[i], StubBudget(arch, RelOf(x), RelaOf(x), i), x.answers[i])
    ensures Outcome(arch, x, a)
      == if Addresses.Defined(arch, x) && (Slots(HeaderSyms(x.headers)) > 0 ==> x.got.Some?)
         then EnterAll(a, ExportsFor(arch, x)) else Abort
  {
    hide Loadable, OwnAddress, EnterAll, HeaderSyms, ExportsFor, InfosFor, Slots;
  }

  lemma LoadsIf(arch: Arch, x: Input, m: Mem)
    requires SystemAnswers(arch, m, x)
    requires forall i :: 0 <= i < |x.headers| ==>
      Loadable(arch, x.headers[i], StubBudget(arch, RelOf(x), RelaOf(x), i), x.answers[i])
    ensures Loads(arch, x)
  {
    hide Loadable, StubBudget, RelOf, RelaOf, RequestsApart, GotBytes, MapBytes, PageUp, SectionKindOf;
    forall i | 0 <= i < |x.headers| && x.answers[i].Some? ensures x.answers[i].value % PAGE == 0 {
      assert Granted(arch, m, x.headers[i], StubBudget(arch, RelOf(x), RelaOf(x), i), x.answers[i]);
    }
  }

  lemma ResidentIf(arch: Arch, x: Input, m: Mem, secs: seq<Section>)
    requires |x.answers| == |x.headers| == |secs| && InfosOf(secs) == InfosFor(arch, x)
    requires LoadedTo(arch, x.headers, RelOf(x), RelaOf(x), x.image, x.answers, m, secs)
    ensures Resident(arch, x, m)
  {
    hide InfosFor, AllLoadedAs, HasPages, Contains, RelOf, RelaOf, Asked;
  }

  lemma ResidentLater(arch: Arch, x: Input, m: Mem, r: Mem)
    requires |x.answers| == |x.headers| && Resident(arch, x, m)
    requires forall a :: a in m ==> a in r && r[a] == m[a]
    ensures Resident(arch, x, r)
  {
    hide InfosFor, Asked, InPages, RelOf, RelaOf, StubBudget;
    forall i | 0 <= i < |x.headers|
      ensures Contains(x.headers[i], r, InfosFor(arch, x)[i])
      ensures HasPages(r, x.answers[i], Asked(arch, x.headers, RelOf(x), RelaOf(x), i))
    {
      assert Contains(x.headers[i], m, InfosFor(arch, x)[i]);
    }
  }

  lemma ClaimedBoth(arch: Arch, x: Input, m0: Mem, m: Mem, r: Mem)
    requires Added(arch, x.headers, RelOf(x), RelaOf(x), x.answers, m0, m)
    requires forall a :: a in m ==> a in r && r[a] == m[a]
    requires forall a :: a in r && a !in m ==> InGot(arch, x, a)
    requires AllExact(arch, x.headers, RelOf(x), RelaOf(x), x.answers, m, |x.headers|)
    requires forall a :: InGot(arch, x, a) ==> a in r && r[a] == 0
    ensures IsLoaded(arch, x, m0, r)
  {
    hide InAnswer, GotBytes, InPages, Asked, RelOf, RelaOf, PagesExact, AllExact;
    AllExactKept(arch, x, m, r);
  }

  // Symbols known before are none of a new object's.
  lemma NotAmong(l: Linker, ss: seq<ElfSymbol>)
    requires l.Valid() && l.Defined() && AllUnresolved(ss)
    ensures forall k :: k in l.Globals() ==> l.Globals()[k] !in ss && l.Globals()[k] in l.entered
  {
  }

  // get_names leaves the addresses known before alone.
  method NameAll(arch: Arch, l: Linker, system: System, infos: seq<SectionInfo>, tabs: seq<SymbolTable>,
                 ghost flat: seq<ElfSymbol>)
    returns (ok: bool, names: array<Option<seq<u8>>>, count: nat)
    requires l.Valid() && l.Defined() && flat == Flat(tabs) && Distinct(flat) && AllUnresolved(flat)
    requires forall s :: s in flat ==> SectionSymbolLocal(s.elf)
    modifies l`entered, l.gsyms, l.gsyms.repr, flat`addr
    ensures ok <==> Nameable(arch, infos, old(l.Globals()), flat)
    ensures ok ==> l.Valid() && l.Defined() && fresh(l.gsyms.repr - old(l.gsyms.repr))
    ensures ok ==> EnterAll(old(l.Globals()), ExportsOf(arch, infos, flat)) == Ok(l.Globals())
    ensures ok ==> Addressed(arch, infos, flat, |flat|) && Unassigned(flat)
    ensures ok ==> fresh(names) && NamesWritten(names[..], count, ExportsOf(arch, infos, flat))
    ensures Shows(old(l.Globals()), old(l.Addresses()))
  {
    hide Flat, Distinct, Nameable, EnterAll, ExportsOf, SectionSymbolLocal, NamesWritten, Addressed,
         BinaryTree.Contents, BinaryTree.Nodes, BinaryTree.Linked, Ordered;
    ghost var g, a := l.Globals(), l.Addresses();
    NotAmong(l, flat);
    label Before:
    ok, names, count := GetNames(arch, l, system, infos, tabs, flat);
    assert forall k :: k in g ==> g[k].addr == old@Before(g[k].addr);
  }

  lemma ShowsAfter(arch: Arch, l: Linker, x: Input, g: map<u64, ElfSymbol>, a: map<u64, nat>, ss: seq<ElfSymbol>)
    requires |x.answers| == |x.headers| && Hashed(ss) && ElfOf(ss) == HeaderSyms(x.headers)
    requires Addressed(arch, InfosFor(arch, x), ss, |ss|) && Shows(g, a)
    requires EnterAll(g, ExportsOf(arch, InfosFor(arch, x), ss)) == Ok(l.Globals())
    ensures EnterAll(a, ExportsFor(arch, x)) == Ok(l.Addresses())
  {
    hide Addressed, EnterAll, ExportsOf, ExportsFor, HeaderSyms, InfosFor, Hashed;
    AddressesAfter(arch, x, g, a, ss);
    var b := EnterAll(a, ExportsFor(arch, x)).value;
    assert forall k :: k in b <==> k in l.Globals();
    assert b == l.Addresses();
  }

  class ObjectCode {
    const headers: seq<SectionHeader>
    const image: nat
    var sections: seq<Section>
    var symbolTables: seq<SymbolTable>
    var relTables: seq<RelTable>
    var relaTables: seq<RelTable>
    var symbols: array<Option<seq<u8>>>
    var symbolCount: nat
    var gotStart: nat
    var gotSize: nat
    // all symbols, in order
    ghost var flat: seq<ElfSymbol>

    // mkOc
    constructor (headers: seq<SectionHeader>, image: nat)
      ensures this.headers == headers && this.image == image
    {
      this.headers, this.image := headers, image;
      sections, symbolTables, relTables, relaTables, flat := [], [], [], [], [];
      symbols, symbolCount, gotStart, gotSize := new Option<seq<u8>>[0], 0, 0, 0;
    }

    lemma SymbolFacts()
      requires TablesBuilt()
      ensures flat == Flat(symbolTables) && Distinct(flat) && Hashed(flat) && ElfOf(flat) == HeaderSyms(headers)
      ensures (forall e :: e in HeaderSyms(headers) ==> SectionSymbolLocal(e)) ==> forall s :: s in flat ==>
        SectionSymbolLocal(s.elf)
    {
      hide Flat, Distinct, Hashed, HeaderSyms, SectionSymbolLocal;
      if forall e :: e in HeaderSyms(headers) ==> SectionSymbolLocal(e) {
        SymbolsLocal(headers, symbolTables, flat);
      }
    }

    // x is the input for this object.
    ghost predicate Matches(x: Input)
    {
      x.headers == headers && x.image == image && |x.answers| == |headers|
    }

    // The tables are those of the headers.
    ghost predicate TablesBuilt()
      reads this`relTables, this`relaTables, this`symbolTables, this`flat
    {
      && relTables == RelTablesOf(headers, SHT_REL) && relaTables == RelTablesOf(headers, SHT_RELA)
      && flat == Flat(symbolTables) && Built(headers, symbolTables) && Indexed(headers, symbolTables)
      && Distinct(flat) && Hashed(flat) && Stands(headers, symbolTables, flat)
    }

    // The sections are where the input says, in their own memory, and still without stubs.
    ghost predicate SectionsLoaded(arch: Arch, x: Input)
      reads this`sections, sections
    {
      Matches(x) && InfosOf(sections) == InfosFor(arch, x) && Stubless(sections) && Loads(arch, x)
    }

    lemma InfosLoaded(arch: Arch, x: Input)
      requires SectionsLoaded(arch, x)
      ensures Matches(x) && InfosOf(sections) == InfosFor(arch, x)
    {
    }

    // Symbols have their own addresses, and those that need a slot have one in the GOT that the system gave.
    ghost predicate SymbolsPlaced(arch: Arch, x: Input, m: Mem)
      reads this`sections, this`gotStart, this`gotSize, this`flat, flat
    {
      && Addressed(arch, InfosOf(sections), flat, |flat|)
      && LaidOut(flat, gotStart, WordSize(arch), 0) && gotSize == Needed(flat) * WordSize(arch) == GotBytes(arch, x)
      && Mapped(m, gotStart, gotSize)
      && (gotSize > 0 ==> gotStart > 0 && gotStart % PAGE == 0 && x.got == Some(gotStart))
    }

    // processObject. Whether it succeeds, and which addresses are known afterwards, is decided by the input.
    method Process(arch: Arch, l: Linker, system: System, mem: Ram, x: Input) returns (ok: bool)
      requires l.Valid() && l.Defined() && Matches(x) && SystemAnswers(arch, mem.cells, x)
      requires forall e :: e in HeaderSyms(headers) ==> SectionSymbolLocal(e)
      modifies this, mem, l`entered, l.gsyms, l.gsyms.repr
      ensures Matches(x) && (ok <==> Outcome(arch, x, old(l.Addresses())).Ok?)
      ensures ok ==> l.Valid() && l.Defined() && fresh(l.gsyms.repr - old(l.gsyms.repr))
      ensures ok ==> Outcome(arch, x, old(l.Addresses())) == Ok(l.Addresses())
      ensures ok ==> Processed(arch, x, mem.cells) && IsLoaded(arch, x, old(mem.cells), mem.cells)
      ensures ok ==> (forall i :: 0 <= i < |flat| ==> fresh(flat[i])) && forall i :: 0 <= i < |sections| ==>
        fresh(sections[i])
      ensures ok ==> EnterAll(old(l.Globals()), ExportsOf(arch, InfosOf(sections), flat)) == Ok(l.Globals())
      ensures ok ==> NamesWritten(symbols[..], symbolCount, ExportsOf(arch, InfosOf(sections), flat))
      ensures ok ==>
        (Keyed(l.Globals()) <==> Keyed(old(l.Globals())) && ExportsNamed(arch, InfosOf(sections), flat))
    {
      hide AllExact, WellGiven, Keyed, ExportsNamed, Processed, TablesBuilt, SymbolsPlaced, SectionsLoaded, EnterAll,
           AllUnresolved, SectionSymbolLocal, IsLoaded, Outcome, Resident, InfosFor, ExportsOf, NamesWritten, Loadable,
           Added, HeaderSyms, SystemAnswers, Free, RelOf, RelaOf, GotBytes, StubBudget, InfosOf, BinaryTree.Contents,
           BinaryTree.Nodes, BinaryTree.Linked, Ordered;
      ghost var m0, a := mem.cells, l.Addresses();
      ok := Begin(arch, mem, x);
      if !ok {
        NotLoadable(arch, x, a);
        return false;
      }
      ok := Finish(arch, l, system, mem, x, m0);
    }

    // ocInit and load_sections
    method Begin(arch: Arch, mem: Ram, x: Input) returns (ok: bool)
      requires Matches(x) && SystemAnswers(arch, mem.cells, x)
      modifies this, mem
      ensures Matches(x) && TablesBuilt() && AllUnresolved(flat) && forall i :: 0 <= i < |flat| ==> fresh(flat[i])
      ensures WellGiven(arch, x)
      ensures ok <==>
        forall i :: 0 <= i < |x.headers| ==>
          Loadable(arch, x.headers[i], StubBudget(arch, RelOf(x), RelaOf(x), i), x.answers[i])
      ensures ok ==> SectionsLoaded(arch, x) && forall i :: 0 <= i < |sections| ==> fresh(sections[i])
      ensures ok ==> Resident(arch, x, mem.cells)
      ensures ok ==> Added(arch, x.headers, RelOf(x), RelaOf(x), x.answers, old(mem.cells), mem.cells)
      ensures ok ==> AllExact(arch, x.headers, RelOf(x), RelaOf(x), x.answers, mem.cells, |x.headers|)
      ensures ok ==> Free(mem.cells, x.got, GotBytes(arch, x))
    {
      hide TablesBuilt, SectionsLoaded, AllUnresolved, Resident, Loadable, Added, AllExact, Free, ApartFromAll,
           GotBytes, WellGiven;
      ghost var m0 := mem.cells;
      WellGivenIf(arch, m0, x);
      FreeForGot(arch, m0, x);
      hide SystemAnswers;
      Init();
      ok := Load(arch, mem, x);
      if ok {
        FreeAfter(arch, x.headers, RelOf(x), RelaOf(x), x.answers, m0, mem.cells, x.got, GotBytes(arch, x));
      }
    }

    // The object behind its sections: names and GOT
    method Finish(arch: Arch, l: Linker, system: System, mem: Ram, x: Input, ghost m0: Mem) returns (ok: bool)
      requires l.Valid() && l.Defined() && TablesBuilt() && AllUnresolved(flat) && SectionsLoaded(arch, x) && Matches(x)
      requires forall e :: e in HeaderSyms(headers) ==> SectionSymbolLocal(e)
      requires Free(mem.cells, x.got, GotBytes(arch, x))
      requires forall i :: 0 <= i < |x.headers| ==>
        Loadable(arch, x.headers[i], StubBudget(arch, RelOf(x), RelaOf(x), i), x.answers[i])
      requires Resident(arch, x, mem.cells)
      requires Added(arch, x.headers, RelOf(x), RelaOf(x), x.answers, m0, mem.cells) && WellGiven(arch, x)
      requires AllExact(arch, x.headers, RelOf(x), RelaOf(x), x.answers, mem.cells, |x.headers|)
      modifies this`symbols, this`symbolCount, this`gotStart, this`gotSize
      modifies mem, l`entered, l.gsyms, l.gsyms.repr, flat`addr, flat`gotAddr
      ensures Matches(x) && (ok <==> Outcome(arch, x, old(l.Addresses())).Ok?)
      ensures ok ==> l.Valid() && l.Defined() && fresh(l.gsyms.repr - old(l.gsyms.repr))
      ensures ok ==> Outcome(arch, x, old(l.Addresses())) == Ok(l.Addresses())
      ensures ok ==> Processed(arch, x, mem.cells)
      ensures ok ==> (Keyed(l.Globals()) <==> Keyed(old(l.Globals())) && ExportsNamed(arch, InfosOf(sections), flat))
      ensures ok ==> EnterAll(old(l.Globals()), ExportsOf(arch, InfosOf(sections), flat)) == Ok(l.Globals())
      ensures ok ==> NamesWritten(symbols[..], symbolCount, ExportsOf(arch, InfosOf(sections), flat))
      ensures ok ==> IsLoaded(arch, x, m0, mem.cells)
    {
      hide Loads, Stubless, TablesBuilt, SymbolsPlaced, SectionsLoaded, EnterAll, AllUnresolved, SectionSymbolLocal,
           IsLoaded, Outcome, Resident, InfosFor, ExportsOf, ExportsFor, NamesWritten, Nameable, Loadable, Added,
           HeaderSyms, Addresses.Defined, WellGiven, Keyed, ExportsNamed, Hashed, AllExact, InGot;
      ghost var a, m, g := l.Addresses(), mem.cells, l.Globals();
      SymbolFacts();
      NameableIff(arch, x, l.Globals(), a, flat);
      LoadedOutcome(arch, x, a);
      ok := NameAndReserve(arch, l, system, mem, x);
      if ok {
        ResidentLater(arch, x, m, mem.cells);
        ClaimedBoth(arch, x, m0, m, mem.cells);
        KeyedIff(arch, InfosOf(sections), g, flat, l.Globals());
      }
    }

    // get_names and make_got
    method NameAndReserve(arch: Arch, l: Linker, system: System, mem: Ram, x: Input) returns (ok: bool)
      requires l.Valid() && l.Defined() && TablesBuilt() && AllUnresolved(flat) && SectionsLoaded(arch, x)
      requires forall e :: e in HeaderSyms(headers) ==> SectionSymbolLocal(e)
      requires Free(mem.cells, x.got, GotBytes(arch, x))
      modifies this`symbols, this`symbolCount, this`gotStart, this`gotSize
      modifies mem, l`entered, l.gsyms, l.gsyms.repr, flat`addr, flat`gotAddr
      ensures Matches(x)
      ensures ok <==>
        Nameable(arch, InfosFor(arch, x), old(l.Globals()), flat) && (Slots(HeaderSyms(x.headers)) > 0 ==> x.got.Some?)
      ensures ok ==> l.Valid() && l.Defined() && fresh(l.gsyms.repr - old(l.gsyms.repr))
      ensures ok ==> TablesBuilt() && SectionsLoaded(arch, x) && SymbolsPlaced(arch, x, mem.cells)
      ensures ok ==> EnterAll(old(l.Globals()), ExportsOf(arch, InfosOf(sections), flat)) == Ok(l.Globals())
      ensures ok ==> EnterAll(old(l.Addresses()), ExportsFor(arch, x)) == Ok(l.Addresses())
      ensures ok ==> NamesWritten(symbols[..], symbolCount, ExportsOf(arch, InfosOf(sections), flat))
      ensures ok ==> forall a :: a in old(mem.cells) ==> a in mem.cells && mem.cells[a] == old(mem.cells)[a]
      ensures ok ==> forall a :: a in mem.cells && a !in old(mem.cells) ==> InGot(arch, x, a)
      ensures ok ==> forall a :: InGot(arch, x, a) ==> a in mem.cells && mem.cells[a] == 0
    {
      hide Loads, Stubless, TablesBuilt, SymbolsPlaced, SectionsLoaded, EnterAll, Addressed, AllUnresolved, Unassigned,
           BinaryTree.Contents, BinaryTree.Nodes, BinaryTree.Linked, Ordered, SectionSymbolLocal, Nameable,
           NamesWritten, ExportsOf, ExportsFor, HeaderSyms, InfosFor, InGot, GotBytes;
      InfosLoaded(arch, x);
      ok := Name(arch, l, system, x);
      if !ok {
        return false;
      }
      ok := ReserveBeside(arch, l, mem, x);
    }

    // make_got does not touch what is known globally.
    method ReserveBeside(arch: Arch, ghost l: Linker, mem: Ram, x: Input) returns (ok: bool)
      requires l.Valid() && l.Defined()
      requires TablesBuilt() && Matches(x) && Addressed(arch, InfosOf(sections), flat, |flat|) && Unassigned(flat)
      requires Free(mem.cells, x.got, GotBytes(arch, x))
      modifies this`gotStart, this`gotSize, mem, flat`gotAddr
      ensures ok <==> (Slots(HeaderSyms(x.headers)) > 0 ==> x.got.Some?)
      ensures ok ==> SymbolsPlaced(arch, x, mem.cells)
      ensures ok ==> forall a :: a in old(mem.cells) ==> a in mem.cells && mem.cells[a] == old(mem.cells)[a]
      ensures ok ==> forall a :: a in mem.cells && a !in old(mem.cells) ==> InGot(arch, x, a)
      ensures ok ==> forall a :: InGot(arch, x, a) ==> a in mem.cells && mem.cells[a] == 0
      ensures l.Valid() && l.Defined() && l.Addresses() == old(l.Addresses())
    {
      hide TablesBuilt, SymbolsPlaced, Addressed, Unassigned, HeaderSyms, InGot, GotBytes;
      ghost var a := l.Addresses();
      assert forall k :: k in l.Globals() ==> l.Globals()[k] in l.entered;
      label Before:
      ok := Reserve(arch, mem, x);
      assert forall k :: k in l.Globals() ==> l.Globals()[k].addr == old@Before(l.Globals()[k].addr);
      assert l.Addresses() == a;
    }

    // ocInit
    method Init()
      modifies this
      ensures TablesBuilt() && AllUnresolved(flat) && forall i :: 0 <= i < |flat| ==> fresh(flat[i])
    {
      hide Built, Indexed, Stands, Flat, Distinct;
      symbolTables, relTables, relaTables, flat := OcInit(headers);
      assert forall i :: 0 <= i < |flat| ==> flat[i] in flat;
    }

    // load_sections
    method Load(arch: Arch, mem: Ram, x: Input) returns (ok: bool)
      requires TablesBuilt() && Matches(x) && SystemAnswers(arch, mem.cells, x)
      modifies this`sections, mem
      ensures TablesBuilt()
      ensures ok <==>
        forall i :: 0 <= i < |headers| ==>
          Loadable(arch, headers[i], StubBudget(arch, RelOf(x), RelaOf(x), i), x.answers[i])
      ensures ok ==> SectionsLoaded(arch, x) && forall i :: 0 <= i < |sections| ==> fresh(sections[i])
      ensures ok ==> Resident(arch, x, mem.cells)
      ensures ok ==> Added(arch, headers, RelOf(x), RelaOf(x), x.answers, old(mem.cells), mem.cells)
      ensures ok ==> AllExact(arch, x.headers, RelOf(x), RelaOf(x), x.answers, mem.cells, |x.headers|)
    {
      hide Built, Indexed, Stands, Flat, Distinct, Loadable, LoadedAs, StubsFor, Added, AllExact, Hashed, Contains,
           HasPages, InfosFor, RequestsApart;
      ok, sections := LoadSections(arch, mem, headers, relTables, relaTables, image, x.answers);
      if ok {
        InfosAre(arch, x, sections);
        LoadsIf(arch, x, old(mem.cells));
        ResidentIf(arch, x, mem.cells, sections);
      }
    }

    // get_names
    method Name(arch: Arch, l: Linker, system: System, ghost x: Input) returns (ok: bool)
      requires l.Valid() && l.Defined() && TablesBuilt() && AllUnresolved(flat)
      requires Matches(x) && InfosOf(sections) == InfosFor(arch, x)
      requires forall e :: e in HeaderSyms(headers) ==> SectionSymbolLocal(e)
      modifies this`symbols, this`symbolCount, l`entered, l.gsyms, l.gsyms.repr, flat`addr
      ensures ok <==> Nameable(arch, InfosFor(arch, x), old(l.Globals()), flat)
      ensures ok ==> l.Valid() && l.Defined() && fresh(l.gsyms.repr - old(l.gsyms.repr))
      ensures ok ==> Addressed(arch, InfosOf(sections), flat, |flat|) && Unassigned(flat)
      ensures ok ==> EnterAll(old(l.Globals()), ExportsOf(arch, InfosOf(sections), flat)) == Ok(l.Globals())
      ensures ok ==> EnterAll(old(l.Addresses()), ExportsFor(arch, x)) == Ok(l.Addresses())
      ensures ok ==> NamesWritten(symbols[..], symbolCount, ExportsOf(arch, InfosOf(sections), flat))
      ensures ok ==> fresh(symbols)
    {
      hide TablesBuilt, Flat, Distinct, Addressed, EnterAll, NamesWritten, HeaderSyms, Nameable, Hashed, ExportsOf,
           SectionSymbolLocal, InfosFor, AllUnresolved, Unassigned;
      SymbolFacts();
      ok, symbols, symbolCount := NameAll(arch, l, system, InfosOf(sections), symbolTables, flat);
      if ok {
        ShowsAfter(arch, l, x, old(l.Globals()), old(l.Addresses()), flat);
      }
    }

    // make_got
    method Reserve(arch: Arch, mem: Ram, x: Input) returns (ok: bool)
      requires TablesBuilt() && Matches(x) && Addressed(arch, InfosOf(sections), flat, |flat|) && Unassigned(flat)
      requires Free(mem.cells, x.got, GotBytes(arch, x))
      modifies this`gotStart, this`gotSize, mem, flat`gotAddr
      ensures TablesBuilt()
      ensures ok <==> (Slots(HeaderSyms(x.headers)) > 0 ==> x.got.Some?)
      ensures ok ==> SymbolsPlaced(arch, x, mem.cells)
      ensures ok ==> forall a :: a in old(mem.cells) ==> a in mem.cells && mem.cells[a] == old(mem.cells)[a]
      ensures ok ==> forall a :: a in mem.cells && a !in old(mem.cells) ==> InGot(arch, x, a)
      ensures ok ==> forall a :: InGot(arch, x, a) ==> a in mem.cells && mem.cells[a] == 0
    {
      hide Indexed, Stands, Flat, Distinct, HeaderSyms, LaidOut, Hashed, Slots;
      ok, gotStart, gotSize := MakeGot(arch, mem, headers, symbolTables, flat, x.got);
      InPage(gotSize);
      hide PageUp;
    }

    // Everything that Resolve builds on, beside the linker
    ghost predicate Processed(arch: Arch, x: Input, m: Mem)
      reads this`relTables, this`relaTables, this`symbolTables, this`flat, this`sections, this`gotStart, this`gotSize
      reads sections, flat
    {
      && TablesBuilt() && SectionsLoaded(arch, x) && SymbolsPlaced(arch, x, m) && WellGiven(arch, x)
      && Resident(arch, x, m)
    }

    // A processed object stays one while other objects are processed or resolved: they leave its pages alone.
    lemma StaysProcessed(arch: Arch, x: Input, m: Mem, r: Mem)
      requires Processed(arch, x, m) && forall a :: a in m && Claims(arch, x, a) ==> a in r && r[a] == m[a]
      ensures Processed(arch, x, r)
    {
      hide TablesBuilt, Addressed, LaidOut, Needed, Claims, WellGiven, Loads, InfosFor, Stubless;
      ResidentElsewhere(arch, x, m, r);
      forall a | gotStart <= a < gotStart + gotSize ensures a in r {
        GotClaimed(arch, x, gotStart, gotSize, a);
      }
    }

    // resolveObject. It succeeds exactly if every symbol that needs a slot is found, no address has more than 48 bits,
    // and no relocation fails over the filled GOT; all this is decided by the input, the global addresses, the system
    // and memory. A well-formed object with room for its stubs is linked then, and nothing is written outside the pages
    // that loading it asked for.
    method Resolve(arch: Arch, l: Linker, system: System, mem: Ram, ghost x: Input) returns (ok: bool)
      requires l.Valid() && l.Defined() && Matches(x) && Processed(arch, x, mem.cells) && TargetsIn(arch, x)
      requires WordsOnly(arch, l.Addresses()) && forall n :: system(n) < AddressLimit(arch)
      modifies mem, sections, flat`addr
      ensures l.Valid() && l.Defined()
      ensures ok <==> Resolves(arch, x, old(l.Addresses()), system, old(mem.cells))
      ensures ok ==> SymbolsResolved(arch, x, old(l.Addresses()), system, flat) && l.Addresses() == old(l.Addresses())
      ensures ok ==>
        RunsTo(arch, InfosFor(arch, x), StartFor(x, FilledFor(arch, x, old(l.Addresses()), system, old(mem.cells))),
                            JobsFor(arch, x, old(l.Addresses()), system), StateOf(mem, sections))
      ensures ok && WellFormed(arch, x, old(l.Addresses()), system, old(mem.cells)) ==>
        && IsLinked(arch, x, old(l.Addresses()), system, old(mem.cells), StateOf(mem, sections))
        && forall a :: !Claims(arch, x, a) ==> Same(old(mem.cells), mem.cells, a)
    {
      hide Processed, TargetsIn, WordsOnly, AddressLimit, Resolves, SymbolsResolved, RunsTo, StartFor, FilledFor,
           JobsFor, InfosFor, WellFormed, IsLinked, Claims, InfosOf, RelOf, RelaOf, GotBytes, Loads, Resident,
           WellGiven, GotGiven, Sound, EntriesFor, AllJobs, TablesBuilt, SymbolsLoaded, OwnFor, InMemory,
           BinaryTree.Contents, BinaryTree.Nodes, BinaryTree.Linked, Ordered;
      ghost var m, g := mem.cells, l.Addresses();
      ReadyToResolve(arch, x, m);
      IsInMemory(arch, x, m);
      ok := ResolveBeside(arch, l, system, mem, x);
      if ok && WellFormed(arch, x, g, system, m) {
        EndIs(arch, x, g, system, m, StateOf(mem, sections));
        LinkedWhenResolved(arch, x, g, system, m);
      }
    }

    // Resolving leaves the addresses known globally as they are.
    method ResolveBeside(arch: Arch, l: Linker, system: System, mem: Ram, ghost x: Input) returns (ok: bool)
      requires l.Valid() && l.Defined() && Matches(x) && Processed(arch, x, mem.cells) && TargetsIn(arch, x)
      requires WordsOnly(arch, l.Addresses()) && forall n :: system(n) < AddressLimit(arch)
      modifies mem, sections, flat`addr
      ensures l.Valid() && l.Defined()
      ensures ok <==> Resolves(arch, x, old(l.Addresses()), system, old(mem.cells))
      ensures ok ==> SymbolsResolved(arch, x, old(l.Addresses()), system, flat) && l.Addresses() == old(l.Addresses())
      ensures ok ==>
        RunsTo(arch, InfosFor(arch, x), StartFor(x, FilledFor(arch, x, old(l.Addresses()), system, old(mem.cells))),
                            JobsFor(arch, x, old(l.Addresses()), system), StateOf(mem, sections))
    {
      hide Processed, TargetsIn, WordsOnly, AddressLimit, Resolves, SymbolsResolved, RunsTo, StartFor, FilledFor,
           JobsFor, InfosFor, AllJobs, RelOf, RelaOf, OwnFor, SymbolsLoaded, TablesBuilt, GotBytes, BinaryTree.Contents,
           BinaryTree.Nodes, BinaryTree.Linked, Ordered;
      ghost var g := l.Addresses();
      ReadyToResolve(arch, x, mem.cells);
      label Before:
      ok := ResolveByValue(arch, l, system, mem, x);
      if ok {
        forall k | k in l.Globals() ensures l.Globals()[k].addr == old@Before(l.Globals()[k].addr) {
          if l.Globals()[k] in flat {
            StaysKnown(arch, x, g, system, flat, l.Globals()[k], old@Before(l.Globals()[k].addr));
          } else {
            assert l.Globals()[k] in l.entered;
          }
        }
        assert l.Addresses() == g;
      }
    }

    // Success and result by value
    method ResolveByValue(arch: Arch, l: Linker, system: System, mem: Ram, ghost x: Input) returns (ok: bool)
      requires l.Valid() && l.Defined() && Matches(x) && Processed(arch, x, mem.cells) && TargetsIn(arch, x)
      requires WordsOnly(arch, l.Addresses()) && forall n :: system(n) < AddressLimit(arch)
      modifies mem, sections, flat`addr
      ensures l.Valid() && l.Defined()
      ensures ok <==> Resolves(arch, x, old(l.Addresses()), system, old(mem.cells))
      ensures ok ==> SymbolsResolved(arch, x, old(l.Addresses()), system, flat)
      ensures ok ==>
        RunsTo(arch, InfosFor(arch, x), StartFor(x, FilledFor(arch, x, old(l.Addresses()), system, old(mem.cells))),
                            JobsFor(arch, x, old(l.Addresses()), system), StateOf(mem, sections))
    {
      hide TablesBuilt, SectionsLoaded, SymbolsPlaced, WellGiven, AllFillable, AllVerified, Stops, FillAll, Complete,
           RunsTo, Resident, EntriesFor, AddrsOf, AllJobs, JobsFor, InfosFor, RelOf, RelaOf, StartFor, FilledFor,
           AllFound, AllShort, SymbolsResolved, WordsOnly, AddressLimit, TargetsIn, RunsThrough, Processed;
      ghost var m, g, addrs := mem.cells, l.Addresses(), AddrsOf(flat);
      ReadyToResolve(arch, x, m);
      ghost var filled;
      ok, filled := FillAndRelocate(arch, l, system, mem, x);
      AfterFilling(arch, x, g, system, m, filled, addrs);
      RunsOrStops(arch, InfosFor(arch, x), StartFor(x, filled), JobsFor(arch, x, g, system));
    }

    lemma IsInMemory(arch: Arch, x: Input, m: Mem)
      requires Processed(arch, x, m)
      ensures InMemory(arch, x, m)
    {
      ReadyToResolve(arch, x, m);
      hide TablesBuilt, Addressed, Loads, WellGiven, Resident, InfosFor, LaidOut, Needed;
    }

    lemma ReadyToResolve(arch: Arch, x: Input, m: Mem)
      requires Processed(arch, x, m)
      ensures Matches(x) && TablesBuilt() && SymbolsLoaded(arch, x, flat)
      ensures forall p :: 0 <= p < |flat| ==> flat[p].addr == OwnFor(arch, x, flat[p].elf)
      ensures GotBytes(arch, x) > 0 ==> x.got.Some? && x.got.value > 0 && Mapped(m, x.got.value, GotBytes(arch, x))
    {
      hide Built, Indexed, Stands, Flat, Distinct, Hashed, Addressed, Loads, WellGiven, Resident, InfosFor, LaidOut,
           Needed, HeaderSyms, OwnFor, SlotFor;
      SymbolFacts();
      LoadedSymbols(arch, x, flat, gotStart);
    }

    // What filling amounts to, and the relocations that follow it
    lemma AfterFilling(arch: Arch, x: Input, g: map<u64, nat>, system: System, m: Mem, filled: Mem, addrs: seq<nat>)
      requires Matches(x) && TablesBuilt() && TargetsIn(arch, x)
      requires GotBytes(arch, x) > 0 ==> x.got.Some? && x.got.value > 0 && Mapped(m, x.got.value, GotBytes(arch, x))
      requires |addrs| == |flat| && forall p :: 0 <= p < |flat| ==> addrs[p] == OwnFor(arch, x, flat[p].elf)
      requires AllFillable(arch, m, EntriesFor(arch, x, g, system)) ==>
        && filled == FilledFor(arch, x, g, system, m)
        && Complete(arch, filled, flat, EntriesFor(arch, x, g, system), addrs)
      ensures AllFillable(arch, m, EntriesFor(arch, x, g, system)) <==> AllFound(arch, x, g, system)
      ensures AllFillable(arch, m, EntriesFor(arch, x, g, system)) ==>
        && SymbolsResolved(arch, x, g, system, flat)
        && (AllVerified(arch, filled, flat) <==> AllShort(arch, x, g, system))
        && AllJobs(symbolTables, InfosFor(arch, x), RelOf(x), RelaOf(x)) == JobsFor(arch, x, g, system)
    {
      hide AllFillable, AllVerified, FillAll, Complete, AllJobs, JobsFor, InfosFor, AllFound, AllShort, SymbolsResolved,
           OwnFor, GotBytes, Indexed, Stands, Hashed, Flat, Built, Distinct, EntriesFor, TargetsIn, RelOf, RelaOf;
      SymbolFacts();
      FillableIff(arch, x, g, system, m);
      if AllFillable(arch, m, EntriesFor(arch, x, g, system)) {
        ResolvedSymbols(arch, x, g, system, filled, flat, addrs);
        VerifiedIff(arch, x, g, system, filled, flat, addrs);
        JobsAgree(arch, x, g, system, symbolTables, flat);
      }
    }

    // fill_got, verify_got and the pass, over linker symbols and tables
    method FillAndRelocate(arch: Arch, l: Linker, system: System, mem: Ram, ghost x: Input)
      returns (ok: bool, ghost filled: Mem)
      requires l.Valid() && l.Defined() && Matches(x) && Processed(arch, x, mem.cells) && TargetsIn(arch, x)
      requires WordsOnly(arch, l.Addresses()) && forall n :: system(n) < AddressLimit(arch)
      modifies mem, sections, flat`addr
      ensures l.Valid() && l.Defined()
      ensures InfosOf(sections) == InfosFor(arch, x)
      ensures ok ==> AllFillable(arch, old(mem.cells), EntriesFor(arch, x, old(l.Addresses()), system))
      ensures AllFillable(arch, old(mem.cells), EntriesFor(arch, x, old(l.Addresses()), system)) ==>
        && filled == FilledFor(arch, x, old(l.Addresses()), system, old(mem.cells))
        && Complete(arch, filled, flat, EntriesFor(arch, x, old(l.Addresses()), system), old(AddrsOf(flat)))
      ensures AllFillable(arch, old(mem.cells), EntriesFor(arch, x, old(l.Addresses()), system)) && !ok ==>
        !AllVerified(arch, filled, flat)
        || Stops(arch, InfosFor(arch, x), StartFor(x, filled),
                 AllJobs(symbolTables, InfosFor(arch, x), RelOf(x), RelaOf(x)))
      ensures ok ==> AllVerified(arch, filled, flat)
      ensures ok ==>
        RunsTo(arch, InfosFor(arch, x), StartFor(x, filled),
               AllJobs(symbolTables, InfosFor(arch, x), RelOf(x), RelaOf(x)),
                            StateOf(mem, sections))
    {
      hide TablesBuilt, SectionsLoaded, SymbolsPlaced, Flat, AllVerified, EntriesOf, EntriesFor, Complete, FillAll,
           Sound, AllFillable, RunsTo, Stops, AllJobs, AddrsOf, Distinct, WellGiven, Resident, InfosFor, RelOf, RelaOf,
           StartFor;
      ReadyToFill(arch, l, system, x, mem.cells);
      ok, filled := ResolveObject(arch, l, system, mem, sections, symbolTables, flat, relTables, relaTables);
    }

    lemma ReadyToFill(arch: Arch, l: Linker, system: System, x: Input, m: Mem)
      requires Processed(arch, x, m) && WordsOnly(arch, l.Addresses()) && forall n :: system(n) < AddressLimit(arch)
      ensures Sound(arch, EntriesFor(arch, x, l.Addresses(), system))
      ensures Matches(x) && flat == Flat(symbolTables) && Distinct(flat) && SectionsValid(sections)
      ensures relTables == RelOf(x) && relaTables == RelaOf(x) && InfosOf(sections) == InfosFor(arch, x)
      ensures forall r :: State(r, StubsOf(sections)) == StartFor(x, r)
      ensures SymbolsLoaded(arch, x, flat) && EntriesOf(l, system, flat) == EntriesFor(arch, x, l.Addresses(), system)
    {
      hide Built, Indexed, Stands, Flat, Distinct, Hashed, Addressed, Loads, WellGiven, Resident, InfosFor, LaidOut,
           Needed, EntriesOf, EntriesFor, SymbolsLoaded, HeaderSyms, EntryOf, Sound, WordsOnly, AddressLimit, Pow2;
      SymbolFacts();
      WantsAreWords(arch, l, system, InfosOf(sections), flat);
      WordLimit(arch);
      SoundWhenLaidOut(arch, l, system, flat, gotStart);
      LoadedSymbols(arch, x, flat, gotStart);
      EntriesAgree(arch, l, system, x, flat);
      assert StubsOf(sections) == seq(|x.headers|, _ => []);
    }
  }
}
