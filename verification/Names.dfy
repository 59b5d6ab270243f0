// Elf.c's get_names: addresses for the symbols an object defines, and the global ones among them exported.
module Names {
  import opened Memory
  import opened Results
  import opened Types
  import opened Words
  import opened Target
  import opened Objects
  import opened BinaryTree
  import opened Linker
  import opened Got
  import opened Init

  predicate IsBound(e: ElfSym) { e.bind == STB_LOCAL || e.bind == STB_GLOBAL || e.bind == STB_WEAK }

  predicate IsRegular(e: ElfSym) { e.stype == STT_NOTYPE || e.stype == STT_OBJECT || e.stype == STT_FUNC }

  predicate IsExternal(e: ElfSym) { e.bind == STB_GLOBAL || e.bind == STB_WEAK }

  // a bound symbol of regular type that an ordinary section defines
  predicate IsOrdinary(e: ElfSym)
  {
    IsBound(e) && e.shndx != SHN_UNDEF && e.shndx < SHN_LORESERVE && IsRegular(e)
  }

  // The address of a symbol in its object, 0 if it has none there
  function OwnAddress(arch: Arch, infos: seq<SectionInfo>, e: ElfSym): Result<nat>
  {
    if e.shndx == SHN_COMMON then Abort
    else if e.stype == STT_SECTION then
      if e.shndx < |infos| then Ok(Addr(arch, infos[e.shndx].start)) else Abort
    else if e.bind == STB_WEAK then Ok(0)
    else if IsOrdinary(e) then
      if e.shndx < |infos| then Ok(Addr(arch, infos[e.shndx].start + e.value)) else Abort
    else Ok(0)
  }

  // The symbols that an object exports: strong, global, ordinary, at an address that is not 0
  predicate IsExport(arch: Arch, infos: seq<SectionInfo>, e: ElfSym)
  {
    && e.bind == STB_GLOBAL && IsOrdinary(e) && e.shndx != SHN_COMMON && e.shndx < |infos|
    && Addr(arch, infos[e.shndx].start + e.value) != 0
  }

  // ---- in terms of binding, type and section index ----

  // a strong symbol of an ordinary section
  predicate IsDefined(e: ElfSym)
  {
    (e.bind == 0 || e.bind == 1) && e.stype <= 2 && 0 < e.shndx < 0xff00
  }

  // The address of a symbol: start of its section, plus its value if it is not the symbol of the section itself; 0 for
  // those that are defined elsewhere, or weak
  function PlaceOfSymbol(arch: Arch, infos: seq<SectionInfo>, e: ElfSym): nat
  {
    if e.shndx == 0xfff2 || |infos| <= e.shndx then 0
    else if e.stype == 3 then Addr(arch, infos[e.shndx].start)
    else if IsDefined(e) then Addr(arch, infos[e.shndx].start + e.value)
    else 0
  }

  lemma OwnAddressIs(arch: Arch, infos: seq<SectionInfo>, e: ElfSym)
    ensures OwnAddress(arch, infos, e).Ok?
      <==> e.shndx != 0xfff2 && (e.stype == 3 || IsDefined(e) ==> e.shndx < |infos|)
    ensures PlaceOfSymbol(arch, infos, e)
      == if OwnAddress(arch, infos, e).Ok? then OwnAddress(arch, infos, e).value else 0
  {
    hide Addr;
  }

  lemma ExportIff(arch: Arch, infos: seq<SectionInfo>, e: ElfSym)
    ensures IsExport(arch, infos, e) <==>
      && e.bind == 1 && e.stype <= 2 && 0 < e.shndx < 0xff00 && e.shndx < |infos|
      && Addr(arch, infos[e.shndx].start + e.value) != 0
  {
    hide Addr;
  }

  // ---- exports ----

  // with section symbols local, as the ELF specification demands, what get_names exports is just that
  lemma ExportedIff(arch: Arch, infos: seq<SectionInfo>, e: ElfSym)
    requires e.stype == STT_SECTION ==> e.bind == STB_LOCAL
    requires OwnAddress(arch, infos, e).Ok?
    ensures IsExternal(e) && OwnAddress(arch, infos, e).value != 0 <==> IsExport(arch, infos, e)
  {
  }

  function ExportsOf(arch: Arch, infos: seq<SectionInfo>, ss: seq<ElfSymbol>): seq<Export<ElfSymbol>>
  {
    if ss == [] then []
    else
      var n := |ss| - 1;
      ExportsOf(arch, infos, ss[..n])
      + (if IsExport(arch, infos, ss[n].elf) then [Export(ss[n].hash, ss[n])] else [])
  }

  lemma ExportsNext(arch: Arch, infos: seq<SectionInfo>, ss: seq<ElfSymbol>, c: nat)
    requires c < |ss|
    ensures ExportsOf(arch, infos, ss[..c + 1])
      == ExportsOf(arch, infos, ss[..c])
        + (if IsExport(arch, infos, ss[c].elf) then [Export(ss[c].hash, ss[c])] else [])
  {
    assert ss[..c + 1][..c] == ss[..c];
  }

  // Exactly the intended symbols are exported, each under its hash.
  lemma {:induction false} ExportsExactly(arch: Arch, infos: seq<SectionInfo>, ss: seq<ElfSymbol>, e: Export<ElfSymbol>)
    ensures e in ExportsOf(arch, infos, ss) <==>
      e.value in ss && IsExport(arch, infos, e.value.elf) && e.key == e.value.hash
    ensures |ExportsOf(arch, infos, ss)| <= |ss|
  {
    hide IsExport;
    if ss != [] {
      ExportsExactly(arch, infos, ss[..|ss| - 1], e);
      assert ss == ss[..|ss| - 1] + [ss[|ss| - 1]];
    }
  }

  // A weak symbol is never exported.
  lemma WeakNever(arch: Arch, infos: seq<SectionInfo>, ss: seq<ElfSymbol>)
    ensures forall e :: e in ExportsOf(arch, infos, ss) ==> e.value.elf.bind == STB_GLOBAL
  {
    forall e | e in ExportsOf(arch, infos, ss) ensures e.value.elf.bind == STB_GLOBAL {
      ExportsExactly(arch, infos, ss, e);
    }
  }

  // Entering one more
  lemma {:induction false} EnterOneMore<V>(m: map<u64, V>, es: seq<Export<V>>, e: Export<V>)
    ensures EnterAll(m, es + [e])
      == if EnterAll(m, es).Ok? && e.key !in EnterAll(m, es).value then Ok(EnterAll(m, es).value[e.key := e.value])
         else Abort
    decreases |es|
  {
    if es == [] {
      assert [e][1..] == [];
    } else {
      assert (es + [e])[0] == es[0] && (es + [e])[1..] == es[1..] + [e];
      if es[0].key !in m {
        EnterOneMore(m[es[0].key := es[0].value], es[1..], e);
      }
    }
  }

  lemma {:induction false} AbortStays(arch: Arch, infos: seq<SectionInfo>, m: map<u64, ElfSymbol>, ss: seq<ElfSymbol>,
                                      c: nat)
    requires c <= |ss| && EnterAll(m, ExportsOf(arch, infos, ss[..c])).Abort?
    ensures EnterAll(m, ExportsOf(arch, infos, ss)).Abort?
  {
    hide EnterAll, IsExport;
    if c == |ss| {
      assert ss[..c] == ss;
    } else {
      var n := |ss| - 1;
      assert ss[..n][..c] == ss[..c] && ss[..n + 1] == ss;
      AbortStays(arch, infos, m, ss[..n], c);
      ExportsNext(arch, infos, ss, n);
      EnterOneMore(m, ExportsOf(arch, infos, ss[..n]), Export(ss[n].hash, ss[n]));
      assert ExportsOf(arch, infos, ss[..n]) + [] == ExportsOf(arch, infos, ss[..n]);
    }
  }

  // ---- get_names ----

  predicate SectionSymbolLocal(e: ElfSym) { e.stype == STT_SECTION ==> e.bind == STB_LOCAL }

  // One symbol
  method NameOne(arch: Arch, l: Linker, system: System, infos: seq<SectionInfo>, s: ElfSymbol)
    returns (ok: bool, exported: bool)
    requires l.Valid() && l.Defined() && s.addr == 0 && SectionSymbolLocal(s.elf)
    modifies l`entered, l.gsyms, l.gsyms.repr, s`addr
    ensures ok <==> OwnAddress(arch, infos, s.elf).Ok? && (IsExport(arch, infos, s.elf) ==> s.hash !in old(l.Globals()))
    ensures ok ==> l.Valid() && l.Defined() && fresh(l.gsyms.repr - old(l.gsyms.repr))
    ensures ok ==> s.addr == OwnAddress(arch, infos, s.elf).value && exported == IsExport(arch, infos, s.elf)
    ensures ok ==> l.Globals() == if exported then old(l.Globals())[s.hash := s] else old(l.Globals())
  {
    exported := false;
    ghost var g := l.Globals();
    var e := s.elf;
    if e.shndx == SHN_COMMON {
      return false, false;
    }
    if e.stype == STT_SECTION {
      if |infos| <= e.shndx {
        return false, false;
      }
      s.addr := Addr(arch, infos[e.shndx].start);
    } else if e.bind == STB_WEAK {
      s.addr := 0;
    } else if IsOrdinary(e) {
      if |infos| <= e.shndx {
        return false, false;
      }
      s.addr := Addr(arch, infos[e.shndx].start + e.value);
    }
    assert Ok(s.addr) == OwnAddress(arch, infos, e);
    ExportedIff(arch, infos, e);
    hide OwnAddress, IsExport;
    ok := true;
    if s.addr != 0 && IsExternal(e) {
      ok := l.Insert(s, e.bind == STB_WEAK, system);
      exported := true;
    }
  }

  // Every symbol has a section that is there, and no exported hash is there twice.
  ghost predicate Nameable(arch: Arch, infos: seq<SectionInfo>, g0: map<u64, ElfSymbol>, ss: seq<ElfSymbol>)
  {
    && EnterAll(g0, ExportsOf(arch, infos, ss)).Ok?
    && forall s :: s in ss ==> OwnAddress(arch, infos, s.elf).Ok?
  }

  // The first c symbols have their addresses; the others have none yet.
  ghost predicate Addressed(arch: Arch, infos: seq<SectionInfo>, flat: seq<ElfSymbol>, c: nat)
    reads flat
  {
    && (forall p :: 0 <= p < |flat| && p < c ==>
          OwnAddress(arch, infos, flat[p].elf) == Ok(flat[p].addr))
    && forall p :: 0 <= p < |flat| && c <= p ==> flat[p].addr == 0 && SectionSymbolLocal(flat[p].elf)
  }

  // The table of globals after the first c symbols
  ghost predicate Entered(arch: Arch, infos: seq<SectionInfo>, g0: map<u64, ElfSymbol>, flat: seq<ElfSymbol>, c: nat,
                          g: map<u64, ElfSymbol>)
  {
    c <= |flat| && EnterAll(g0, ExportsOf(arch, infos, flat[..c])) == Ok(g)
  }

  // The names written are those of the exports, in order.
  ghost predicate NamesWritten(names: seq<Option<seq<u8>>>, cur: nat, es: seq<Export<ElfSymbol>>)
  {
    cur == |es| <= |names| && forall k :: 0 <= k < cur ==> names[k] == Some(NameOf(es[k].value.elf))
  }

  lemma EnteredNext(arch: Arch, infos: seq<SectionInfo>, g0: map<u64, ElfSymbol>, flat: seq<ElfSymbol>, c: nat,
                    g: map<u64, ElfSymbol>)
    requires Entered(arch, infos, g0, flat, c, g) && c < |flat|
    ensures IsExport(arch, infos, flat[c].elf) && flat[c].hash !in g ==>
      Entered(arch, infos, g0, flat, c + 1, g[flat[c].hash := flat[c]])
    ensures !IsExport(arch, infos, flat[c].elf) ==> Entered(arch, infos, g0, flat, c + 1, g)
    ensures IsExport(arch, infos, flat[c].elf) && flat[c].hash in g ==>
      EnterAll(g0, ExportsOf(arch, infos, flat)).Abort?
  {
    hide EnterAll, IsExport;
    var es, e := ExportsOf(arch, infos, flat[..c]), Export(flat[c].hash, flat[c]);
    ExportsNext(arch, infos, flat, c);
    EnterOneMore(g0, es, e);
    assert es + [] == es;
    if IsExport(arch, infos, flat[c].elf) && flat[c].hash in g {
      AbortStays(arch, infos, g0, flat, c + 1);
    }
  }

  lemma NotNameable(arch: Arch, infos: seq<SectionInfo>, g0: map<u64, ElfSymbol>, flat: seq<ElfSymbol>, c: nat)
    requires c < |flat|
    ensures EnterAll(g0, ExportsOf(arch, infos, flat)).Abort? || OwnAddress(arch, infos, flat[c].elf).Abort?
      ==> !Nameable(arch, infos, g0, flat)
  {
    hide OwnAddress, EnterAll, ExportsOf;
    assert flat[c] in flat;
  }

  lemma RoomForName(arch: Arch, infos: seq<SectionInfo>, flat: seq<ElfSymbol>, c: nat)
    requires c <= |flat|
    ensures |ExportsOf(arch, infos, flat[..c])| <= c
  {
    if c > 0 {
      ExportsExactly(arch, infos, flat[..c], Export(flat[0].hash, flat[0]));
    }
  }

  // One symbol of the list
  method NameAt(arch: Arch, l: Linker, system: System, infos: seq<SectionInfo>, s: ElfSymbol,
                ghost flat: seq<ElfSymbol>, ghost c: nat)
    returns (ok: bool, exported: bool)
    requires l.Valid() && l.Defined() && Distinct(flat) && c < |flat| && s == flat[c] && Addressed(arch, infos, flat, c)
    modifies l`entered, l.gsyms, l.gsyms.repr, s`addr
    ensures ok <==> OwnAddress(arch, infos, s.elf).Ok? && (IsExport(arch, infos, s.elf) ==> s.hash !in old(l.Globals()))
    ensures ok ==> l.Valid() && l.Defined() && fresh(l.gsyms.repr - old(l.gsyms.repr))
    ensures ok ==> Addressed(arch, infos, flat, c + 1) && exported == IsExport(arch, infos, s.elf)
    ensures ok ==> l.Globals() == if exported then old(l.Globals())[s.hash := s] else old(l.Globals())
  {
    hide OwnAddress, IsExport;
    ok, exported := NameOne(arch, l, system, infos, s);
  }

  // The symbols of one table, which stands in the flat list from c on. The names never overrun their array.
  method NameTable(arch: Arch, l: Linker, system: System, infos: seq<SectionInfo>, ss: seq<ElfSymbol>,
                   names: array<Option<seq<u8>>>, first: nat, ghost flat: seq<ElfSymbol>, ghost c: nat,
                   ghost g0: map<u64, ElfSymbol>)
    returns (ok: bool, cur: nat)
    requires l.Valid() && l.Defined() && Distinct(flat) && c + |ss| <= |flat| && ss == flat[c..c + |ss|]
    requires Addressed(arch, infos, flat, c) && Entered(arch, infos, g0, flat, c, l.Globals())
    requires names.Length == |flat| && NamesWritten(names[..], first, ExportsOf(arch, infos, flat[..c]))
    modifies l`entered, l.gsyms, l.gsyms.repr, ss`addr, names
    ensures !ok ==> !Nameable(arch, infos, g0, flat)
    ensures ok ==> l.Valid() && l.Defined() && fresh(l.gsyms.repr - old(l.gsyms.repr))
    ensures ok ==> Addressed(arch, infos, flat, c + |ss|) && Entered(arch, infos, g0, flat, c + |ss|, l.Globals())
    ensures ok ==> NamesWritten(names[..], cur, ExportsOf(arch, infos, flat[..c + |ss|]))
  {
    hide OwnAddress, IsExport, EnterAll, Entered, NamesWritten, ExportsOf, Nameable, Addressed, Distinct, Contents,
         Nodes, Linked, Ordered;
    cur := first;
    var i := 0;
    while i < |ss|
      invariant i <= |ss| && l.Valid() && l.Defined() && fresh(l.gsyms.repr - old(l.gsyms.repr))
      invariant Addressed(arch, infos, flat, c + i) && Entered(arch, infos, g0, flat, c + i, l.Globals())
      invariant NamesWritten(names[..], cur, ExportsOf(arch, infos, flat[..c + i]))
    {
      var exported: bool;
      ok, exported, cur := NameNext(arch, l, system, infos, ss[i], names, cur, flat, c + i, g0);
      if !ok {
        return false, cur;
      }
      i := i + 1;
    }
    return true, cur;
  }

  method NameNext(arch: Arch, l: Linker, system: System, infos: seq<SectionInfo>, s: ElfSymbol,
                  names: array<Option<seq<u8>>>, first: nat, ghost flat: seq<ElfSymbol>, ghost c: nat,
                  ghost g0: map<u64, ElfSymbol>)
    returns (ok: bool, exported: bool, cur: nat)
    requires l.Valid() && l.Defined() && Distinct(flat) && c < |flat| && s == flat[c]
    requires Addressed(arch, infos, flat, c) && Entered(arch, infos, g0, flat, c, l.Globals())
    requires names.Length == |flat| && NamesWritten(names[..], first, ExportsOf(arch, infos, flat[..c]))
    modifies l`entered, l.gsyms, l.gsyms.repr, s`addr, names
    ensures !ok ==> !Nameable(arch, infos, g0, flat)
    ensures ok ==> l.Valid() && l.Defined() && fresh(l.gsyms.repr - old(l.gsyms.repr))
    ensures ok ==> Addressed(arch, infos, flat, c + 1) && Entered(arch, infos, g0, flat, c + 1, l.Globals())
    ensures ok ==> NamesWritten(names[..], cur, ExportsOf(arch, infos, flat[..c + 1]))
  {
    hide OwnAddress, IsExport, EnterAll, Entered, NamesWritten, ExportsOf, Nameable, Addressed, Distinct, Contents,
         Nodes, Linked, Ordered;
    cur := first;
    EnteredNext(arch, infos, g0, flat, c, l.Globals());
    ExportsNext(arch, infos, flat, c);
    RoomForName(arch, infos, flat, c);
    FitsOneMore(names[..], first, ExportsOf(arch, infos, flat[..c]), c);
    NotNameable(arch, infos, g0, flat, c);
    ok, exported := NameAt(arch, l, system, infos, s, flat, c);
    if ok && exported {
      cur := WriteName(names, cur, s, ExportsOf(arch, infos, flat[..c]));
    } else if ok {
      assert ExportsOf(arch, infos, flat[..c]) + [] == ExportsOf(arch, infos, flat[..c]);
    }
  }

  // Enters the name of an exported symbol behind those entered so far.
  method WriteName(names: array<Option<seq<u8>>>, first: nat, s: ElfSymbol, ghost es: seq<Export<ElfSymbol>>)
    returns (cur: nat)
    requires NamesWritten(names[..], first, es) && first < names.Length
    modifies names
    ensures NamesWritten(names[..], cur, es + [Export(s.hash, s)])
  {
    names[first] := Some(NameOf(s.elf));
    cur := first + 1;
  }

  lemma FitsOneMore(names: seq<Option<seq<u8>>>, cur: nat, es: seq<Export<ElfSymbol>>, c: nat)
    requires NamesWritten(names, cur, es) && |es| <= c < |names|
    ensures cur < |names|
  {
  }

  lemma AllNamed(arch: Arch, infos: seq<SectionInfo>, g0: map<u64, ElfSymbol>, flat: seq<ElfSymbol>,
                 g: map<u64, ElfSymbol>)
    requires Addressed(arch, infos, flat, |flat|) && Entered(arch, infos, g0, flat, |flat|, g)
    ensures Nameable(arch, infos, g0, flat) && EnterAll(g0, ExportsOf(arch, infos, flat)) == Ok(g)
  {
    hide EnterAll, OwnAddress;
    assert flat[..|flat|] == flat;
  }

  lemma AllAddresses(arch: Arch, infos: seq<SectionInfo>, flat: seq<ElfSymbol>)
    requires Addressed(arch, infos, flat, |flat|)
    ensures forall s :: s in flat ==> s.addr == PlaceOfSymbol(arch, infos, s.elf)
  {
    hide OwnAddress, PlaceOfSymbol;
    forall s | s in flat ensures s.addr == PlaceOfSymbol(arch, infos, s.elf) {
      OwnAddressIs(arch, infos, s.elf);
    }
  }

  lemma NoneNamed(arch: Arch, infos: seq<SectionInfo>, flat: seq<ElfSymbol>, g: map<u64, ElfSymbol>,
                  names: seq<Option<seq<u8>>>)
    requires AllUnresolved(flat) && forall s :: s in flat ==> SectionSymbolLocal(s.elf)
    ensures Addressed(arch, infos, flat, 0) && Entered(arch, infos, g, flat, 0, g)
    ensures NamesWritten(names, 0, ExportsOf(arch, infos, flat[..0]))
  {
    hide OwnAddress, IsExport, SectionSymbolLocal;
    assert flat[..0] == [];
    forall p | 0 <= p < |flat| ensures flat[p].addr == 0 && SectionSymbolLocal(flat[p].elf) {
      assert flat[p] in flat && Unresolved(flat[p]);
    }
    assert ExportsOf(arch, infos, []) == [];
  }

  // the number of symbols of all tables
  method CountSymbols(tabs: seq<SymbolTable>) returns (n: nat)
    ensures n == |Flat(tabs)|
  {
    n := 0;
    var k := 0;
    while k < |tabs|
      invariant k <= |tabs| && n == |Flat(tabs[..k])|
    {
      FlatOne(tabs, k);
      n := n + |tabs[k].symbols|;
      k := k + 1;
    }
    assert tabs[..k] == tabs;
  }

  // get_names
  method GetNames(arch: Arch, l: Linker, system: System, infos: seq<SectionInfo>, tabs: seq<SymbolTable>,
                  ghost flat: seq<ElfSymbol>)
    returns (ok: bool, names: array<Option<seq<u8>>>, count: nat)
    requires l.Valid() && l.Defined() && flat == Flat(tabs) && Distinct(flat) && AllUnresolved(flat)
    requires forall s :: s in flat ==> SectionSymbolLocal(s.elf)
    modifies l`entered, l.gsyms, l.gsyms.repr, flat`addr
    ensures ok <==> Nameable(arch, infos, old(l.Globals()), flat)
    ensures ok ==> l.Valid() && l.Defined() && fresh(l.gsyms.repr - old(l.gsyms.repr))
    ensures ok ==> EnterAll(old(l.Globals()), ExportsOf(arch, infos, flat)) == Ok(l.Globals())
    ensures ok ==> Addressed(arch, infos, flat, |flat|)
    ensures ok ==> forall s :: s in flat ==> s.addr == PlaceOfSymbol(arch, infos, s.elf)
    ensures ok ==>
      fresh(names) && names.Length == |flat| && NamesWritten(names[..], count, ExportsOf(arch, infos, flat))
  {
    hide Addressed, Entered, NamesWritten, Nameable, EnterAll, Flat, Distinct, ExportsOf, AllUnresolved,
         SectionSymbolLocal, Contents, Nodes, Linked, Ordered;
    var n := CountSymbols(tabs);
    names := new Option<seq<u8>>[n](_ => None);
    count := 0;
    ghost var g0 := l.Globals();
    NoneNamed(arch, infos, flat, g0, names[..]);
    ghost var c: nat := 0;
    var k := 0;
    StartOf(tabs, flat, 0, 0);
    while k < |tabs|
      invariant k <= |tabs| && c <= |flat| && flat[..c] == Flat(tabs[..k])
      invariant l.Valid() && l.Defined() && fresh(l.gsyms.repr - old(l.gsyms.repr))
      invariant Addressed(arch, infos, flat, c) && Entered(arch, infos, g0, flat, c, l.Globals())
      invariant NamesWritten(names[..], count, ExportsOf(arch, infos, flat[..c]))
    {
      NextPart(tabs, k, flat, c);
      ok, count := NameTable(arch, l, system, infos, tabs[k].symbols, names, count, flat, c, g0);
      if !ok {
        return false, names, count;
      }
      c := c + |tabs[k].symbols|;
      k := k + 1;
    }
    EndOf(tabs, flat, c);
    assert c == |flat[..c]|;
    AllNamed(arch, infos, g0, flat, l.Globals());
    AllAddresses(arch, infos, flat);
    return true, names, count;
  }
}
