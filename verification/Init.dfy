// Elf.c's ocInit: the tables of an object from its section headers.
module Init {
  import opened Hash
  import opened Results
  import opened Words
  import opened Objects
  import opened Got

  // symbols without a name keep the hash that calloc left
  function HashOf(e: ElfSym): u64
  {
    if e.name.Some? then KnuthHash(e.name.value) else 0
  }

  // A symbol as ocInit leaves it: no address, no slot
  ghost predicate Unresolved(s: ElfSymbol)
    reads s
  {
    s.addr == 0 && s.gotAddr == 0 && s.hash == HashOf(s.elf)
  }

  ghost predicate AllUnresolved(ss: seq<ElfSymbol>)
    reads ss
  {
    forall s :: s in ss ==> Unresolved(s)
  }

  method NewSymbols(syms: seq<ElfSym>) returns (ss: seq<ElfSymbol>)
    ensures ElfOf(ss) == syms && AllUnresolved(ss) && Distinct(ss)
    ensures forall s :: s in ss ==> fresh(s)
  {
    ss := [];
    var j := 0;
    while j < |syms|
      invariant j <= |syms| && ElfOf(ss) == syms[..j] && AllUnresolved(ss) && Distinct(ss)
      invariant forall s :: s in ss ==> fresh(s)
    {
      var hash := 0;
      if syms[j].name.Some? {
        hash := ComputeHash(syms[j].name.value);
      }
      var s := new ElfSymbol(syms[j], hash);
      ss := ss + [s];
      j := j + 1;
    }
  }

  // The relocation sections of one type, as tables
  function RelTablesOf(headers: seq<SectionHeader>, ty: nat): seq<RelTable>
  {
    if headers == [] then []
    else
      var n := |headers| - 1;
      RelTablesOf(headers[..n], ty)
      + (if headers[n].shType == ty then [RelTable(n, headers[n].info, headers[n].link, headers[n].rels)] else [])
  }

  // Exactly the symbol sections are found as tables, with their own symbols.
  ghost predicate Indexed(headers: seq<SectionHeader>, tabs: seq<SymbolTable>)
  {
    && (forall i :: |headers| <= i ==> FindTable(tabs, i).None?)
    && forall i :: 0 <= i < |headers| ==>
        && (FindTable(tabs, i).Some? <==> headers[i].shType == SHT_SYMTAB)
        && (FindTable(tabs, i).Some? ==> ElfOf(FindTable(tabs, i).value.symbols) == headers[i].syms)
  }

  // A symbol table stands in the flat list behind the symbols of the headers before its own.
  ghost predicate Stands(headers: seq<SectionHeader>, tabs: seq<SymbolTable>, flat: seq<ElfSymbol>)
  {
    forall i :: 0 <= i < |headers| && FindTable(tabs, i).Some? ==>
      var c, ss := |HeaderSyms(headers[..i])|, FindTable(tabs, i).value.symbols;
      c + |ss| <= |flat| && flat[c..c + |ss|] == ss
  }

  lemma StandsMore(headers: seq<SectionHeader>, tabs: seq<SymbolTable>, flat: seq<ElfSymbol>, n: nat, t: SymbolTable)
    requires n < |headers| && Stands(headers[..n], tabs, flat) && Indexed(headers[..n], tabs) && t.index == n
    requires |flat| == |HeaderSyms(headers[..n])|
    ensures Stands(headers[..n + 1], tabs + [t], flat + t.symbols)
  {
    hide HeaderSyms;
    var hs, ts, more := headers[..n + 1], tabs + [t], flat + t.symbols;
    forall i | 0 <= i < |hs| && FindTable(ts, i).Some?
      ensures var c, ss := |HeaderSyms(hs[..i])|, FindTable(ts, i).value.symbols;
        c + |ss| <= |more| && more[c..c + |ss|] == ss
    {
      FindInMore(tabs, t, i);
      assert hs[..i] == headers[..n][..i];
      if i == n {
        assert hs[..i] == headers[..n];
      } else {
        var c, ss := |HeaderSyms(hs[..i])|, FindTable(ts, i).value.symbols;
        assert more[c..c + |ss|] == flat[c..c + |ss|];
      }
    }
  }

  lemma StandsSame(headers: seq<SectionHeader>, tabs: seq<SymbolTable>, flat: seq<ElfSymbol>, n: nat)
    requires n < |headers| && Stands(headers[..n], tabs, flat) && Indexed(headers[..n], tabs)
    requires headers[n].shType != SHT_SYMTAB
    ensures Stands(headers[..n + 1], tabs, flat)
  {
    hide HeaderSyms;
    var hs := headers[..n + 1];
    forall i | 0 <= i < |hs| && FindTable(tabs, i).Some?
      ensures var c, ss := |HeaderSyms(hs[..i])|, FindTable(tabs, i).value.symbols;
        c + |ss| <= |flat| && flat[c..c + |ss|] == ss
    {
      assert hs[..i] == headers[..n][..i];
    }
  }

  lemma {:induction false} FindInMore(tabs: seq<SymbolTable>, t: SymbolTable, i: nat)
    ensures FindTable(tabs + [t], i)
      == if FindTable(tabs, i).Some? then FindTable(tabs, i) else if t.index == i then Some(t) else None
  {
    if tabs != [] {
      FindInMore(tabs[1..], t, i);
      assert (tabs + [t])[1..] == tabs[1..] + [t];
    }
  }

  lemma IndexedMore(headers: seq<SectionHeader>, tabs: seq<SymbolTable>, n: nat, t: SymbolTable)
    requires n < |headers| && Indexed(headers[..n], tabs) && headers[n].shType == SHT_SYMTAB
    requires t.index == n && ElfOf(t.symbols) == headers[n].syms
    ensures Indexed(headers[..n + 1], tabs + [t])
  {
    forall i: nat ensures FindTable(tabs + [t], i)
      == if FindTable(tabs, i).Some? then FindTable(tabs, i) else if t.index == i then Some(t) else None
    {
      FindInMore(tabs, t, i);
    }
    forall i | 0 <= i < n ensures headers[..n + 1][i] == headers[..n][i] {}
  }

  lemma IndexedSame(headers: seq<SectionHeader>, tabs: seq<SymbolTable>, n: nat)
    requires n < |headers| && Indexed(headers[..n], tabs) && headers[n].shType != SHT_SYMTAB
    ensures Indexed(headers[..n + 1], tabs)
  {
    forall i | 0 <= i < n ensures headers[..n + 1][i] == headers[..n][i] {}
  }

  lemma BuiltMore(headers: seq<SectionHeader>, tabs: seq<SymbolTable>, n: nat, t: SymbolTable)
    requires n < |headers| && Built(headers[..n], tabs) && headers[n].shType == SHT_SYMTAB
    requires ElfOf(t.symbols) == headers[n].syms
    ensures Built(headers[..n + 1], tabs + [t]) && Flat(tabs + [t]) == Flat(tabs) + t.symbols
  {
    assert headers[..n + 1][..n] == headers[..n];
    assert (tabs + [t])[..|tabs|] == tabs;
    assert ElfOf(Flat(tabs) + t.symbols) == ElfOf(Flat(tabs)) + ElfOf(t.symbols);
  }

  lemma BuiltSame(headers: seq<SectionHeader>, tabs: seq<SymbolTable>, n: nat)
    requires n < |headers| && Built(headers[..n], tabs) && headers[n].shType != SHT_SYMTAB
    ensures Built(headers[..n + 1], tabs)
  {
    assert headers[..n + 1][..n] == headers[..n];
  }

  lemma RelTablesNext(headers: seq<SectionHeader>, n: nat, ty: nat)
    requires n < |headers|
    ensures RelTablesOf(headers[..n + 1], ty) == RelTablesOf(headers[..n], ty)
      + (if headers[n].shType == ty then [RelTable(n, headers[n].info, headers[n].link, headers[n].rels)] else [])
  {
    assert headers[..n + 1][..n] == headers[..n];
  }

  lemma DistinctMore(a: seq<ElfSymbol>, b: seq<ElfSymbol>)
    requires Distinct(a) && Distinct(b) && forall s :: s in b ==> s !in a
    ensures Distinct(a + b)
  {
    forall i, j | 0 <= i < j < |a + b| ensures (a + b)[i] != (a + b)[j] {
      if i < |a| <= j {
        assert (a + b)[i] in a && (a + b)[j] in b;
      }
    }
  }

  // ocInit
  method OcInit(headers: seq<SectionHeader>)
    returns (tabs: seq<SymbolTable>, rel: seq<RelTable>, rela: seq<RelTable>, ghost flat: seq<ElfSymbol>)
    ensures flat == Flat(tabs) && Built(headers, tabs) && Indexed(headers, tabs) && Stands(headers, tabs, flat)
    ensures AllUnresolved(flat) && Distinct(flat) && forall s :: s in flat ==> fresh(s)
    ensures rel == RelTablesOf(headers, SHT_REL) && rela == RelTablesOf(headers, SHT_RELA)
  {
    hide Distinct, Built, Indexed, Flat, RelTablesOf, AllUnresolved, Stands;
    tabs, rel, rela, flat := [], [], [], [];
    var i := 0;
    Nothing(headers);
    while i < |headers|
      invariant i <= |headers| && flat == Flat(tabs) && Built(headers[..i], tabs) && Indexed(headers[..i], tabs)
      invariant Stands(headers[..i], tabs, flat)
      invariant AllUnresolved(flat) && Distinct(flat) && forall s :: s in flat ==> fresh(s)
      invariant rel == RelTablesOf(headers[..i], SHT_REL) && rela == RelTablesOf(headers[..i], SHT_RELA)
    {
      var h := headers[i];
      RelTablesNext(headers, i, SHT_REL);
      RelTablesNext(headers, i, SHT_RELA);
      if h.shType == SHT_SYMTAB {
        var ss := NewSymbols(h.syms);
        BuiltLength(headers[..i], tabs);
        StandsMore(headers, tabs, flat, i, SymbolTable(i, ss));
        IndexedMore(headers, tabs, i, SymbolTable(i, ss));
        BuiltMore(headers, tabs, i, SymbolTable(i, ss));
        DistinctMore(flat, ss);
        BothUnresolved(flat, ss);
        tabs, flat := tabs + [SymbolTable(i, ss)], flat + ss;
      } else {
        IndexedSame(headers, tabs, i);
        BuiltSame(headers, tabs, i);
        StandsSame(headers, tabs, flat, i);
        if h.shType == SHT_REL {
          rel := rel + [RelTable(i, h.info, h.link, h.rels)];
        } else if h.shType == SHT_RELA {
          rela := rela + [RelTable(i, h.info, h.link, h.rels)];
        }
      }
      i := i + 1;
    }
    assert headers[..i] == headers;
  }

  lemma BuiltLength(headers: seq<SectionHeader>, tabs: seq<SymbolTable>)
    requires Built(headers, tabs)
    ensures |Flat(tabs)| == |HeaderSyms(headers)|
  {
  }

  lemma BothUnresolved(a: seq<ElfSymbol>, b: seq<ElfSymbol>)
    requires AllUnresolved(a) && AllUnresolved(b)
    ensures AllUnresolved(a + b)
  {
  }

  lemma Nothing(headers: seq<SectionHeader>)
    ensures Flat([]) == [] && Built(headers[..0], []) && Indexed(headers[..0], []) && Stands(headers[..0], [], [])
    ensures AllUnresolved([]) && Distinct([]) && forall ty :: RelTablesOf(headers[..0], ty) == []
  {
  }
}
