// The global table as a map of addresses: entering symbols and entering their addresses agree.
module Addresses {
  import opened Bits
  import opened Memory
  import opened Results
  import opened Types
  import opened Words
  import opened Target
  import opened Objects
  import opened Hash
  import opened Linker
  import opened Got
  import opened GotFill
  import opened Init
  import opened Names
  import opened NameKeys
  import opened Inputs

  predicate SameKeys<V, W>(es: seq<Export<V>>, fs: seq<Export<W>>)
  {
    |es| == |fs| && forall i :: 0 <= i < |es| ==> es[i].key == fs[i].key
  }

  lemma {:induction false} EnterSameKeys<V, W>(m: map<u64, V>, es: seq<Export<V>>, n: map<u64, W>, fs: seq<Export<W>>)
    requires m.Keys == n.Keys && SameKeys(es, fs)
    ensures EnterAll(m, es).Ok? <==> EnterAll(n, fs).Ok?
    decreases |es|
  {
    assert forall k :: k in m <==> k in n;
    if es != [] && es[0].key !in m {
      EnterSameKeys(m[es[0].key := es[0].value], es[1..], n[fs[0].key := fs[0].value], fs[1..]);
    }
  }

  // a is the table g with addresses for symbols.
  ghost predicate Shows(g: map<u64, ElfSymbol>, a: map<u64, nat>)
    reads g.Values
  {
    g.Keys == a.Keys && forall k :: k in g ==> a[k] == g[k].addr
  }

  ghost predicate AllShow(es: seq<Export<ElfSymbol>>, fs: seq<Export<nat>>)
    reads set e | e in es :: e.value
  {
    |es| == |fs| && forall i :: 0 <= i < |es| ==> es[i].value.addr == fs[i].value
  }

  lemma {:induction false} EnterShows(g: map<u64, ElfSymbol>, es: seq<Export<ElfSymbol>>, a: map<u64, nat>,
                                      fs: seq<Export<nat>>)
    requires Shows(g, a) && SameKeys(es, fs) && AllShow(es, fs) && EnterAll(g, es).Ok?
    ensures EnterAll(a, fs).Ok? && Shows(EnterAll(g, es).value, EnterAll(a, fs).value)
    decreases |es|
  {
    assert forall k :: k in g <==> k in a;
    if es != [] {
      var h, b := g[es[0].key := es[0].value], a[fs[0].key := fs[0].value];
      assert Shows(h, b);
      EnterShows(h, es[1..], b, fs[1..]);
    }
  }

  // The exports of linker symbols, and of their records with addresses
  lemma {:induction false} ExportsAgree(arch: Arch, infos: seq<SectionInfo>, ss: seq<ElfSymbol>)
    requires Hashed(ss)
    ensures var es, fs := ExportsOf(arch, infos, ss), AddressExports(arch, infos, ElfOf(ss));
      && SameKeys(es, fs)
      && forall i :: 0 <= i < |es| ==>
          es[i].value in ss && OwnAddress(arch, infos, es[i].value.elf) == Ok(fs[i].value)
  {
    hide HashOf, Addr, IsExport, OwnAddress;
    if ss != [] {
      var n := |ss| - 1;
      assert ss == ss[..n] + [ss[n]];
      assert ElfOf(ss)[..n] == ElfOf(ss[..n]) && ElfOf(ss)[n] == ss[n].elf;
      ExportsAgree(arch, infos, ss[..n]);
      if IsExport(arch, infos, ss[n].elf) {
        ExportAddress(arch, infos, ss[n].elf);
      }
    }
  }

  lemma ExportAddress(arch: Arch, infos: seq<SectionInfo>, e: ElfSym)
    requires IsExport(arch, infos, e)
    ensures OwnAddress(arch, infos, e) == Ok(Addr(arch, infos[e.shndx].start + e.value))
  {
    hide Addr;
  }

  // The sections that symbols are in are there.
  ghost predicate Defined(arch: Arch, x: Input)
    requires |x.answers| == |x.headers|
  {
    forall e :: e in HeaderSyms(x.headers) ==> OwnAddress(arch, InfosFor(arch, x), e).Ok?
  }

  // Whether the names of an object can be entered depends on hashes and sections only.
  lemma NameableIff(arch: Arch, x: Input, g: map<u64, ElfSymbol>, a: map<u64, nat>, ss: seq<ElfSymbol>)
    requires |x.answers| == |x.headers| && Hashed(ss) && ElfOf(ss) == HeaderSyms(x.headers) && g.Keys == a.Keys
    ensures Nameable(arch, InfosFor(arch, x), g, ss)
      <==> EnterAll(a, ExportsFor(arch, x)).Ok? && Defined(arch, x)
  {
    hide OwnAddress, EnterAll, ExportsOf, AddressExports, HeaderSyms, InfosFor, HashOf;
    var infos := InfosFor(arch, x);
    ExportsAgree(arch, infos, ss);
    EnterSameKeys(g, ExportsOf(arch, infos, ss), a, ExportsFor(arch, x));
    forall s | s in ss ensures s.elf in HeaderSyms(x.headers) {
      var i :| 0 <= i < |ss| && ss[i] == s;
      assert ElfOf(ss)[i] == s.elf;
    }
    forall e | e in HeaderSyms(x.headers) ensures exists s :: s in ss && s.elf == e {
      var i :| 0 <= i < |ss| && ElfOf(ss)[i] == e;
      assert ss[i] in ss && ss[i].elf == e;
    }
  }

  // The table after loading an object, as a map of addresses
  lemma AddressesAfter(arch: Arch, x: Input, g: map<u64, ElfSymbol>, a: map<u64, nat>, ss: seq<ElfSymbol>)
    requires |x.answers| == |x.headers| && Hashed(ss) && ElfOf(ss) == HeaderSyms(x.headers)
    requires Addressed(arch, InfosFor(arch, x), ss, |ss|) && Shows(g, a)
    requires EnterAll(g, ExportsOf(arch, InfosFor(arch, x), ss)).Ok?
    ensures EnterAll(a, ExportsFor(arch, x)).Ok?
    ensures Shows(EnterAll(g, ExportsOf(arch, InfosFor(arch, x), ss)).value, EnterAll(a, ExportsFor(arch, x)).value)
  {
    hide OwnAddress, EnterAll, ExportsOf, AddressExports, HeaderSyms, InfosFor, Shows, HashOf;
    var infos := InfosFor(arch, x);
    ExportsAgree(arch, infos, ss);
    var es, fs := ExportsOf(arch, infos, ss), ExportsFor(arch, x);
    forall i | 0 <= i < |es| ensures es[i].value.addr == fs[i].value {
      var p :| 0 <= p < |ss| && ss[p] == es[i].value;
    }
    EnterShows(g, es, a, fs);
  }

  // ---- lookups ----

  // What lookupSymbol_ answers from a table of addresses
  function AnswerFrom(g: map<u64, nat>, system: System, name: seq<u8>): nat
  {
    var h := KnuthHash(name);
    if h in g then g[h] else system(name)
  }

  lemma LookupIsAnswer(l: Linker, system: System, name: seq<u8>)
    ensures l.AddressOf(system, name) == AnswerFrom(l.Addresses(), system, name)
  {
    hide KnuthHash;
  }

  // ---- addresses are words ----

  function AddressLimit(arch: Arch): nat
  {
    if arch.AArch64? then 0x1_0000_0000_0000_0000 else 0x1_0000_0000
  }

  ghost predicate WordsOnly(arch: Arch, g: map<u64, nat>)
  {
    forall k :: k in g ==> g[k] < AddressLimit(arch)
  }

  lemma {:induction false} ExportsAreWords(arch: Arch, infos: seq<SectionInfo>, es: seq<ElfSym>)
    ensures forall e :: e in AddressExports(arch, infos, es) ==> e.value < AddressLimit(arch)
  {
    hide IsExport, HashOf;
    if es != [] {
      ExportsAreWords(arch, infos, es[..|es| - 1]);
    }
  }

  // Loading objects keeps the table of addresses to words.
  lemma OutcomeAreWords(arch: Arch, x: Input, g: map<u64, nat>)
    requires |x.answers| == |x.headers| && WordsOnly(arch, g) && Outcome(arch, x, g).Ok?
    ensures WordsOnly(arch, Outcome(arch, x, g).value)
  {
    hide AddressExports, AddressLimit, Acceptable, HeaderSyms, InfosFor, EnterAll;
    ExportsAreWords(arch, InfosFor(arch, x), HeaderSyms(x.headers));
    EnterAllIs(g, ExportsFor(arch, x));
    var h := Outcome(arch, x, g).value;
    forall k | k in h ensures h[k] < AddressLimit(arch) {
      if k !in g {
        var e :| e in ExportsFor(arch, x) && e.key == k;
      }
    }
  }

  lemma OwnIsWord(arch: Arch, infos: seq<SectionInfo>, e: ElfSym)
    ensures OwnAddress(arch, infos, e).Ok? ==> OwnAddress(arch, infos, e).value < AddressLimit(arch)
  {
  }

  // So are the addresses that filling a GOT looks for.
  lemma WantsAreWords(arch: Arch, l: Linker, system: System, infos: seq<SectionInfo>, ss: seq<ElfSymbol>)
    requires WordsOnly(arch, l.Addresses()) && (forall n :: system(n) < AddressLimit(arch))
    requires Addressed(arch, infos, ss, |ss|)
    ensures forall s :: s in ss ==> EntryOf(l, system, s).want < AddressLimit(arch)
  {
    hide OwnAddress, AddressLimit, KnuthHash;
    forall s | s in ss ensures EntryOf(l, system, s).want < AddressLimit(arch) {
      var p :| 0 <= p < |ss| && ss[p] == s;
      OwnIsWord(arch, infos, s.elf);
      var h := KnuthHash(NameOf(s.elf));
      if h in l.Globals() {
        assert h in l.Addresses();
      }
    }
  }

  lemma WordLimit(arch: Arch)
    ensures AddressLimit(arch) == Pow2(8 * WordSize(arch))
  {
    LargePowers();
  }
}
