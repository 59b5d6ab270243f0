// Symbols are entered under hashes: when these are the hashes of their names.
module NameKeys {
  import opened Results
  import opened Types
  import opened Words
  import opened Memory
  import opened Target
  import opened Objects
  import opened Hash
  import opened Linker
  import opened Init
  import opened Names

  // A symbol without a name is entered under 0, which is not the hash of the name that stands for it.
  lemma NamelessHash()
    ensures KnuthHash(NameOf(ElfSym(None, 0, 0, 0, 0))) != 0
  {
    hide Add, Multiply;
    var n: seq<u8> := [40, 110, 111, 32, 110, 97, 109, 101, 41];
    ClosedForm(SEED, n);
  }

  predicate Named(e: ElfSym) { e.name.Some? }

  lemma HashIsName(e: ElfSym)
    ensures HashOf(e) == KnuthHash(NameOf(e)) <==> Named(e)
  {
    NamelessHash();
    hide KnuthHash;
    assert !Named(e) ==> NameOf(e) == NameOf(ElfSym(None, 0, 0, 0, 0));
  }

  ghost predicate Hashed(ss: seq<ElfSymbol>)
  {
    forall s :: s in ss ==> s.hash == HashOf(s.elf)
  }

  // Every symbol exported has a name.
  ghost predicate ExportsNamed(arch: Arch, infos: seq<SectionInfo>, ss: seq<ElfSymbol>)
  {
    forall s :: s in ss && IsExport(arch, infos, s.elf) ==> Named(s.elf)
  }

  // Entering the exports of an object keeps every symbol under the hash of its name exactly if each of them has a name.
  lemma KeyedIff(arch: Arch, infos: seq<SectionInfo>, g0: map<u64, ElfSymbol>, ss: seq<ElfSymbol>,
                 g: map<u64, ElfSymbol>)
    requires Hashed(ss) && EnterAll(g0, ExportsOf(arch, infos, ss)) == Ok(g)
    ensures Keyed(g) <==> Keyed(g0) && ExportsNamed(arch, infos, ss)
  {
    hide KnuthHash, HashOf, EnterAll, IsExport, Named;
    var es := ExportsOf(arch, infos, ss);
    EnterAllIs(g0, es);
    forall e ensures e in es <==> e.value in ss && IsExport(arch, infos, e.value.elf) && e.key == e.value.hash {
      ExportsExactly(arch, infos, ss, e);
    }
    forall e ensures HashOf(e) == KnuthHash(NameOf(e)) <==> Named(e) {
      HashIsName(e);
    }
    hide ExportsOf;
    if Keyed(g) {
      forall k | k in g0 ensures k == KnuthHash(NameOf(g0[k].elf)) {
        assert k in g;
      }
      forall s | s in ss && IsExport(arch, infos, s.elf) ensures Named(s.elf) {
        assert Export(s.hash, s) in es;
        assert s.hash in g;
      }
    }
    if Keyed(g0) && forall s :: s in ss && IsExport(arch, infos, s.elf) ==> Named(s.elf) {
      forall k | k in g ensures k == KnuthHash(NameOf(g[k].elf)) {
        if k !in g0 {
          var e :| e in es && e.key == k;
          assert g[k] == e.value;
        }
      }
    }
  }
}
