// Which symbols an object defines, exports and looks for elsewhere, and at which addresses: by binding, type and
// section index. Bindings are 0 (local), 1 (global) and 2 (weak); types are 0 (none), 1 (object), 2 (function) and 3
// (section); section indexes from 0xff00 on are special, and 0xfff2 is that of common symbols.
module Symbols {
  import opened Words
  import opened Target
  import opened Objects
  import opened Hash
  import opened Linker
  import opened Got
  import opened Loading
  import opened Names
  import opened Inputs
  import opened Addresses
  import opened Resolution

  // A weak symbol is looked for wherever it is; a strong one if it has no type, as undefined symbols have none.
  predicate MayBeImported(e: ElfSym)
  {
    e.bind == 2 || (e.bind == 1 && e.stype == 0)
  }

  // a symbol that its own object has no address for, and that is looked for
  predicate IsImport(e: ElfSym)
  {
    e.stype != 3 && (e.bind == 2 || (e.bind == 1 && e.stype == 0 && (e.shndx == 0 || 0xff00 <= e.shndx)))
  }

  // ---- own addresses ----

  // The address of a symbol in its own object, 0 if it has none
  function OwnPlace(arch: Arch, x: Input, e: ElfSym): nat
    requires |x.answers| == |x.headers|
  {
    PlaceOfSymbol(arch, InfosFor(arch, x), e)
  }

  lemma OwnForIs(arch: Arch, x: Input, e: ElfSym)
    requires |x.answers| == |x.headers|
    ensures OwnFor(arch, x, e) == OwnPlace(arch, x, e)
  {
    hide InfosFor, OwnAddress, PlaceOfSymbol;
    OwnAddressIs(arch, InfosFor(arch, x), e);
  }

  // ---- addresses once the object is resolved ----

  // A symbol with an address in its own object keeps that; without one it is looked for if it may be elsewhere, and has
  // none otherwise.
  lemma AddressIs(arch: Arch, x: Input, g: map<u64, nat>, system: System, e: ElfSym)
    requires |x.answers| == |x.headers|
    ensures AddressFor(arch, x, g, system, e)
      == if OwnPlace(arch, x, e) != 0 then OwnPlace(arch, x, e)
         else if MayBeImported(e) then AnswerFrom(g, system, NameOf(e))
         else 0
  {
    OwnForIs(arch, x, e);
    hide OwnFor, OwnPlace, AnswerFrom, NameOf;
  }

  // So a strong symbol of a section that is there has the section's address plus its value,
  lemma DefinedAddress(arch: Arch, x: Input, g: map<u64, nat>, system: System, e: ElfSym)
    requires |x.answers| == |x.headers| && IsDefined(e) && e.shndx < |x.headers|
    requires Addr(arch, InfosFor(arch, x)[e.shndx].start + e.value) != 0
    ensures AddressFor(arch, x, g, system, e) == Addr(arch, InfosFor(arch, x)[e.shndx].start + e.value)
  {
    AddressIs(arch, x, g, system, e);
    hide InfosFor, AddressFor, Addr, AnswerFrom;
  }

  // the symbol of a section has its address,
  lemma SectionAddress(arch: Arch, x: Input, g: map<u64, nat>, system: System, e: ElfSym)
    requires |x.answers| == |x.headers| && e.stype == 3 && e.bind == 0 && e.shndx < |x.headers| && e.shndx != 0xfff2
    ensures AddressFor(arch, x, g, system, e) == Addr(arch, InfosFor(arch, x)[e.shndx].start)
  {
    AddressIs(arch, x, g, system, e);
    hide InfosFor, AddressFor, Addr, AnswerFrom;
  }

  // a weak symbol, and a global one that is not of an ordinary section and without type, that of the globals under the
  // hash of its name, or else the system's,
  lemma ImportedAddress(arch: Arch, x: Input, g: map<u64, nat>, system: System, e: ElfSym)
    requires |x.answers| == |x.headers| && IsImport(e)
    ensures var h := KnuthHash(NameOf(e));
      AddressFor(arch, x, g, system, e) == if h in g then g[h] else system(NameOf(e))
  {
    AddressIs(arch, x, g, system, e);
    hide InfosFor, AddressFor, Addr, KnuthHash;
  }

  // and no other symbol is ever looked for.
  lemma NeverLookedUp(arch: Arch, x: Input, g: map<u64, nat>, system: System, e: ElfSym)
    requires |x.answers| == |x.headers| && e.bind != 2 && (e.bind != 1 || e.stype != 0)
    ensures AddressFor(arch, x, g, system, e) == OwnPlace(arch, x, e)
  {
    AddressIs(arch, x, g, system, e);
    hide OwnPlace, AddressFor, AnswerFrom;
  }

  // ---- what loading and resolving demand of symbols ----

  // No symbol is common, and the sections of symbols are there.
  lemma DefinedIff(arch: Arch, x: Input)
    requires |x.answers| == |x.headers|
    ensures Addresses.Defined(arch, x) <==> forall e :: e in HeaderSyms(x.headers) ==>
      e.shndx != 0xfff2 && (e.stype == 3 || IsDefined(e) ==> e.shndx < |x.headers|)
  {
    hide InfosFor, OwnAddress, HeaderSyms, IsDefined;
    forall e ensures OwnAddress(arch, InfosFor(arch, x), e).Ok?
      <==> e.shndx != 0xfff2 && (e.stype == 3 || IsDefined(e) ==> e.shndx < |x.headers|)
    {
      OwnAddressIs(arch, InfosFor(arch, x), e);
    }
  }

  // Every global or weak symbol has an address, of its own or found.
  lemma FoundIffAddresses(arch: Arch, x: Input, g: map<u64, nat>, system: System)
    requires |x.answers| == |x.headers|
    ensures AllFound(arch, x, g, system) <==> forall e :: e in HeaderSyms(x.headers) && (e.bind == 1 || e.bind == 2) ==>
      OwnPlace(arch, x, e) != 0 || (MayBeImported(e) && AnswerFrom(g, system, NameOf(e)) != 0)
  {
    hide HeaderSyms, OwnPlace, AnswerFrom, NameOf, WantFor;
    forall e: ElfSym | e.bind == 1 || e.bind == 2
      ensures WantFor(arch, x, g, system, e) != 0
        <==> OwnPlace(arch, x, e) != 0 || (MayBeImported(e) && AnswerFrom(g, system, NameOf(e)) != 0)
    {
      WantIs(arch, x, g, system, e);
    }
  }

  lemma WantIs(arch: Arch, x: Input, g: map<u64, nat>, system: System, e: ElfSym)
    requires |x.answers| == |x.headers| && (e.bind == 1 || e.bind == 2)
    ensures NeedSlot(e) && WantFor(arch, x, g, system, e) == AddressFor(arch, x, g, system, e)
    ensures WantFor(arch, x, g, system, e) != 0
      <==> OwnPlace(arch, x, e) != 0 || (MayBeImported(e) && AnswerFrom(g, system, NameOf(e)) != 0)
  {
    AddressIs(arch, x, g, system, e);
    hide OwnPlace, AnswerFrom, NameOf, WantFor;
  }

  // Exactly the global and weak symbols have slots.
  lemma SlotIff(arch: Arch, x: Input, p: nat)
    requires |x.answers| == |x.headers| && p < |HeaderSyms(x.headers)|
    requires GotBytes(arch, x) > 0 ==> x.got.Some? && x.got.value > 0
    ensures var e := HeaderSyms(x.headers)[p]; SlotFor(arch, x, p) != 0 <==> e.bind == 1 || e.bind == 2
  {
    if NeedSlot(HeaderSyms(x.headers)[p]) {
      SlotsGrow(HeaderSyms(x.headers), p);
    }
    hide HeaderSyms, Slots;
  }

  lemma {:induction false} SlotsIff(es: seq<ElfSym>)
    ensures Slots(es) > 0 <==> exists e :: e in es && (e.bind == 1 || e.bind == 2)
  {
    if es != [] {
      var n := |es| - 1;
      SlotsIff(es[..n]);
      assert es == es[..n] + [es[n]];
      if e :| e in es && (e.bind == 1 || e.bind == 2) {
        assert e in es[..n] || e == es[n];
      }
      if NeedSlot(es[n]) {
        assert es[n] in es;
      }
    }
  }

  // What loading demands of an object alone, in terms of the headers, symbols and relocations of its file
  lemma AcceptableIff(arch: Arch, x: Input)
    requires |x.answers| == |x.headers|
    ensures Acceptable(arch, x) <==>
      && (forall i :: 0 <= i < |x.headers| ==> SectionLoads(arch, x, i))
      && (forall e :: e in HeaderSyms(x.headers) ==>
            e.shndx != 0xfff2 && (e.stype == 3 || IsDefined(e) ==> e.shndx < |x.headers|))
      && ((exists e :: e in HeaderSyms(x.headers) && (e.bind == 1 || e.bind == 2)) ==> x.got.Some?)
  {
    hide HeaderSyms, OwnAddress, IsDefined, Loadable, SectionLoads, Slots, InfosFor, StubBudget, RelOf, RelaOf;
    SlotsIff(HeaderSyms(x.headers));
    DefinedIff(arch, x);
    forall i | 0 <= i < |x.headers|
      ensures Loadable(arch, x.headers[i], StubBudget(arch, RelOf(x), RelaOf(x), i), x.answers[i])
        <==> SectionLoads(arch, x, i)
    {
      SectionLoadsIff(arch, x, i);
    }
  }
}
