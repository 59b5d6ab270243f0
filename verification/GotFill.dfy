// elf/got.c: filling the slots with resolved addresses, and the check that they hold them.
module GotFill {
  import opened Bits
  import opened Memory
  import opened Target
  import opened Sections
  import opened Objects
  import opened Linker
  import opened Got

  // ---- where the slots are ----

  predicate SlotAt(a: nat, start: nat, k: nat, w: nat) { a == start + k * w }

  lemma SlotSpan(start: nat, w: nat, k: nat, l: nat, n: nat)
    requires k < l < n
    ensures start + k * w + w <= start + l * w && start + l * w + w <= start + n * w
  {
    assert k * w + w == (k + 1) * w <= l * w;
    assert l * w + w == (l + 1) * w <= n * w;
  }

  lemma LastSlot(start: nat, w: nat, k: nat, n: nat)
    requires k < n
    ensures start + k * w + w <= start + n * w
  {
    assert k * w + w == (k + 1) * w <= n * w;
  }

  // Two symbols that need slots have them apart, in the order of the symbols, inside the table.
  lemma SlotsApart(ss: seq<ElfSymbol>, start: nat, w: nat, p: nat, q: nat)
    requires LaidOut(ss, start, w, 0) && p < q < |ss| && NeedSlot(ss[p].elf) && NeedSlot(ss[q].elf)
    ensures start <= ss[p].gotAddr && ss[p].gotAddr + w <= ss[q].gotAddr && ss[q].gotAddr + w <= start + Needed(ss) * w
  {
    hide Needed;
    NeededOne(ss, p);
    NeededOne(ss, q);
    NeededGrows(ss, p + 1, q);
    NeededGrows(ss, q + 1, |ss|);
    assert ss[..|ss|] == ss;
    SlotSpan(start, w, Needed(ss[..p]), Needed(ss[..q]), Needed(ss));
  }

  lemma SlotInside(ss: seq<ElfSymbol>, start: nat, w: nat, p: nat)
    requires LaidOut(ss, start, w, 0) && p < |ss|
    ensures ss[p].elf.bind == 1 || ss[p].elf.bind == 2 ==>
      && Needed(ss[..p]) < Needed(ss) && SlotAt(ss[p].gotAddr, start, Needed(ss[..p]), w)
      && start <= ss[p].gotAddr && ss[p].gotAddr + w <= start + Needed(ss) * w
    ensures ss[p].elf.bind != 1 && ss[p].elf.bind != 2 ==> ss[p].gotAddr == 0
  {
    hide Needed;
    NeededOne(ss, p);
    NeededGrows(ss, p + 1, |ss|);
    assert ss[..|ss|] == ss;
    if NeedSlot(ss[p].elf) {
      LastSlot(start, w, Needed(ss[..p]), Needed(ss));
    }
  }

  // No gap: each of the slots counted is the slot of a symbol.
  lemma {:induction false} SlotTaken(ss: seq<ElfSymbol>, start: nat, w: nat, k: nat) returns (p: nat)
    requires LaidOut(ss, start, w, 0) && k < Needed(ss)
    ensures p < |ss| && NeedSlot(ss[p].elf) && Needed(ss[..p]) == k && SlotAt(ss[p].gotAddr, start, k, w)
  {
    p := SlotIndex(ss, k);
  }

  lemma {:induction false} SlotIndex(ss: seq<ElfSymbol>, k: nat) returns (p: nat)
    requires k < Needed(ss)
    ensures p < |ss| && NeedSlot(ss[p].elf) && Needed(ss[..p]) == k
  {
    var n := |ss| - 1;
    assert ss[..n + 1] == ss;
    NeededOne(ss, n);
    if k == Needed(ss[..n]) {
      p := n;
    } else {
      p := SlotIndex(ss[..n], k);
      assert ss[..n][..p] == ss[..p];
    }
  }

  // ---- what each symbol is to get ----

  // What filling has to know about a symbol: whether it needs a slot, where that is, and its resolved address
  datatype Entry = Entry(needed: bool, at: nat, want: nat)

  // undefined symbols have no type
  predicate MayBeElsewhere(e: ElfSym)
  {
    e.stype == STT_NOTYPE || e.bind == STB_WEAK
  }

  ghost function EntryOf(l: Linker, system: System, s: ElfSymbol): Entry
    reads l, l.gsyms, l.Globals().Values, s
  {
    Entry(NeedSlot(s.elf), s.gotAddr,
          if MayBeElsewhere(s.elf) && s.addr == 0 then l.AddressOf(system, NameOf(s.elf)) else s.addr)
  }

  ghost predicate Fillable(arch: Arch, m: Mem, e: Entry)
  {
    e.needed ==> e.want != 0 && e.at != 0 && Mapped(m, e.at, WordSize(arch))
  }

  predicate InSlot(arch: Arch, e: Entry, x: int)
  {
    e.needed && e.at <= x < e.at + WordSize(arch)
  }

  ghost predicate Holds(arch: Arch, m: Mem, e: Entry)
  {
    e.needed ==> Mapped(m, e.at, WordSize(arch)) && Read(m, e.at, WordSize(arch)) == e.want
  }

  function Filled(arch: Arch, m: Mem, e: Entry): Mem
  {
    if e.needed && IsMapped(m, e.at, WordSize(arch)) then Write(m, e.at, WordSize(arch), e.want) else m
  }

  // One symbol
  method FillOne(arch: Arch, l: Linker, system: System, mem: Ram, s: ElfSymbol) returns (ok: bool)
    requires l.Valid()
    modifies mem, s`addr
    ensures ok <==> Fillable(arch, old(mem.cells), old(EntryOf(l, system, s)))
    ensures ok ==> mem.cells == Filled(arch, old(mem.cells), old(EntryOf(l, system, s)))
    ensures ok ==> s.addr == if NeedSlot(s.elf) then old(EntryOf(l, system, s)).want else old(s.addr)
    ensures old(s.addr) != 0 ==> s.addr == old(s.addr)
    ensures ok <==> (s.elf.bind == 1 || s.elf.bind == 2 ==>
      && (old(s.addr) != 0
          || ((s.elf.bind == 2 || s.elf.stype == 0) && old(l.AddressOf(system, NameOf(s.elf))) != 0))
      && s.gotAddr != 0 && Mapped(old(mem.cells), s.gotAddr, WordSize(arch)))
    ensures ok && (s.elf.bind == 1 || s.elf.bind == 2) && old(s.addr) == 0 ==>
      s.addr == old(l.AddressOf(system, NameOf(s.elf)))
  {
    ghost var e := EntryOf(l, system, s);
    if !NeedSlot(s.elf) {
      return true;
    }
    var addr := s.addr;
    if MayBeElsewhere(s.elf) && addr == 0 {
      label Before:
      addr := l.LookupSymbol(system, NameOf(s.elf));
      assert forall g :: g in l.entered ==> unchanged@Before(g);
    }
    assert e == Entry(true, s.gotAddr, addr);
    hide NeedSlot, WordSize, EntryOf, MayBeElsewhere, NameOf, Write;
    s.addr := addr;
    if s.addr == 0 || s.gotAddr == 0 || !IsMapped(mem.cells, s.gotAddr, WordSize(arch)) {
      return false;
    }
    mem.cells := Write(mem.cells, s.gotAddr, WordSize(arch), s.addr);
    return true;
  }

  // ---- all of them ----

  function FillAll(arch: Arch, m: Mem, es: seq<Entry>): Mem
  {
    if es == [] then m else Filled(arch, FillAll(arch, m, es[..|es| - 1]), es[|es| - 1])
  }

  ghost predicate AllFillable(arch: Arch, m: Mem, es: seq<Entry>)
  {
    forall p :: 0 <= p < |es| ==> Fillable(arch, m, es[p])
  }

  lemma FillAllNext(arch: Arch, m: Mem, es: seq<Entry>, c: nat)
    requires c < |es|
    ensures FillAll(arch, m, es[..c + 1]) == Filled(arch, FillAll(arch, m, es[..c]), es[c])
  {
    assert es[..c + 1][..c] == es[..c];
  }

  lemma {:induction false} FillAllKeys(arch: Arch, m: Mem, es: seq<Entry>)
    ensures FillAll(arch, m, es).Keys == m.Keys
  {
    if es != [] {
      FillAllKeys(arch, m, es[..|es| - 1]);
    }
  }

  // A byte in no slot is as it was.
  lemma {:induction false} FillAllFrame(arch: Arch, m: Mem, es: seq<Entry>, x: int)
    requires x in m && forall p :: 0 <= p < |es| ==> !InSlot(arch, es[p], x)
    ensures x in FillAll(arch, m, es) && FillAll(arch, m, es)[x] == m[x]
  {
    if es != [] {
      var n := |es| - 1;
      FillAllFrame(arch, m, es[..n], x);
      assert !InSlot(arch, es[n], x);
    }
  }

  predicate ApartEntries(arch: Arch, a: Entry, b: Entry)
  {
    a.needed && b.needed ==> Disjoint(a.at, WordSize(arch), b.at, WordSize(arch))
  }

  // The slots are apart, and the addresses are words.
  ghost predicate Sound(arch: Arch, es: seq<Entry>)
  {
    && (forall p, q :: 0 <= p < q < |es| ==> ApartEntries(arch, es[p], es[q]))
    && forall p :: 0 <= p < |es| ==> es[p].want < Pow2(8 * WordSize(arch))
  }

  lemma FilledHolds(arch: Arch, m: Mem, e: Entry)
    requires Fillable(arch, m, e) && e.want < Pow2(8 * WordSize(arch))
    ensures Holds(arch, Filled(arch, m, e), e)
  {
    if e.needed {
      ReadWritten(m, e.at, WordSize(arch), e.want);
    }
  }

  // A later write does not clobber an earlier slot.
  lemma FilledKeeps(arch: Arch, m: Mem, e: Entry, f: Entry)
    requires Holds(arch, m, e) && ApartEntries(arch, e, f)
    ensures Holds(arch, Filled(arch, m, f), e)
  {
    if e.needed && f.needed && IsMapped(m, f.at, WordSize(arch)) {
      hide FromBytes;
      StoreElsewhere(m, f.at, ToBytes(f.want, WordSize(arch)), e.at, WordSize(arch));
      LoadSame(m, Filled(arch, m, f), e.at, WordSize(arch));
    }
  }

  // Every slot ends with its own address.
  lemma {:induction false} FillAllHolds(arch: Arch, m: Mem, es: seq<Entry>, p: nat)
    requires AllFillable(arch, m, es) && Sound(arch, es) && p < |es|
    ensures Holds(arch, FillAll(arch, m, es), es[p])
  {
    hide Fillable, Holds, ApartEntries, Filled, Pow2;
    var n := |es| - 1;
    var before := FillAll(arch, m, es[..n]);
    FillAllKeys(arch, m, es[..n]);
    if p == n {
      StillFillable(arch, m, before, es[n]);
      FilledHolds(arch, before, es[n]);
    } else {
      FillAllHolds(arch, m, es[..n], p);
      assert ApartEntries(arch, es[p], es[n]);
      FilledKeeps(arch, before, es[p], es[n]);
    }
  }

  lemma StillFillable(arch: Arch, m: Mem, r: Mem, e: Entry)
    requires r.Keys == m.Keys
    ensures Fillable(arch, m, e) <==> Fillable(arch, r, e)
  {
    assert forall x :: x in m <==> x in r;
  }

  // ---- the loops ----

  // The first c symbols have been filled; the others are as at the start, and would still be resolved alike.
  ghost predicate Progress(l: Linker, system: System, flat: seq<ElfSymbol>, es: seq<Entry>, addrs: seq<nat>, c: nat)
    reads l, l.gsyms, l.Globals().Values, flat
  {
    && |es| == |addrs| == |flat|
    && (forall p :: 0 <= p < |flat| ==> es[p].needed == NeedSlot(flat[p].elf) && es[p].at == flat[p].gotAddr)
    && (forall p :: 0 <= p < |flat| && p < c ==> flat[p].addr == if es[p].needed then es[p].want else addrs[p])
    && (forall p :: 0 <= p < |flat| && c <= p ==> flat[p].addr == addrs[p] && EntryOf(l, system, flat[p]) == es[p])
  }

  // The next symbol of the list
  method FillNext(arch: Arch, l: Linker, system: System, mem: Ram, s: ElfSymbol,
                  ghost flat: seq<ElfSymbol>, ghost es: seq<Entry>, ghost addrs: seq<nat>, ghost c: nat)
    returns (ok: bool)
    requires l.Valid() && l.Defined() && Distinct(flat) && c < |flat| && flat[c] == s
    requires Progress(l, system, flat, es, addrs, c)
    modifies mem, s`addr
    ensures l.Valid() && l.Defined()
    ensures ok <==> Fillable(arch, old(mem.cells), es[c])
    ensures ok ==> mem.cells == Filled(arch, old(mem.cells), es[c])
    ensures ok ==> Progress(l, system, flat, es, addrs, c + 1)
  {
    hide BinaryTree.Contents, BinaryTree.Nodes, BinaryTree.Linked, BinaryTree.Ordered;
    label Before:
    ok := FillOne(arch, l, system, mem, s);
    assert forall k :: k in l.Globals() ==> l.Globals()[k].addr == old@Before(l.Globals()[k].addr);
  }

  // Memory after the first c entries, all of which could be filled
  ghost predicate FilledTo(arch: Arch, m0: Mem, m: Mem, es: seq<Entry>, c: nat)
  {
    c <= |es| && m == FillAll(arch, m0, es[..c]) && AllFillable(arch, m0, es[..c])
  }

  lemma FilledNext(arch: Arch, m0: Mem, m: Mem, es: seq<Entry>, c: nat)
    requires FilledTo(arch, m0, m, es, c) && c < |es|
    ensures Fillable(arch, m, es[c]) <==> Fillable(arch, m0, es[c])
    ensures Fillable(arch, m, es[c]) ==> FilledTo(arch, m0, Filled(arch, m, es[c]), es, c + 1)
    ensures !Fillable(arch, m, es[c]) ==> !AllFillable(arch, m0, es)
  {
    hide Fillable, Filled;
    FillAllNext(arch, m0, es, c);
    FillAllKeys(arch, m0, es[..c]);
    StillFillable(arch, m0, m, es[c]);
  }

  // The symbols of one table, which stands in the flat list from c on
  method FillTable(arch: Arch, l: Linker, system: System, mem: Ram, ss: seq<ElfSymbol>,
                   ghost flat: seq<ElfSymbol>, ghost es: seq<Entry>, ghost addrs: seq<nat>, ghost c: nat, ghost m0: Mem)
    returns (ok: bool)
    requires l.Valid() && l.Defined() && Distinct(flat) && c + |ss| <= |flat| && ss == flat[c..c + |ss|]
    requires Progress(l, system, flat, es, addrs, c) && FilledTo(arch, m0, mem.cells, es, c)
    modifies mem, ss`addr
    ensures l.Valid() && l.Defined()
    ensures ok ==> Progress(l, system, flat, es, addrs, c + |ss|) && FilledTo(arch, m0, mem.cells, es, c + |ss|)
    ensures !ok ==> !AllFillable(arch, m0, es)
  {
    hide Progress, FilledTo, AllFillable, Fillable, Filled, Distinct;
    var i := 0;
    while i < |ss|
      invariant i <= |ss| && l.Valid() && l.Defined()
      invariant Progress(l, system, flat, es, addrs, c + i) && FilledTo(arch, m0, mem.cells, es, c + i)
    {
      EntriesAre(l, system, flat, es, addrs, c + i);
      FilledNext(arch, m0, mem.cells, es, c + i);
      assert ss[i] == flat[c + i];
      ok := FillNext(arch, l, system, mem, ss[i], flat, es, addrs, c + i);
      if !ok {
        return false;
      }
      i := i + 1;
    }
    return true;
  }

  lemma EntriesAre(l: Linker, system: System, flat: seq<ElfSymbol>, es: seq<Entry>, addrs: seq<nat>, c: nat)
    requires Progress(l, system, flat, es, addrs, c)
    ensures |es| == |flat|
  {
  }

  ghost function EntriesOf(l: Linker, system: System, ss: seq<ElfSymbol>): (es: seq<Entry>)
    reads l, l.gsyms, l.Globals().Values, ss
    ensures |es| == |ss| && forall p :: 0 <= p < |ss| ==> es[p] == EntryOf(l, system, ss[p])
  {
    seq(|ss|, p requires 0 <= p < |ss| reads l, l.gsyms, l.Globals().Values, ss => EntryOf(l, system, ss[p]))
  }

  ghost function AddrsOf(ss: seq<ElfSymbol>): (addrs: seq<nat>)
    reads ss
    ensures |addrs| == |ss| && forall p :: 0 <= p < |ss| ==> addrs[p] == ss[p].addr
  {
    seq(|ss|, p requires 0 <= p < |ss| reads ss => ss[p].addr)
  }

  // Each symbol that needs a slot has the address looked for and finds it in its slot; the others are as they were.
  ghost predicate Complete(arch: Arch, m: Mem, ss: seq<ElfSymbol>, es: seq<Entry>, addrs: seq<nat>)
    reads ss
  {
    && |es| == |addrs| == |ss|
    && forall p :: 0 <= p < |ss| ==>
        && es[p].needed == NeedSlot(ss[p].elf) && es[p].at == ss[p].gotAddr && Holds(arch, m, es[p])
        && ss[p].addr == if es[p].needed then es[p].want else addrs[p]
  }

  lemma AllComplete(arch: Arch, l: Linker, system: System, flat: seq<ElfSymbol>, es: seq<Entry>, addrs: seq<nat>,
                    m0: Mem, m: Mem)
    requires Progress(l, system, flat, es, addrs, |flat|) && FilledTo(arch, m0, m, es, |flat|) && Sound(arch, es)
    ensures Complete(arch, m, flat, es, addrs) && AllFillable(arch, m0, es) && m == FillAll(arch, m0, es)
  {
    assert es[..|flat|] == es;
    hide Holds, FillAll, AllFillable, Sound;
    forall p | 0 <= p < |flat| ensures Holds(arch, m, es[p]) {
      FillAllHolds(arch, m0, es, p);
    }
  }

  // The loop over the tables
  method FillTables(arch: Arch, l: Linker, system: System, mem: Ram, tabs: seq<SymbolTable>,
                    ghost flat: seq<ElfSymbol>, ghost es: seq<Entry>, ghost addrs: seq<nat>)
    returns (ok: bool)
    requires l.Valid() && l.Defined() && flat == Flat(tabs) && Distinct(flat)
    requires Progress(l, system, flat, es, addrs, 0) && FilledTo(arch, mem.cells, mem.cells, es, 0)
    modifies mem, flat`addr
    ensures l.Valid() && l.Defined()
    ensures !ok ==> !AllFillable(arch, old(mem.cells), es)
    ensures ok ==> Progress(l, system, flat, es, addrs, |flat|) && FilledTo(arch, old(mem.cells), mem.cells, es, |flat|)
  {
    hide Progress, FilledTo, AllFillable, Flat, Distinct;
    ghost var m0 := mem.cells;
    var k := 0;
    ghost var c: nat := 0;
    StartOf(tabs, flat, 0, 0);
    while k < |tabs|
      invariant k <= |tabs| && c <= |flat| && flat[..c] == Flat(tabs[..k]) && l.Valid() && l.Defined()
      invariant Progress(l, system, flat, es, addrs, c) && FilledTo(arch, m0, mem.cells, es, c)
    {
      NextPart(tabs, k, flat, c);
      ok := FillTable(arch, l, system, mem, tabs[k].symbols, flat, es, addrs, c, m0);
      if !ok {
        return false;
      }
      c := c + |tabs[k].symbols|;
      k := k + 1;
    }
    EndOf(tabs, flat, c);
    assert c == |flat[..c]|;
    return true;
  }

  // fill_got
  method FillGot(arch: Arch, l: Linker, system: System, mem: Ram, tabs: seq<SymbolTable>, ghost flat: seq<ElfSymbol>)
    returns (ok: bool)
    requires l.Valid() && l.Defined() && flat == Flat(tabs) && Distinct(flat) && Sound(arch, EntriesOf(l, system, flat))
    modifies mem, flat`addr
    ensures l.Valid() && l.Defined()
    ensures ok <==> AllFillable(arch, old(mem.cells), old(EntriesOf(l, system, flat)))
    ensures ok ==> Complete(arch, mem.cells, flat, old(EntriesOf(l, system, flat)), old(AddrsOf(flat)))
    ensures ok ==> mem.cells == FillAll(arch, old(mem.cells), old(EntriesOf(l, system, flat)))
  {
    hide Flat, Distinct, Sound, Fillable, Complete;
    ghost var m0, es, addrs := mem.cells, EntriesOf(l, system, flat), AddrsOf(flat);
    ok := FillTables(arch, l, system, mem, tabs, flat, es, addrs);
    if ok {
      AllComplete(arch, l, system, flat, es, addrs, m0, mem.cells);
    }
  }

  // ---- verification ----

  // What verify_got asserts of a symbol: its slot holds its address, which fits 48 bits.
  ghost predicate Verified(arch: Arch, m: Mem, s: ElfSymbol)
    reads s
  {
    && (s.gotAddr != 0 ==> Mapped(m, s.gotAddr, WordSize(arch)) && Read(m, s.gotAddr, WordSize(arch)) == s.addr)
    && s.addr < 0x1_0000_0000_0000
  }

  ghost predicate AllVerified(arch: Arch, m: Mem, ss: seq<ElfSymbol>)
    reads ss
  {
    forall s :: s in ss ==> Verified(arch, m, s)
  }

  // verify_got
  method VerifyGot(arch: Arch, mem: Ram, tabs: seq<SymbolTable>) returns (ok: bool)
    ensures ok <==> AllVerified(arch, mem.cells, Flat(tabs))
  {
    hide Verified, Flat;
    var k := 0;
    ghost var seen: seq<ElfSymbol> := [];
    FlatNone(tabs);
    while k < |tabs|
      invariant k <= |tabs| && seen == Flat(tabs[..k]) && AllVerified(arch, mem.cells, seen)
    {
      FlatPart(tabs, k);
      FlatOne(tabs, k);
      ok := VerifyTable(arch, mem, tabs[k].symbols);
      if !ok {
        ghost var s :| s in tabs[k].symbols && !Verified(arch, mem.cells, s);
        assert s in Flat(tabs);
        return false;
      }
      VerifiedAppend(arch, mem.cells, seen, tabs[k].symbols);
      seen := seen + tabs[k].symbols;
      k := k + 1;
    }
    assert tabs[..k] == tabs;
    return true;
  }

  lemma VerifiedAppend(arch: Arch, m: Mem, a: seq<ElfSymbol>, b: seq<ElfSymbol>)
    requires AllVerified(arch, m, a) && AllVerified(arch, m, b)
    ensures AllVerified(arch, m, a + b)
  {
    forall s | s in a + b ensures Verified(arch, m, s) {
      assert s in a || s in b;
    }
  }

  lemma FlatNone(tabs: seq<SymbolTable>)
    ensures Flat(tabs[..0]) == []
  {
  }

  method VerifyTable(arch: Arch, mem: Ram, ss: seq<ElfSymbol>) returns (ok: bool)
    ensures ok <==> AllVerified(arch, mem.cells, ss)
  {
    hide Verified;
    var i := 0;
    while i < |ss|
      invariant i <= |ss| && AllVerified(arch, mem.cells, ss[..i])
    {
      ok := VerifyOne(arch, mem, ss[i]);
      if !ok {
        return false;
      }
      i := i + 1;
    }
    assert ss[..i] == ss;
    return true;
  }

  method VerifyOne(arch: Arch, mem: Ram, s: ElfSymbol) returns (ok: bool)
    ensures ok <==> Verified(arch, mem.cells, s)
  {
    if s.gotAddr != 0 {
      if !IsMapped(mem.cells, s.gotAddr, WordSize(arch)) || Read(mem.cells, s.gotAddr, WordSize(arch)) != s.addr {
        return false;
      }
    }
    return s.addr < 0x1_0000_0000_0000;
  }
}
