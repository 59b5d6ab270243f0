// elf/got.c: the global offset table of an object - counted, laid out, filled, verified.
module Got {
  import opened Results
  import opened Target
  import opened Sections
  import opened Objects

  // need_got_slot
  predicate NeedSlot(e: ElfSym)
  {
    e.bind == STB_GLOBAL || e.bind == STB_WEAK
  }

  // sizeof(addr_t)
  function WordSize(arch: Arch): (w: nat)
    ensures w == 4 || w == 8
  {
    if arch.AArch64? then 8 else 4
  }

  // ---- counting ----

  function Slots(syms: seq<ElfSym>): nat
  {
    if syms == [] then 0
    else Slots(syms[..|syms| - 1]) + (if NeedSlot(syms[|syms| - 1]) then 1 else 0)
  }

  function ElfOf(ss: seq<ElfSymbol>): (es: seq<ElfSym>)
    ensures |es| == |ss| && forall i :: 0 <= i < |ss| ==> es[i] == ss[i].elf
  {
    seq(|ss|, i requires 0 <= i < |ss| => ss[i].elf)
  }

  // slots needed by linker symbols
  function Needed(ss: seq<ElfSymbol>): nat
  {
    Slots(ElfOf(ss))
  }

  lemma {:induction false} SlotsAppend(a: seq<ElfSym>, b: seq<ElfSym>)
    ensures Slots(a + b) == Slots(a) + Slots(b)
  {
    if b == [] {
      assert a + b == a;
    } else {
      var n := |b| - 1;
      SlotsAppend(a, b[..n]);
      assert (a + b)[..|a + b| - 1] == a + b[..n];
    }
  }

  lemma NeededAppend(a: seq<ElfSymbol>, b: seq<ElfSymbol>)
    ensures Needed(a + b) == Needed(a) + Needed(b)
  {
    assert ElfOf(a + b) == ElfOf(a) + ElfOf(b);
    SlotsAppend(ElfOf(a), ElfOf(b));
  }

  lemma NeededOne(ss: seq<ElfSymbol>, k: nat)
    requires k < |ss|
    ensures Needed(ss[..k + 1]) == Needed(ss[..k]) + (if NeedSlot(ss[k].elf) then 1 else 0)
  {
    assert ElfOf(ss[..k + 1])[..k] == ElfOf(ss[..k]);
  }

  lemma {:induction false} NeededGrows(ss: seq<ElfSymbol>, k: nat, l: nat)
    requires k <= l <= |ss|
    ensures Needed(ss[..k]) <= Needed(ss[..l])
  {
    assert ss[..l] == ss[..k] + ss[k..l];
    NeededAppend(ss[..k], ss[k..l]);
  }

  // all symbols of all tables, in order
  function Flat(tabs: seq<SymbolTable>): seq<ElfSymbol>
  {
    if tabs == [] then [] else Flat(tabs[..|tabs| - 1]) + tabs[|tabs| - 1].symbols
  }

  lemma FlatOne(tabs: seq<SymbolTable>, k: nat)
    requires k < |tabs|
    ensures Flat(tabs[..k + 1]) == Flat(tabs[..k]) + tabs[k].symbols
  {
    assert tabs[..k + 1][..k] == tabs[..k];
  }

  // Table k stands in the flat list behind the tables before it.
  lemma {:induction false} FlatPart(tabs: seq<SymbolTable>, k: nat)
    requires k < |tabs|
    ensures var c, b := |Flat(tabs[..k])|, tabs[k].symbols;
      && c + |b| <= |Flat(tabs)| && Flat(tabs)[..c] == Flat(tabs[..k])
      && Flat(tabs)[c..c + |b|] == b && Flat(tabs)[..c + |b|] == Flat(tabs[..k + 1])
  {
    FlatOne(tabs, k);
    if k + 1 == |tabs| {
      assert tabs[..k + 1] == tabs;
    } else {
      var n := |tabs| - 1;
      FlatPart(tabs[..n], k);
      assert tabs[..n][..k] == tabs[..k] && tabs[..n][..k + 1] == tabs[..k + 1];
    }
  }

  // ---- layout ----

  predicate Distinct(ss: seq<ElfSymbol>)
  {
    forall i, j :: 0 <= i < j < |ss| ==> ss[i] != ss[j]
  }

  // Every symbol that needs a slot has the next one; the others have none.
  ghost predicate LaidOut(ss: seq<ElfSymbol>, start: nat, w: nat, first: nat)
    reads ss
  {
    forall p :: 0 <= p < |ss| ==>
      ss[p].gotAddr == if NeedSlot(ss[p].elf) then start + (first + Needed(ss[..p])) * w else 0
  }

  method AssignSlots(ss: seq<ElfSymbol>, start: nat, w: nat, first: nat) returns (slot: nat)
    requires Distinct(ss) && forall s :: s in ss ==> s.gotAddr == 0
    modifies ss`gotAddr
    ensures LaidOut(ss, start, w, first) && slot == first + Needed(ss)
  {
    slot := first;
    var i := 0;
    while i < |ss|
      invariant i <= |ss| && slot == first + Needed(ss[..i])
      invariant forall p :: 0 <= p < i ==>
        ss[p].gotAddr == if NeedSlot(ss[p].elf) then start + (first + Needed(ss[..p])) * w else 0
      invariant forall p :: i <= p < |ss| ==> ss[p].gotAddr == 0
    {
      NeededOne(ss, i);
      if NeedSlot(ss[i].elf) {
        ss[i].gotAddr := start + slot * w;
        slot := slot + 1;
      }
      i := i + 1;
    }
    assert ss[..|ss|] == ss;
  }

  lemma LaidOutAppend(a: seq<ElfSymbol>, b: seq<ElfSymbol>, start: nat, w: nat)
    requires LaidOut(a, start, w, 0) && LaidOut(b, start, w, Needed(a))
    ensures LaidOut(a + b, start, w, 0)
  {
    var c := a + b;
    forall p | 0 <= p < |c|
      ensures c[p].gotAddr == if NeedSlot(c[p].elf) then start + (0 + Needed(c[..p])) * w else 0
    {
      if p < |a| {
        assert c[..p] == a[..p];
      } else {
        assert c[..p] == a + b[..p - |a|];
        NeededAppend(a, b[..p - |a|]);
      }
    }
  }

  // The tables that ocInit builds from the headers hold the same symbols, in the same order.
  ghost predicate Built(headers: seq<SectionHeader>, tabs: seq<SymbolTable>)
  {
    HeaderSyms(headers) == ElfOf(Flat(tabs))
  }

  // the symbols of all SHT_SYMTAB sections
  function HeaderSyms(headers: seq<SectionHeader>): seq<ElfSym>
  {
    if headers == [] then []
    else
      HeaderSyms(headers[..|headers| - 1])
      + (if headers[|headers| - 1].shType == SHT_SYMTAB then headers[|headers| - 1].syms else [])
  }

  method CountTable(syms: seq<ElfSym>) returns (slots: nat)
    ensures slots == Slots(syms)
  {
    slots := 0;
    var j := 0;
    while j < |syms|
      invariant j <= |syms| && slots == Slots(syms[..j])
    {
      assert syms[..j + 1][..j] == syms[..j];
      if NeedSlot(syms[j]) {
        slots := slots + 1;
      }
      j := j + 1;
    }
    assert syms[..j] == syms;
  }

  // The count over the section headers
  method CountSlots(headers: seq<SectionHeader>) returns (slots: nat)
    ensures slots == Slots(HeaderSyms(headers))
  {
    hide Slots;
    slots := 0;
    var i := 0;
    NoneNeeded();
    while i < |headers|
      invariant i <= |headers| && slots == Slots(HeaderSyms(headers[..i]))
    {
      assert headers[..i + 1][..i] == headers[..i];
      if headers[i].shType == SHT_SYMTAB {
        var more := CountTable(headers[i].syms);
        SlotsAppend(HeaderSyms(headers[..i]), headers[i].syms);
        slots := slots + more;
      } else {
        assert HeaderSyms(headers[..i]) + [] == HeaderSyms(headers[..i]);
      }
      i := i + 1;
    }
    assert headers[..i] == headers;
  }

  lemma NoneNeeded()
    ensures Slots([]) == 0
  {
  }

  ghost predicate Unassigned(ss: seq<ElfSymbol>)
    reads ss
  {
    forall s :: s in ss ==> s.gotAddr == 0
  }

  lemma StartOf(tabs: seq<SymbolTable>, flat: seq<ElfSymbol>, start: nat, w: nat)
    ensures flat[..0] == Flat(tabs[..0]) && Needed(flat[..0]) == 0 && LaidOut(flat[..0], start, w, 0)
    ensures flat[0..] == flat
  {
  }

  // One table, which stands in the flat list from c on
  method AssignTable(ss: seq<ElfSymbol>, ghost flat: seq<ElfSymbol>, ghost c: nat, start: nat, w: nat, first: nat)
    returns (slot: nat)
    requires Distinct(flat) && c + |ss| <= |flat| && ss == flat[c..c + |ss|]
    requires first == Needed(flat[..c]) && LaidOut(flat[..c], start, w, 0) && Unassigned(flat[c..])
    modifies ss`gotAddr
    ensures slot == Needed(flat[..c + |ss|]) && LaidOut(flat[..c + |ss|], start, w, 0) && Unassigned(flat[c + |ss|..])
  {
    hide Needed, LaidOut;
    PartOf(flat, c, |ss|);
    slot := AssignSlots(ss, start, w, first);
    LaidOutAppend(flat[..c], ss, start, w);
    NeededAppend(flat[..c], ss);
  }

  // The second pass: the loop over the tables
  method AssignTables(tabs: seq<SymbolTable>, ghost flat: seq<ElfSymbol>, start: nat, w: nat)
    requires flat == Flat(tabs) && Distinct(flat) && Unassigned(flat)
    modifies flat`gotAddr
    ensures LaidOut(flat, start, w, 0)
  {
    hide Needed, LaidOut, Flat, Distinct, Unassigned;
    var slot, k := 0, 0;
    ghost var c: nat := 0;
    StartOf(tabs, flat, start, w);
    while k < |tabs|
      invariant k <= |tabs| && c <= |flat| && flat[..c] == Flat(tabs[..k])
      invariant slot == Needed(flat[..c]) && LaidOut(flat[..c], start, w, 0) && Unassigned(flat[c..])
    {
      NextPart(tabs, k, flat, c);
      slot := AssignTable(tabs[k].symbols, flat, c, start, w, slot);
      c := c + |tabs[k].symbols|;
      k := k + 1;
    }
    EndOf(tabs, flat, c);
  }

  lemma EndOf(tabs: seq<SymbolTable>, flat: seq<ElfSymbol>, c: nat)
    requires flat == Flat(tabs) && c <= |flat| && flat[..c] == Flat(tabs[..|tabs|])
    ensures flat[..c] == flat
  {
    assert tabs[..|tabs|] == tabs;
  }

  lemma NextPart(tabs: seq<SymbolTable>, k: nat, flat: seq<ElfSymbol>, c: nat)
    requires k < |tabs| && flat == Flat(tabs) && Distinct(flat) && c <= |flat| && flat[..c] == Flat(tabs[..k])
    ensures var ss := tabs[k].symbols;
      && c + |ss| <= |flat| && ss == flat[c..c + |ss|] && flat[..c + |ss|] == Flat(tabs[..k + 1])
      && (forall s :: s in ss ==> s in flat)
  {
    hide Flat;
    FlatPart(tabs, k);
    assert c == |flat[..c]|;
    PartOf(flat, c, |tabs[k].symbols|);
  }

  lemma PartOf(flat: seq<ElfSymbol>, c: nat, n: nat)
    requires c + n <= |flat| && Distinct(flat)
    ensures var b := flat[c..c + n];
      && Distinct(b) && flat[..c] + b == flat[..c + n]
      && (forall s :: s in b ==> s in flat && s !in flat[..c] && s !in flat[c + n..])
      && flat[c..] == b + flat[c + n..]
  {
    var b := flat[c..c + n];
    forall s | s in b ensures s in flat && s !in flat[..c] && s !in flat[c + n..] {
      var j :| 0 <= j < n && b[j] == s;
      assert s == flat[c + j];
    }
  }

  lemma NoSlots(ss: seq<ElfSymbol>, start: nat, w: nat)
    requires Needed(ss) == 0 && forall s :: s in ss ==> s.gotAddr == 0
    ensures LaidOut(ss, start, w, 0)
  {
    assert ss[..|ss|] == ss;
    forall p | 0 <= p < |ss| ensures !NeedSlot(ss[p].elf) {
      NeededOne(ss, p);
      NeededGrows(ss, p + 1, |ss|);
    }
  }

  // make_got. The system answers the request for memory with an address, or with none.
  method MakeGot(arch: Arch, mem: Ram, headers: seq<SectionHeader>, tabs: seq<SymbolTable>, ghost flat: seq<ElfSymbol>,
                 answer: Option<nat>)
    returns (ok: bool, start: nat, size: nat)
    requires flat == Flat(tabs) && Built(headers, tabs) && Distinct(flat) && Unassigned(flat)
    requires answer.Some? ==> FreshPages(mem.cells, answer.value, Slots(HeaderSyms(headers)) * WordSize(arch))
    modifies mem, flat`gotAddr
    ensures ok <==> Needed(flat) == 0 || answer.Some?
    ensures ok ==> LaidOut(flat, start, WordSize(arch), 0) && size == Needed(flat) * WordSize(arch)
    ensures ok && size > 0 ==> start == answer.value
    ensures ok && size == 0 ==> mem.cells == old(mem.cells)
    ensures forall x :: x in mem.cells && x !in old(mem.cells) ==> mem.cells[x] == 0
    ensures ok && size > 0 ==> forall x :: x in mem.cells <==> x in old(mem.cells) || start <= x < start + PageUp(size)
    ensures forall x :: x in old(mem.cells) ==> x in mem.cells && mem.cells[x] == old(mem.cells)[x]
  {
    var slots := CountSlots(headers);
    assert slots == Needed(flat);
    ok, start, size := true, 0, 0;
    if slots > 0 {
      if answer.None? {
        return false, 0, 0;
      }
      size := slots * WordSize(arch);
      start := answer.value;
      mem.MapPages(start, size);
      AssignTables(tabs, flat, start, WordSize(arch));
    } else {
      NoSlots(flat, start, WordSize(arch));
    }
  }
}
