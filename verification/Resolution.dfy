// What resolving an object comes to, in terms of its input, the global addresses and the system: the address and the
// GOT slot of every symbol, the filled GOT, and the relocations that are run.
module Resolution {
  import opened Memory
  import opened Results
  import opened Types
  import opened Words
  import opened Target
  import opened Pass
  import opened Runs
  import opened Objects
  import opened Linker
  import opened Got
  import opened GotFill
  import opened Init
  import opened Names
  import opened Inputs
  import opened Addresses
  import opened Resolve

  // ---- symbols ----

  // The address of a symbol in its own object, 0 if it has none there
  function OwnFor(arch: Arch, x: Input, e: ElfSym): nat
    requires |x.answers| == |x.headers|
  {
    var a := OwnAddress(arch, InfosFor(arch, x), e);
    if a.Ok? then a.value else 0
  }

  // The address that filling the GOT finds for a symbol
  function WantFor(arch: Arch, x: Input, g: map<u64, nat>, system: System, e: ElfSym): nat
    requires |x.answers| == |x.headers|
  {
    if MayBeElsewhere(e) && OwnFor(arch, x, e) == 0 then AnswerFrom(g, system, NameOf(e)) else OwnFor(arch, x, e)
  }

  // The address of a symbol once the object is resolved
  function AddressFor(arch: Arch, x: Input, g: map<u64, nat>, system: System, e: ElfSym): nat
    requires |x.answers| == |x.headers|
  {
    if NeedSlot(e) then WantFor(arch, x, g, system, e) else OwnFor(arch, x, e)
  }

  // The GOT slot of symbol p, 0 if it has none
  function SlotFor(arch: Arch, x: Input, p: nat): nat
    requires p < |HeaderSyms(x.headers)|
  {
    var es := HeaderSyms(x.headers);
    if NeedSlot(es[p]) && x.got.Some? then x.got.value + Slots(es[..p]) * WordSize(arch) else 0
  }

  function EntryFor(arch: Arch, x: Input, g: map<u64, nat>, system: System, p: nat): Entry
    requires |x.answers| == |x.headers| && p < |HeaderSyms(x.headers)|
  {
    var e := HeaderSyms(x.headers)[p];
    Entry(NeedSlot(e), SlotFor(arch, x, p), WantFor(arch, x, g, system, e))
  }

  function EntriesFor(arch: Arch, x: Input, g: map<u64, nat>, system: System): (es: seq<Entry>)
    requires |x.answers| == |x.headers|
    ensures |es| == |HeaderSyms(x.headers)|
  {
    seq(|HeaderSyms(x.headers)|, p requires 0 <= p < |HeaderSyms(x.headers)| => EntryFor(arch, x, g, system, p))
  }

  // Memory with the GOT filled
  function FilledFor(arch: Arch, x: Input, g: map<u64, nat>, system: System, m: Mem): Mem
    requires |x.answers| == |x.headers|
  {
    FillAll(arch, m, EntriesFor(arch, x, g, system))
  }

  // Every symbol that needs a slot is found.
  ghost predicate AllFound(arch: Arch, x: Input, g: map<u64, nat>, system: System)
    requires |x.answers| == |x.headers|
  {
    forall e :: e in HeaderSyms(x.headers) && NeedSlot(e) ==> WantFor(arch, x, g, system, e) != 0
  }

  // No address has more than 48 bits.
  ghost predicate AllShort(arch: Arch, x: Input, g: map<u64, nat>, system: System)
    requires |x.answers| == |x.headers|
  {
    forall e :: e in HeaderSyms(x.headers) ==> AddressFor(arch, x, g, system, e) < 0x1_0000_0000_0000
  }

  // ---- relocations ----

  // Symbol k of the symbol section with index link, with its address and slot
  function ViewFor(arch: Arch, x: Input, g: map<u64, nat>, system: System, link: nat, k: nat): Option<SymbolView>
    requires |x.answers| == |x.headers|
  {
    if link < |x.headers| && x.headers[link].shType == SHT_SYMTAB && k < |x.headers[link].syms| then
      SymbolPosition(x.headers, link, k);
      Some(SymbolView(AddressFor(arch, x, g, system, x.headers[link].syms[k]),
                      SlotFor(arch, x, |HeaderSyms(x.headers[..link])| + k)))
    else None
  }

  // Symbol k of section link is in the list of all symbols behind those of the sections before.
  lemma {:induction false} SymbolPosition(headers: seq<SectionHeader>, link: nat, k: nat)
    requires link < |headers| && headers[link].shType == SHT_SYMTAB && k < |headers[link].syms|
    ensures var p := |HeaderSyms(headers[..link])| + k;
      p < |HeaderSyms(headers)| && HeaderSyms(headers)[p] == headers[link].syms[k]
    decreases |headers|
  {
    var n := |headers| - 1;
    if link == n {
      assert headers[..link] == headers[..n];
    } else {
      assert headers[..n][..link] == headers[..link];
      SymbolPosition(headers[..n], link, k);
    }
  }

  function JobFor(arch: Arch, x: Input, g: map<u64, nat>, system: System, t: RelTable, rel: Rel, implicit: bool): Job
    requires |x.answers| == |x.headers|
  {
    Job(t.target, rel.offset, rel.rtype, ViewFor(arch, x, g, system, t.link, rel.sym), implicit, rel.addend)
  }

  function TableJobs(arch: Arch, x: Input, g: map<u64, nat>, system: System, t: RelTable, implicit: bool,
                     k: nat): (jobs: seq<Job>)
    requires |x.answers| == |x.headers| && k <= |t.rels|
    ensures |jobs| == |t.rels| - k
    decreases |t.rels| - k
  {
    if k == |t.rels| then []
    else [JobFor(arch, x, g, system, t, t.rels[k], implicit)] + TableJobs(arch, x, g, system, t, implicit, k + 1)
  }

  // The relocations of the tables for sections that are relocated, in order
  function ListJobs(arch: Arch, x: Input, g: map<u64, nat>, system: System, ts: seq<RelTable>, implicit: bool): seq<Job>
    requires |x.answers| == |x.headers| && TargetsExist(InfosFor(arch, x), ts)
  {
    if ts == [] then []
    else
      (if Active(InfosFor(arch, x)[ts[0].target]) then TableJobs(arch, x, g, system, ts[0], implicit, 0) else [])
      + ListJobs(arch, x, g, system, ts[1..], implicit)
  }

  // Relocation tables name sections that are there.
  ghost predicate TargetsIn(arch: Arch, x: Input)
    requires |x.answers| == |x.headers|
  {
    TargetsExist(InfosFor(arch, x), RelOf(x)) && TargetsExist(InfosFor(arch, x), RelaOf(x))
  }

  // All relocations of the object, those with implicit addends first
  ghost function JobsFor(arch: Arch, x: Input, g: map<u64, nat>, system: System): seq<Job>
    requires |x.answers| == |x.headers| && TargetsIn(arch, x)
  {
    ListJobs(arch, x, g, system, RelOf(x), true) + ListJobs(arch, x, g, system, RelaOf(x), false)
  }

  // The state that the pass starts from
  function StartFor(x: Input, filled: Mem): State
  {
    State(filled, seq(|x.headers|, _ => []))
  }

  // ---- linker symbols and their values ----

  // The symbols as loading leaves them: own addresses, and slots of the GOT that the system gave
  ghost predicate SymbolsLoaded(arch: Arch, x: Input, ss: seq<ElfSymbol>)
    requires |x.answers| == |x.headers|
    reads ss
  {
    && ElfOf(ss) == HeaderSyms(x.headers)
    && forall p :: 0 <= p < |ss| ==> ss[p].addr == OwnFor(arch, x, ss[p].elf) && ss[p].gotAddr == SlotFor(arch, x, p)
  }

  // The symbols once the object is resolved
  ghost predicate SymbolsResolved(arch: Arch, x: Input, g: map<u64, nat>, system: System, ss: seq<ElfSymbol>)
    requires |x.answers| == |x.headers|
    reads ss
  {
    && ElfOf(ss) == HeaderSyms(x.headers)
    && forall p :: 0 <= p < |ss| ==>
        ss[p].addr == AddressFor(arch, x, g, system, ss[p].elf) && ss[p].gotAddr == SlotFor(arch, x, p)
  }

  lemma SlotsLoaded(arch: Arch, x: Input, ss: seq<ElfSymbol>, start: nat, p: nat)
    requires ElfOf(ss) == HeaderSyms(x.headers) && p < |ss| && LaidOut(ss, start, WordSize(arch), 0)
    requires Needed(ss) > 0 ==> x.got == Some(start)
    ensures ss[p].gotAddr == SlotFor(arch, x, p)
  {
    assert ElfOf(ss[..p]) == ElfOf(ss)[..p];
    SlotInside(ss, start, WordSize(arch), p);
    hide HeaderSyms, Slots;
    assert Needed(ss[..p]) == Slots(HeaderSyms(x.headers)[..p]);
  }

  lemma LoadedSymbols(arch: Arch, x: Input, ss: seq<ElfSymbol>, start: nat)
    requires |x.answers| == |x.headers| && ElfOf(ss) == HeaderSyms(x.headers)
    requires Addressed(arch, InfosFor(arch, x), ss, |ss|) && LaidOut(ss, start, WordSize(arch), 0)
    requires Needed(ss) > 0 ==> x.got == Some(start)
    ensures SymbolsLoaded(arch, x, ss)
  {
    hide OwnAddress, InfosFor, HeaderSyms, LaidOut, Needed, SlotFor;
    forall p | 0 <= p < |ss|
      ensures ss[p].addr == OwnFor(arch, x, ss[p].elf) && ss[p].gotAddr == SlotFor(arch, x, p)
    {
      SlotsLoaded(arch, x, ss, start, p);
    }
  }

  lemma EntryAgrees(arch: Arch, l: Linker, system: System, x: Input, ss: seq<ElfSymbol>, p: nat)
    requires |x.answers| == |x.headers| && SymbolsLoaded(arch, x, ss) && p < |ss|
    ensures EntryOf(l, system, ss[p]) == EntryFor(arch, x, l.Addresses(), system, p)
  {
    hide OwnFor, SlotFor, HeaderSyms, AnswerFrom;
    assert ElfOf(ss)[p] == ss[p].elf;
    LookupIsAnswer(l, system, NameOf(ss[p].elf));
  }

  lemma EntriesAgree(arch: Arch, l: Linker, system: System, x: Input, ss: seq<ElfSymbol>)
    requires |x.answers| == |x.headers| && SymbolsLoaded(arch, x, ss)
    ensures EntriesOf(l, system, ss) == EntriesFor(arch, x, l.Addresses(), system)
  {
    hide EntryOf, EntryFor, HeaderSyms;
    assert |ss| == |HeaderSyms(x.headers)|;
    forall p | 0 <= p < |ss| ensures EntryOf(l, system, ss[p]) == EntryFor(arch, x, l.Addresses(), system, p) {
      EntryAgrees(arch, l, system, x, ss, p);
    }
  }

  // Symbols that have been filled in are resolved.
  lemma ResolvedSymbols(arch: Arch, x: Input, g: map<u64, nat>, system: System, m: Mem, ss: seq<ElfSymbol>,
                        addrs: seq<nat>)
    requires |x.answers| == |x.headers| && ElfOf(ss) == HeaderSyms(x.headers)
    requires Complete(arch, m, ss, EntriesFor(arch, x, g, system), addrs)
    requires forall p :: 0 <= p < |ss| ==> addrs[p] == OwnFor(arch, x, ss[p].elf)
    ensures SymbolsResolved(arch, x, g, system, ss)
  {
    hide OwnFor, SlotFor, HeaderSyms, WantFor, Holds;
    var es := EntriesFor(arch, x, g, system);
    forall p | 0 <= p < |ss|
      ensures ss[p].addr == AddressFor(arch, x, g, system, ss[p].elf) && ss[p].gotAddr == SlotFor(arch, x, p)
    {
      assert ElfOf(ss)[p] == ss[p].elf && es[p] == EntryFor(arch, x, g, system, p);
    }
  }

  // ---- relocations of linker tables and their values ----

  lemma ViewAgrees(arch: Arch, x: Input, g: map<u64, nat>, system: System, tabs: seq<SymbolTable>, ss: seq<ElfSymbol>,
                   link: nat, k: nat)
    requires |x.answers| == |x.headers| && SymbolsResolved(arch, x, g, system, ss)
    requires Indexed(x.headers, tabs) && Stands(x.headers, tabs, ss)
    ensures View(SymbolAt(tabs, link, k)) == ViewFor(arch, x, g, system, link, k)
  {
    hide HeaderSyms, AddressFor, SlotFor;
    var t := FindTable(tabs, link);
    if t.Some? && k < |t.value.symbols| {
      var c := |HeaderSyms(x.headers[..link])|;
      assert ElfOf(t.value.symbols)[k] == t.value.symbols[k].elf;
      assert ss[c + k] == ss[c..c + |t.value.symbols|][k] == t.value.symbols[k];
    }
  }

  lemma {:induction false} TableJobsAgree(arch: Arch, x: Input, g: map<u64, nat>, system: System,
                                          tabs: seq<SymbolTable>, ss: seq<ElfSymbol>,
                                          t: RelTable, implicit: bool, k: nat)
    requires |x.answers| == |x.headers| && SymbolsResolved(arch, x, g, system, ss)
    requires Indexed(x.headers, tabs) && Stands(x.headers, tabs, ss) && k <= |t.rels|
    ensures JobsFrom(tabs, t, implicit, k) == TableJobs(arch, x, g, system, t, implicit, k)
    decreases |t.rels| - k
  {
    hide Indexed, Stands, SymbolsResolved, ViewFor, SymbolAt;
    if k < |t.rels| {
      ViewAgrees(arch, x, g, system, tabs, ss, t.link, t.rels[k].sym);
      TableJobsAgree(arch, x, g, system, tabs, ss, t, implicit, k + 1);
    }
  }

  lemma {:induction false} ListJobsAgree(arch: Arch, x: Input, g: map<u64, nat>, system: System, tabs: seq<SymbolTable>,
                                         ss: seq<ElfSymbol>,
                                         ts: seq<RelTable>, implicit: bool)
    requires |x.answers| == |x.headers| && SymbolsResolved(arch, x, g, system, ss)
    requires Indexed(x.headers, tabs) && Stands(x.headers, tabs, ss) && TargetsExist(InfosFor(arch, x), ts)
    ensures JobsOf(tabs, InfosFor(arch, x), ts, implicit) == ListJobs(arch, x, g, system, ts, implicit)
  {
    hide Indexed, Stands, SymbolsResolved, JobsFrom, TableJobs, InfosFor;
    if ts != [] {
      TableJobsAgree(arch, x, g, system, tabs, ss, ts[0], implicit, 0);
      ListJobsAgree(arch, x, g, system, tabs, ss, ts[1..], implicit);
    }
  }

  // The pass over the linker's tables is the run of the object's relocations.
  lemma JobsAgree(arch: Arch, x: Input, g: map<u64, nat>, system: System, tabs: seq<SymbolTable>, ss: seq<ElfSymbol>)
    requires |x.answers| == |x.headers| && SymbolsResolved(arch, x, g, system, ss)
    requires Indexed(x.headers, tabs) && Stands(x.headers, tabs, ss) && TargetsIn(arch, x)
    ensures AllJobs(tabs, InfosFor(arch, x), RelOf(x), RelaOf(x)) == JobsFor(arch, x, g, system)
  {
    hide Indexed, Stands, SymbolsResolved, JobsOf, ListJobs, InfosFor, RelOf, RelaOf;
    ListJobsAgree(arch, x, g, system, tabs, ss, RelOf(x), true);
    ListJobsAgree(arch, x, g, system, tabs, ss, RelaOf(x), false);
  }

  // ---- success ----

  // In a GOT that is mapped, filling succeeds exactly if every symbol that needs a slot is found.
  lemma FillableIff(arch: Arch, x: Input, g: map<u64, nat>, system: System, m: Mem)
    requires |x.answers| == |x.headers|
    requires GotBytes(arch, x) > 0 ==> x.got.Some? && x.got.value > 0 && Mapped(m, x.got.value, GotBytes(arch, x))
    ensures AllFillable(arch, m, EntriesFor(arch, x, g, system)) <==> AllFound(arch, x, g, system)
  {
    hide HeaderSyms, WantFor, SlotFor, Slots;
    var syms, es := HeaderSyms(x.headers), EntriesFor(arch, x, g, system);
    forall p | 0 <= p < |syms|
      ensures Fillable(arch, m, es[p]) <==> (NeedSlot(syms[p]) ==> WantFor(arch, x, g, system, syms[p]) != 0)
    {
      if NeedSlot(syms[p]) {
        SlotPlaced(arch, x, m, p);
      }
    }
    hide Fillable, NeedSlot, EntryFor, EntriesFor;
    FoundIff(arch, x, g, system, m);
  }

  lemma FoundIff(arch: Arch, x: Input, g: map<u64, nat>, system: System, m: Mem)
    requires |x.answers| == |x.headers|
    requires var syms, es := HeaderSyms(x.headers), EntriesFor(arch, x, g, system);
      forall p :: 0 <= p < |syms| ==>
        (Fillable(arch, m, es[p]) <==> (NeedSlot(syms[p]) ==> WantFor(arch, x, g, system, syms[p]) != 0))
    ensures AllFillable(arch, m, EntriesFor(arch, x, g, system)) <==> AllFound(arch, x, g, system)
  {
    hide HeaderSyms, WantFor, Fillable, NeedSlot, EntriesFor;
    var syms, es := HeaderSyms(x.headers), EntriesFor(arch, x, g, system);
    if AllFillable(arch, m, es) {
      forall e | e in syms && NeedSlot(e) ensures WantFor(arch, x, g, system, e) != 0 {
        var p :| 0 <= p < |syms| && syms[p] == e;
        assert Fillable(arch, m, es[p]);
      }
    }
    if AllFound(arch, x, g, system) {
      forall p | 0 <= p < |es| ensures Fillable(arch, m, es[p]) {
        assert syms[p] in syms;
      }
    }
  }

  lemma SlotPlaced(arch: Arch, x: Input, m: Mem, p: nat)
    requires p < |HeaderSyms(x.headers)| && NeedSlot(HeaderSyms(x.headers)[p])
    requires GotBytes(arch, x) > 0 ==> x.got.Some? && x.got.value > 0 && Mapped(m, x.got.value, GotBytes(arch, x))
    ensures GotBytes(arch, x) > 0 && x.got.Some? && SlotFor(arch, x, p) != 0
    ensures Mapped(m, SlotFor(arch, x, p), WordSize(arch))
    ensures x.got.value <= SlotFor(arch, x, p)
    ensures SlotFor(arch, x, p) + WordSize(arch) <= x.got.value + GotBytes(arch, x)
  {
    var es := HeaderSyms(x.headers);
    SlotsGrow(es, p);
    hide HeaderSyms, Slots;
    LastSlot(0, WordSize(arch), Slots(es[..p]), Slots(es));
  }

  lemma SlotsGrow(es: seq<ElfSym>, p: nat)
    requires p < |es| && NeedSlot(es[p])
    ensures Slots(es[..p]) < Slots(es)
  {
    assert es == es[..p + 1] + es[p + 1..] && es[..p + 1][..p] == es[..p];
    SlotsAppend(es[..p + 1], es[p + 1..]);
  }

  // After filling, verification succeeds exactly if no address has more than 48 bits.
  lemma VerifiedIff(arch: Arch, x: Input, g: map<u64, nat>, system: System, m: Mem, ss: seq<ElfSymbol>, addrs: seq<nat>)
    requires |x.answers| == |x.headers| && SymbolsResolved(arch, x, g, system, ss)
    requires Complete(arch, m, ss, EntriesFor(arch, x, g, system), addrs)
    ensures AllVerified(arch, m, ss) <==> AllShort(arch, x, g, system)
  {
    hide HeaderSyms, AddressFor, WantFor, Read, WordSize;
    var syms := HeaderSyms(x.headers);
    forall p | 0 <= p < |ss|
      ensures Verified(arch, m, ss[p]) <==> AddressFor(arch, x, g, system, syms[p]) < 0x1_0000_0000_0000
    {
      assert ElfOf(ss)[p] == ss[p].elf;
      OneVerified(arch, x, g, system, m, ss, addrs, p);
    }
    ShortIff(arch, x, g, system, m, ss);
  }

  lemma OneVerified(arch: Arch, x: Input, g: map<u64, nat>, system: System, m: Mem, ss: seq<ElfSymbol>, addrs: seq<nat>,
                    p: nat)
    requires |x.answers| == |x.headers| && SymbolsResolved(arch, x, g, system, ss) && p < |ss|
    requires Complete(arch, m, ss, EntriesFor(arch, x, g, system), addrs)
    ensures Verified(arch, m, ss[p]) <==> ss[p].addr < 0x1_0000_0000_0000
  {
    hide HeaderSyms, AddressFor, WantFor, Read, WordSize;
    assert ElfOf(ss)[p] == ss[p].elf;
    var e := EntriesFor(arch, x, g, system)[p];
    assert Holds(arch, m, e) && e.needed == NeedSlot(ss[p].elf) && e.at == ss[p].gotAddr;
  }

  lemma ShortIff(arch: Arch, x: Input, g: map<u64, nat>, system: System, m: Mem, ss: seq<ElfSymbol>)
    requires |x.answers| == |x.headers| && ElfOf(ss) == HeaderSyms(x.headers)
    requires forall p :: 0 <= p < |ss| ==>
      (Verified(arch, m, ss[p]) <==> AddressFor(arch, x, g, system, HeaderSyms(x.headers)[p]) < 0x1_0000_0000_0000)
    ensures AllVerified(arch, m, ss) <==> AllShort(arch, x, g, system)
  {
    hide HeaderSyms, AddressFor, Verified;
    var syms := HeaderSyms(x.headers);
    if AllVerified(arch, m, ss) {
      forall e | e in syms ensures AddressFor(arch, x, g, system, e) < 0x1_0000_0000_0000 {
        var p :| 0 <= p < |syms| && syms[p] == e;
        assert ss[p] in ss;
      }
    }
    if AllShort(arch, x, g, system) {
      forall s | s in ss ensures Verified(arch, m, s) {
        var p :| 0 <= p < |ss| && ss[p] == s;
        assert syms[p] in syms;
      }
    }
  }

  ghost predicate RunsThrough(arch: Arch, secs: seq<SectionInfo>, st: State, jobs: seq<Job>)
  {
    Fits(secs, st, jobs) && Run(arch, secs, st, jobs).Ok?
  }

  // An object loaded into memory m can be resolved: its symbols are found, at addresses of at most 48 bits, and no
  // relocation fails over the filled GOT.
  ghost predicate Resolves(arch: Arch, x: Input, g: map<u64, nat>, system: System, m: Mem)
    requires |x.answers| == |x.headers| && TargetsIn(arch, x)
  {
    && AllFound(arch, x, g, system) && AllShort(arch, x, g, system)
    && RunsThrough(arch, InfosFor(arch, x), StartFor(x, FilledFor(arch, x, g, system, m)), JobsFor(arch, x, g, system))
  }

  lemma RunsOrStops(arch: Arch, secs: seq<SectionInfo>, st: State, jobs: seq<Job>)
    ensures Stops(arch, secs, st, jobs) ==> !RunsThrough(arch, secs, st, jobs)
    ensures forall r :: RunsTo(arch, secs, st, jobs, r) ==> RunsThrough(arch, secs, st, jobs)
  {
  }

  // A symbol with an address in its own object keeps it.
  lemma OwnKept(arch: Arch, x: Input, g: map<u64, nat>, system: System, e: ElfSym)
    requires |x.answers| == |x.headers| && OwnFor(arch, x, e) != 0
    ensures AddressFor(arch, x, g, system, e) == OwnFor(arch, x, e)
  {
    hide OwnFor;
  }

  lemma StaysKnown(arch: Arch, x: Input, g: map<u64, nat>, system: System, ss: seq<ElfSymbol>, s: ElfSymbol, was: nat)
    requires |x.answers| == |x.headers| && SymbolsResolved(arch, x, g, system, ss) && s in ss
    requires was == OwnFor(arch, x, s.elf) != 0
    ensures s.addr == was
  {
    hide OwnFor, AddressFor, SlotFor, HeaderSyms;
    var p :| 0 <= p < |ss| && ss[p] == s;
    OwnKept(arch, x, g, system, s.elf);
  }
}
