// elf/plt.c: the stub table of a section, and what every reachable table satisfies.
module Plt {
  import opened Memory
  import opened Results
  import opened Types
  import opened Target

  // find_stub: the first stub for the target
  function FindStub(stubs: seq<Stub>, target: int): Option<int>
  {
    if stubs == [] then None
    else if stubs[0].target == target then Some(stubs[0].addr)
    else FindStub(stubs[1..], target)
  }

  function StubAddress(arch: Arch, sec: SectionInfo, n: nat): nat
  {
    Addr(arch, sec.stubOffset + 8 + StubBytes(arch, n))
  }

  datatype Table = Table(mem: Mem, stubs: seq<Stub>)

  // make_stub: write the code into the next slot and append the stub
  function MakeStub(arch: Arch, sec: SectionInfo, t: Table, target: int): Result<Table>
  {
    var at := StubAddress(arch, sec, |t.stubs|);
    if IsMapped(t.mem, at, StubSize(arch))
    then Ok(Table(Store(t.mem, at, StubCode(arch, target)), t.stubs + [Stub(at, target)]))
    else Abort
  }

  // ---- regions ----

  // First address after a section and n stubs behind it
  function End(arch: Arch, sec: SectionInfo, n: nat): int
  {
    if n == 0 then sec.start + sec.size else sec.stubOffset + 8 + StubBytes(arch, n)
  }

  // A section with room for n stubs directly behind its bytes
  ghost predicate Region(arch: Arch, sec: SectionInfo, n: nat)
  {
    0 <= sec.start && (n > 0 ==> sec.stubOffset == sec.start + sec.size) && End(arch, sec, n) <= Limit(arch)
  }

  ghost predicate HoldsCode(arch: Arch, m: Mem, s: Stub)
  {
    Mapped(m, s.addr, StubSize(arch)) && Load(m, s.addr, StubSize(arch)) == StubCode(arch, s.target)
  }

  // The stub table invariant: slots in order, one stub per target, targets only from a given set, code intact.
  ghost predicate TableOk(arch: Arch, sec: SectionInfo, far: set<int>, t: Table)
  {
    && (forall k :: 0 <= k < |t.stubs| ==> t.stubs[k].addr == sec.stubOffset + 8 + StubBytes(arch, k))
    && (forall k :: 0 <= k < |t.stubs| ==> t.stubs[k].target in far)
    && (forall k, l :: 0 <= k < l < |t.stubs| ==> t.stubs[k].target != t.stubs[l].target)
    && (forall k :: 0 <= k < |t.stubs| ==> HoldsCode(arch, t.mem, t.stubs[k]))
  }

  function Targets(stubs: seq<Stub>): set<int>
  {
    set s | s in stubs :: s.target
  }

  // ---- lookup ----

  lemma {:induction false} FoundIffTarget(stubs: seq<Stub>, target: int)
    ensures FindStub(stubs, target).Some? <==> target in Targets(stubs)
    ensures FindStub(stubs, target).Some? ==> Stub(FindStub(stubs, target).value, target) in stubs
  {
    if stubs != [] {
      FoundIffTarget(stubs[1..], target);
      assert stubs == [stubs[0]] + stubs[1..];
      if target in Targets(stubs) {
        var s :| s in stubs && s.target == target;
        assert s == stubs[0] || s in stubs[1..];
      }
      if FindStub(stubs, target).Some? && stubs[0].target == target {
        assert stubs[0] in stubs;
      }
    }
  }

  // Appending never changes an answer.
  lemma {:induction false} FindInLonger(stubs: seq<Stub>, more: seq<Stub>, target: int)
    requires FindStub(stubs, target).Some?
    ensures FindStub(stubs + more, target) == FindStub(stubs, target)
  {
    if stubs[0].target != target {
      FindInLonger(stubs[1..], more, target);
      assert (stubs + more)[1..] == stubs[1..] + more;
    }
  }

  lemma {:induction false} FindAppended(stubs: seq<Stub>, s: Stub)
    requires FindStub(stubs, s.target).None?
    ensures FindStub(stubs + [s], s.target) == Some(s.addr)
  {
    if stubs != [] {
      FindAppended(stubs[1..], s);
      assert (stubs + [s])[1..] == stubs[1..] + [s];
    }
  }

  // ---- how many ----

  lemma SubsetSize(a: set<int>, b: set<int>)
    requires a <= b
    ensures |a| <= |b|
  {
    assert a + (b - a) == b;
  }

  lemma {:induction false} DistinctTargets(stubs: seq<Stub>)
    requires forall k, l :: 0 <= k < l < |stubs| ==> stubs[k].target != stubs[l].target
    ensures |Targets(stubs)| == |stubs|
  {
    if stubs != [] {
      var n := |stubs| - 1;
      DistinctTargets(stubs[..n]);
      assert stubs == stubs[..n] + [stubs[n]];
      assert Targets(stubs) == Targets(stubs[..n]) + {stubs[n].target};
    }
  }

  // One stub per target: the table is never longer than the set of targets asked for,
  // and there is room for a target that has no stub yet.
  lemma TableFits(arch: Arch, sec: SectionInfo, far: set<int>, t: Table)
    requires TableOk(arch, sec, far, t)
    ensures |t.stubs| == |Targets(t.stubs)| <= |far|
    ensures forall x :: x in far && FindStub(t.stubs, x).None? ==> |t.stubs| < |far|
  {
    DistinctTargets(t.stubs);
    SubsetSize(Targets(t.stubs), far);
    forall x | x in far && FindStub(t.stubs, x).None? ensures |t.stubs| < |far| {
      FoundIffTarget(t.stubs, x);
      SubsetSize(Targets(t.stubs), far - {x});
    }
  }

  // ---- the invariant is kept ----

  // Memory may change as long as the stub space does not.
  lemma TableKept(arch: Arch, sec: SectionInfo, far: set<int>, t: Table, m: Mem)
    requires TableOk(arch, sec, far, t)
    requires forall k :: 0 <= k < |t.stubs| ==> SameOn(t.mem, m, t.stubs[k].addr, StubSize(arch))
    ensures TableOk(arch, sec, far, Table(m, t.stubs))
  {
    forall k | 0 <= k < |t.stubs| ensures HoldsCode(arch, m, t.stubs[k]) {
      LoadSame(t.mem, m, t.stubs[k].addr, StubSize(arch));
    }
  }

  lemma Append(arch: Arch, sec: SectionInfo, far: set<int>, t: Table, s: Stub)
    requires TableOk(arch, sec, far, t) && s.target in far && FindStub(t.stubs, s.target).None?
    requires s.addr == sec.stubOffset + 8 + StubBytes(arch, |t.stubs|) && HoldsCode(arch, t.mem, s)
    ensures TableOk(arch, sec, far, Table(t.mem, t.stubs + [s]))
  {
    hide HoldsCode, StubBytes;
    FoundIffTarget(t.stubs, s.target);
    forall k | 0 <= k < |t.stubs| ensures t.stubs[k].target != s.target {
      assert t.stubs[k] in t.stubs;
    }
  }

  // Slot k of a region with room for n stubs
  lemma SlotInRegion(arch: Arch, sec: SectionInfo, n: nat, k: nat)
    requires Region(arch, sec, n) && k < n
    ensures StubAddress(arch, sec, k) == sec.stubOffset + 8 + StubBytes(arch, k)
    ensures StubAddress(arch, sec, k) + StubSize(arch) <= End(arch, sec, n)
    ensures sec.stubOffset == sec.start + sec.size
  {
  }

  // A new stub goes behind all others and leaves them alone: the invariant holds in every reachable table.
  lemma MakeStubKeeps(arch: Arch, sec: SectionInfo, far: set<int>, t: Table, target: int)
    requires TableOk(arch, sec, far, t) && target in far && FindStub(t.stubs, target).None?
    requires Region(arch, sec, |far|) && MakeStub(arch, sec, t, target).Ok?
    ensures TableOk(arch, sec, far, MakeStub(arch, sec, t, target).value)
  {
    TableFits(arch, sec, far, t);
    SlotInRegion(arch, sec, |far|, |t.stubs|);
    hide StubCode, FindStub, Region, End, StubAddress;
    var at, code := StubAddress(arch, sec, |t.stubs|), StubCode(arch, target);
    var m := Store(t.mem, at, code);
    forall k | 0 <= k < |t.stubs| ensures SameOn(t.mem, m, t.stubs[k].addr, StubSize(arch)) {
      StoreElsewhere(t.mem, at, code, t.stubs[k].addr, StubSize(arch));
    }
    TableKept(arch, sec, far, t, m);
    LoadStored(t.mem, at, code);
    Append(arch, sec, far, Table(m, t.stubs), Stub(at, target));
  }

  lemma SlotBehind(arch: Arch, sec: SectionInfo, n: nat, s: Stub, k: nat)
    requires Region(arch, sec, n) && k < n && s.addr == sec.stubOffset + 8 + StubBytes(arch, k)
    ensures sec.start + sec.size + 8 <= s.addr && s.addr + StubSize(arch) <= End(arch, sec, n)
  {
  }

  // All stubs lie behind the section bytes, inside the region.
  lemma SlotsBehind(arch: Arch, sec: SectionInfo, far: set<int>, t: Table)
    requires TableOk(arch, sec, far, t) && Region(arch, sec, |far|)
    ensures forall s :: s in t.stubs ==>
      sec.start + sec.size + 8 <= s.addr && s.addr + StubSize(arch) <= End(arch, sec, |far|)
  {
    TableFits(arch, sec, far, t);
    hide Region, End, StubBytes, StubSize, HoldsCode;
    forall s | s in t.stubs
      ensures sec.start + sec.size + 8 <= s.addr && s.addr + StubSize(arch) <= End(arch, sec, |far|)
    {
      var k :| 0 <= k < |t.stubs| && t.stubs[k] == s;
      SlotBehind(arch, sec, |far|, s, k);
    }
  }

  // The stub that is found is one of the table, with its code.
  lemma FoundStub(arch: Arch, sec: SectionInfo, far: set<int>, t: Table, target: int) returns (k: nat)
    requires TableOk(arch, sec, far, t) && FindStub(t.stubs, target).Some?
    ensures k < |t.stubs| && t.stubs[k] == Stub(sec.stubOffset + 8 + StubBytes(arch, k), target)
    ensures FindStub(t.stubs, target) == Some(t.stubs[k].addr) && HoldsCode(arch, t.mem, t.stubs[k])
  {
    hide FindStub, HoldsCode, Targets, StubBytes;
    FoundIffTarget(t.stubs, target);
    var s := Stub(FindStub(t.stubs, target).value, target);
    k :| 0 <= k < |t.stubs| && t.stubs[k] == s;
  }
}
