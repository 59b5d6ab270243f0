// Types.h's Section with the methods of elf/plt.c and the relocation of one place, as they change memory and stubs.
module Sections {
  import opened Memory
  import opened Results
  import opened Types
  import opened Words
  import opened Target
  import opened Plt
  import opened Pass

  const PAGE := 0x1000

  // n bytes in whole pages
  function PageUp(n: nat): nat { (n + PAGE - 1) / PAGE * PAGE }

  predicate InPages(a: nat, n: nat, x: int) { a <= x < a + PageUp(n) }

  // What the system promises about an address that mmap returns for n bytes: page-aligned, not null, not in use
  ghost predicate FreshPages(m: Mem, a: nat, n: nat)
  {
    a % PAGE == 0 && a > 0 && forall x :: a <= x < a + PageUp(n) ==> x !in m
  }

  // the memory of the process
  class Ram {
    var cells: Mem

    constructor (cells: Mem)
      ensures this.cells == cells
    {
      this.cells := cells;
    }

    // mmap of n anonymous bytes, where the system chose the address a
    method MapPages(a: nat, n: nat)
      requires FreshPages(cells, a, n)
      modifies this
      ensures forall x :: x in cells <==> x in old(cells) || a <= x < a + PageUp(n)
      ensures forall x :: x in old(cells) ==> cells[x] == old(cells)[x]
      ensures forall x :: x in cells && x !in old(cells) ==> cells[x] == 0
    {
      cells := cells + (map x: int | a <= x < a + PageUp(n) && InPages(a, n, x) :: 0);
    }
  }

  class Section {
    const info: SectionInfo
    // bytes set aside for stubs by load_sections
    const stubSize: nat
    var nstubs: nat
    var stubs: seq<Stub>

    ghost predicate Valid()
      reads this
    {
      nstubs == |stubs|
    }

    constructor (info: SectionInfo, stubSize: nat)
      ensures Valid() && this.info == info && this.stubSize == stubSize && stubs == []
    {
      this.info := info;
      this.stubSize := stubSize;
      nstubs := 0;
      stubs := [];
    }

    ghost function TableWith(mem: Ram): Table
      reads this, mem
    {
      Table(mem.cells, stubs)
    }

    // find_stub
    method Find(target: int) returns (at: Option<int>)
      ensures at == FindStub(stubs, target)
    {
      var k := 0;
      while k < |stubs|
        invariant k <= |stubs| && FindStub(stubs, target) == FindStub(stubs[k..], target)
      {
        if stubs[k].target == target {
          return Some(stubs[k].addr);
        }
        k := k + 1;
      }
      return None;
    }

    // make_stub: the code is written first, then the stub is chained behind the others.
    method Make(arch: Arch, mem: Ram, target: int) returns (at: Result<int>)
      requires Valid()
      modifies this, mem
      ensures at.Ok? <==> MakeStub(arch, info, old(TableWith(mem)), target).Ok?
      ensures at.Ok? ==> Valid() && TableWith(mem) == MakeStub(arch, info, old(TableWith(mem)), target).value
      ensures at.Ok? ==> at.value == StubAddress(arch, info, old(|stubs|))
    {
      var s := Stub(StubAddress(arch, info, nstubs), target);
      if !IsMapped(mem.cells, s.addr, StubSize(arch)) {
        return Abort;
      }
      if arch.AArch64? {
        WriteStub64(mem, s.addr, target);
      } else {
        WriteStub32(mem, s.addr, target);
      }
      stubs := stubs + [s];
      nstubs := nstubs + 1;
      return Ok(s.addr);
    }

    // compute_addend: all arms but the branch out of reach only compute.
    method Addend(arch: Arch, mem: Ram, rel: Job) returns (v: Result<int>)
      requires Valid()
      modifies this, mem
      ensures v.Ok? <==> ComputeAddend(arch, info, old(TableWith(mem)), rel).Ok?
      ensures v.Ok? ==> Valid()
      ensures v.Ok? ==> Resolved(TableWith(mem), v.value) == ComputeAddend(arch, info, old(TableWith(mem)), rel).value
    {
      var P := PlaceOf(arch, info, rel);
      var plan := PlanOf(arch, info, mem.cells, rel);
      match plan {
        case Abort => return Abort;
        case Ok(Direct(value)) => return Ok(value);
        case Ok(Via(target, adjust)) =>
          var found := Find(target);
          match found {
            case Some(at) =>
              return ViaStub(arch, P, at, adjust);
            case None =>
              var made := Make(arch, mem, target);
              if made.Abort? {
                return Abort;
              }
              return ViaStub(arch, P, made.value, adjust);
          }
      }
    }

    // One round of the relocation loops: addend, value, patched place
    method RelocateOne(arch: Arch, mem: Ram, rel: Job) returns (ok: bool)
      requires Valid()
      modifies this, mem
      ensures ok <==> Relocate(arch, info, old(TableWith(mem)), rel).Ok?
      ensures ok ==> Valid() && TableWith(mem) == Relocate(arch, info, old(TableWith(mem)), rel).value
    {
      var v := Addend(arch, mem, rel);
      if v.Abort? {
        return false;
      }
      ok := EncodeAddend(arch, mem, PlaceOf(arch, info, rel), rel.rtype, v.value);
    }
  }

  // encodeAddend: overwrite the place
  method EncodeAddend(arch: Arch, mem: Ram, P: nat, t: nat, v: int) returns (ok: bool)
    modifies mem
    ensures ok <==> Patch(arch, old(mem.cells), P, t, v).Ok?
    ensures ok ==> mem.cells == Patch(arch, old(mem.cells), P, t, v).value
  {
    var n := Width(arch, t);
    if !IsMapped(mem.cells, P, n) {
      return false;
    }
    var w := Encode(arch, t, PlaceContents(mem.cells, P, n), v);
    if w.Abort? {
      return false;
    }
    mem.cells := Write(mem.cells, P, n, w.value);
    return true;
  }

  lemma StoreTwo(m: Mem, a: int, x: seq<u8>, y: seq<u8>)
    requires Mapped(m, a, |x| + |y|)
    ensures Store(Store(m, a, x), a + |x|, y) == Store(m, a, x + y)
  {
  }

  lemma WordBytesSnoc(ws: seq<nat>, w: nat)
    ensures WordBytes(ws + [w]) == WordBytes(ws) + ToBytes(w, 4)
  {
    if ws == [] {
      assert [w][1..] == [];
    } else {
      WordBytesSnoc(ws[1..], w);
      assert (ws + [w])[1..] == ws[1..] + [w];
    }
  }

  // Storing one more word behind the words stored so far
  lemma StoreNext(m: Mem, a: int, ws: seq<nat>, k: nat)
    requires k < |ws| && Mapped(m, a, 4 * |ws|)
    ensures Write(Store(m, a, WordBytes(ws[..k])), a + 4 * k, 4, ws[k]) == Store(m, a, WordBytes(ws[..k + 1]))
  {
    assert ws[..k + 1] == ws[..k] + [ws[k]];
    WordBytesSnoc(ws[..k], ws[k]);
    StoreTwo(m, a, WordBytes(ws[..k]), ToBytes(ws[k], 4));
  }

  // Stores word k of a stub, when the words before it are stored.
  method StoreWord(mem: Ram, ghost m: Mem, at: int, P: seq<nat>, k: nat)
    requires k < |P| && Mapped(m, at, 4 * |P|) && mem.cells == Store(m, at, WordBytes(P[..k]))
    modifies mem
    ensures mem.cells == Store(m, at, WordBytes(P[..k + 1]))
  {
    StoreNext(m, at, P, k);
    hide WordBytes, ToBytes;
    IsMappedStored(m, at, P, k);
    mem.cells := Write(mem.cells, at + 4 * k, 4, P[k]);
  }

  lemma IsMappedStored(m: Mem, at: int, P: seq<nat>, k: nat)
    requires k < |P| && Mapped(m, at, 4 * |P|)
    ensures Mapped(Store(m, at, WordBytes(P[..k])), at + 4 * k, 4)
  {
  }

  // the five stores of make_stub_arm64
  method WriteStub64(mem: Ram, at: int, target: int)
    requires IsMapped(mem.cells, at, 20)
    modifies mem
    ensures mem.cells == Store(old(mem.cells), at, StubCode(AArch64, target))
  {
    hide WordBytes, PltArm64.Code;
    ghost var m := mem.cells;
    StoreNothing(m, at);
    var P := PltArm64.Code(U64(target));
    assert P[..0] == [] && P[..5] == P;
    hide Store;
    StoreWord(mem, m, at, P, 0);
    StoreWord(mem, m, at, P, 1);
    StoreWord(mem, m, at, P, 2);
    StoreWord(mem, m, at, P, 3);
    StoreWord(mem, m, at, P, 4);
  }

  // the three stores of make_stub_arm
  method WriteStub32(mem: Ram, at: int, target: int)
    requires IsMapped(mem.cells, at, 12)
    modifies mem
    ensures mem.cells == Store(old(mem.cells), at, StubCode(AArch32, target))
  {
    hide WordBytes, PltArm.Code;
    ghost var m := mem.cells;
    StoreNothing(m, at);
    var P := PltArm.Code(U32(target));
    assert P[..0] == [] && P[..3] == P;
    hide Store;
    StoreWord(mem, m, at, P, 0);
    StoreWord(mem, m, at, P, 1);
    StoreWord(mem, m, at, P, 2);
  }

  lemma StoreNothing(m: Mem, at: int)
    ensures WordBytes([]) == [] && Store(m, at, WordBytes([])) == m
  {
  }
}
