// elf/target.h: the suffix that selects the code of one architecture.
module Target {
  import opened Bits
  import opened Memory
  import opened Results
  import opened Types
  import opened Words
  import Arm
  import Arm64
  import PltArm
  import PltArm64

  datatype Arch = AArch64 | AArch32

  // addr_t
  function Addr(arch: Arch, x: int): nat
  {
    if arch.AArch64? then U64(x) else U32(x)
  }

  // stubs made for loaded sections end below this address
  function Limit(arch: Arch): nat
  {
    if arch.AArch64? then 0x1_0000_0000_0000 else 0x1_0000_0000
  }

  predicate NeedStub(arch: Arch, t: nat)
  {
    if arch.AArch64? then Arm64.IsBranch(t) else Arm.NeedStub(t)
  }

  // STUB_SIZE * n
  function StubBytes(arch: Arch, n: nat): nat
  {
    if arch.AArch64? then 20 * n else 12 * n
  }

  function StubSize(arch: Arch): nat { StubBytes(arch, 1) }

  function StubWords(arch: Arch, target: int): (ws: seq<nat>)
    ensures 4 * |ws| == StubSize(arch)
  {
    if arch.AArch64? then PltArm64.Code(U64(target)) else PltArm.Code(U32(target))
  }

  function WordBytes(ws: seq<nat>): (bs: seq<u8>)
    ensures |bs| == 4 * |ws|
  {
    if ws == [] then [] else ToBytes(ws[0], 4) + WordBytes(ws[1..])
  }

  function StubCode(arch: Arch, target: int): (bs: seq<u8>)
    ensures |bs| == StubSize(arch)
  {
    WordBytes(StubWords(arch, target))
  }

  function Width(arch: Arch, t: nat): nat
  {
    if arch.AArch64? then Arm64.Width(t) else 4
  }

  // The implicit addend at P; arm64 has none.
  function DecodeAddend(arch: Arch, t: nat, m: Mem, P: int): Result<int>
  {
    if arch.AArch32? && IsMapped(m, P, 4) then
      NumberOfBytes(Load(m, P, 4));
      LargePowers();
      Arm.Decode(t, Read(m, P, 4))
    else Abort
  }

  function Compute(arch: Arch, t: nat, sec: SectionInfo, P: int, S: int, GotS: int, A: int): Result<Plan>
  {
    if arch.AArch64? then Arm64.Compute(t, sec, U64(P), U64(S), U64(GotS), A)
    else Arm.Compute(t, U32(P), U32(S), U32(GotS), A)
  }

  function ViaStub(arch: Arch, P: int, at: int, adjust: int): Result<int>
  {
    if arch.AArch64? then Arm64.ViaStub(U64(P), U64(at), adjust) else Arm.ViaStub(U32(P), U32(at), adjust)
  }

  // The new contents of a place that held w
  function Encode(arch: Arch, t: nat, w: nat, V: int): Result<nat>
    requires w < Pow2(8 * Width(arch, t))
  {
    LargePowers();
    if arch.AArch64? then Arm64.Encode(t, w, V) else Arm.Encode(t, w, V)
  }

  lemma EncodeAgain(arch: Arch, t: nat, w: nat, V: int)
    requires w < Pow2(8 * Width(arch, t)) && Encode(arch, t, w, V).Ok?
    ensures Encode(arch, t, w, V).value < Pow2(8 * Width(arch, t))
    ensures Encode(arch, t, Encode(arch, t, w, V).value, V) == Encode(arch, t, w, V)
  {
    LargePowers();
    if arch.AArch64? {
      Arm64.EncodeAgain(t, w, V);
    } else {
      Arm.EncodeAgain(t, w, V);
    }
  }

  // ---- stub code read back as instructions ----

  lemma {:induction false} WordBytesAt(ws: seq<nat>, i: nat)
    requires i < |ws|
    ensures WordBytes(ws)[4 * i .. 4 * i + 4] == ToBytes(ws[i], 4)
  {
    hide ToBytes;
    var first, rest := ToBytes(ws[0], 4), WordBytes(ws[1..]);
    if i == 0 {
      assert (first + rest)[..4] == first;
    } else {
      WordBytesAt(ws[1..], i - 1);
      assert (first + rest)[4 * i .. 4 * i + 4] == rest[4 * (i - 1) .. 4 * (i - 1) + 4];
    }
  }

  lemma WordInMemory(m: Mem, at: int, ws: seq<nat>, i: nat)
    requires Mapped(m, at, 4 * |ws|) && Load(m, at, 4 * |ws|) == WordBytes(ws)
    requires i < |ws| && ws[i] < 0x1_0000_0000
    ensures Mapped(m, at + 4 * i, 4) && Read(m, at + 4 * i, 4) == ws[i]
  {
    WordBytesAt(ws, i);
    assert Load(m, at + 4 * i, 4) == Load(m, at, 4 * |ws|)[4 * i .. 4 * i + 4];
    LargePowers();
    BytesOfNumber(ws[i], 4);
  }

  lemma StubCodeBytes(target: int)
    ensures 0 <= target < 0x1_0000_0000_0000_0000 ==> StubCode(AArch64, target) == WordBytes(PltArm64.Code(target))
    ensures 0 <= target < 0x1_0000_0000 ==> StubCode(AArch32, target) == WordBytes(PltArm.Code(target))
  {
    hide WordBytes, PltArm64.Code, PltArm.Code;
  }

  lemma StubWords64(m: Mem, at: int, target: u64)
    requires Mapped(m, at, 20) && Load(m, at, 20) == StubCode(AArch64, target)
    ensures PltArm64.HasCode(m, at, target)
  {
    hide WordBytes, PltArm64.Code, Read, Load, StubCode, StubWords;
    PltArm64.CodeFits(target);
    StubCodeBytes(target);
    var ws := PltArm64.Code(target);
    forall i | 0 <= i < 5 ensures PltArm64.HasWord(m, at + 4 * i, ws[i]) {
      WordInMemory(m, at, ws, i);
    }
  }

  lemma StubWords32(m: Mem, at: int, target: u32)
    requires Mapped(m, at, 12) && Load(m, at, 12) == StubCode(AArch32, target)
    ensures PltArm.HasCode(m, at, target)
  {
    hide WordBytes, PltArm.Code, Read, Load, StubCode, StubWords;
    PltArm.CodeFits(target);
    StubCodeBytes(target);
    var ws := PltArm.Code(target);
    forall i | 0 <= i < 3 ensures PltArm.HasWord(m, at + 4 * i, ws[i]) {
      WordInMemory(m, at, ws, i);
    }
  }
}
