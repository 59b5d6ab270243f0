// The second run over arm tables with implicit addends. The first run leaves its results where the second one looks for
// addends, so only particular relocations survive it; which ones is said here exactly.
module RepeatArm {
  import opened Bits
  import opened Memory
  import opened Results
  import opened Types
  import opened Words
  import opened Target
  import opened Plt
  import opened Pass
  import opened Runs
  import opened Budget
  import opened Repeat
  import Again
  import Isa32
  import Calls32
  import DataWords

  // ---- writing back ----

  lemma SameWord(m: Mem, P: nat, v: nat)
    requires Mapped(m, P, 4) && v < 0x1_0000_0000
    ensures Write(m, P, 4, v) == m <==> Read(m, P, 4) == v
  {
    LargePowers();
    hide Read, Write, Pow2;
    ReadWritten(m, P, 4, v);
    WriteRead(m, P, 4);
  }

  // ---- data words ----

  // S + A, S + A - P or G + A - P
  function DataValue(j: Job, P: u32, A: int): int
    requires j.symbol.Some?
  {
    if j.rtype == Arm.ABS32 then j.symbol.value.addr + A
    else if j.rtype == Arm.GOT_PREL then j.symbol.value.gotAddr + A - P
    else j.symbol.value.addr + A - P
  }

  // What the word is moved by each time it is relocated
  function Shift(j: Job, P: u32): int
    requires j.symbol.Some?
  {
    DataValue(j, P, 0)
  }

  lemma DataPlan(sec: SectionInfo, m: Mem, j: Job)
    requires DataWords.DataSite32(j) && Mapped(m, PlaceOf(AArch32, sec, j), 4) && PlanOf(AArch32, sec, m, j).Ok?
    ensures PlaceOf(AArch32, sec, j) < 0x1_0000_0000
    ensures PlanOf(AArch32, sec, m, j)
      == Ok(Direct(S32(DataValue(j, PlaceOf(AArch32, sec, j), DataWords.Addend32(sec, m, j)))))
  {
    DataWords.Plan32(sec, m, j);
    hide PlanOf, PlaceOf, Arm.Compute, S32, U32, Read, DataWords.Addend32;
    DataWords.Value32(j.rtype, PlaceOf(AArch32, sec, j), j.symbol.value.addr, j.symbol.value.gotAddr,
                      DataWords.Addend32(sec, m, j));
  }

  // Whether the plan of a data word is made does not depend on the addend.
  lemma DataPlanAgain(sec: SectionInfo, was: Mem, m: Mem, j: Job)
    requires DataWords.DataSite32(j) && Mapped(was, PlaceOf(AArch32, sec, j), 4)
    requires Mapped(m, PlaceOf(AArch32, sec, j), 4)
    requires PlanOf(AArch32, sec, was, j).Ok?
    ensures PlanOf(AArch32, sec, m, j).Ok?
  {
    DataWords.Plan32(sec, was, j);
    DataWords.Plan32(sec, m, j);
    hide PlanOf, PlaceOf, S32, U32, Read, DataWords.Addend32, IsInt32;
  }

  lemma ShiftAgain(x: int, d: int)
    ensures U32(d + S32(U32(x))) == U32(x) <==> U32(d) == 0
  {
    var q := S32Congruent(U32(x));
    var k := U32Congruent(x);
    var p := U32Congruent(d);
    hide S32;
    U32Shift(d + S32(U32(x)), q + k - p);
    assert d + S32(U32(x)) + (q + k - p) * 0x1_0000_0000 == x + U32(d);
    Between(x, U32(d));
  }

  lemma Between(x: int, d: u32)
    ensures U32(x + d) == U32(x) <==> d == 0
  {
  }

  // A relocated data word is left alone by a second relocation exactly if relocating moves it by nothing.
  lemma DataIdleIff(sec: SectionInfo, was: Mem, t: Table, j: Job)
    requires DataWords.DataSite32(j) && j.implicit && Placed(AArch32, sec, was, t, j)
    ensures PlaceOf(AArch32, sec, j) < 0x1_0000_0000
    ensures Relocate(AArch32, sec, t, j) == Ok(t) <==> U32(Shift(j, PlaceOf(AArch32, sec, j))) == 0
  {
    hide PlanOf, PlaceOf, Encode, Read, Pow2, Write, S32, U32, DataWords.Addend32, DataValue;
    var P := PlaceOf(AArch32, sec, j);
    DataPlan(sec, was, j);
    DataPlanAgain(sec, was, t.mem, j);
    DataPlan(sec, t.mem, j);
    var x := DataValue(j, P, DataWords.Addend32(sec, was, j));
    var y := DataValue(j, P, DataWords.Addend32(sec, t.mem, j));
    var w := Read(t.mem, P, 4);
    DataWords.Encoding32(j.rtype, PlaceContents(was, P, 4), x, w);
    DataEncodes(j, PlaceContents(t.mem, P, 4), y);
    DataRelocated(sec, t, j, y);
    SameWord(t.mem, P, U32(y));
    AddendIsWord(sec, t.mem, j);
    ValueShifts(j, P, S32(w));
    ShiftAgain(x, Shift(j, P));
  }

  lemma ValueShifts(j: Job, P: u32, A: int)
    requires j.symbol.Some?
    ensures DataValue(j, P, A) == Shift(j, P) + A
  {
  }

  lemma AddendIsWord(sec: SectionInfo, m: Mem, j: Job)
    requires j.implicit && Mapped(m, PlaceOf(AArch32, sec, j), 4)
    ensures DataWords.Addend32(sec, m, j) == S32(Read(m, PlaceOf(AArch32, sec, j), 4))
  {
    hide Read, S32, PlaceOf;
  }

  lemma DataEncodes(j: Job, w: nat, x: int)
    requires DataWords.DataSite32(j) && w < Pow2(8 * Width(AArch32, j.rtype))
    ensures Encode(AArch32, j.rtype, w, S32(x)) == Ok(U32(x))
  {
    hide Pow2;
    assert U32(S32(x)) == U32(x);
  }

  lemma DataRelocated(sec: SectionInfo, t: Table, j: Job, y: int)
    requires Mapped(t.mem, PlaceOf(AArch32, sec, j), 4)
    requires PlanOf(AArch32, sec, t.mem, j) == Ok(Direct(S32(y)))
    requires Encode(AArch32, j.rtype, PlaceContents(t.mem, PlaceOf(AArch32, sec, j), 4), S32(y)) == Ok(U32(y))
    ensures Relocate(AArch32, sec, t, j) == Ok(Table(Write(t.mem, PlaceOf(AArch32, sec, j), 4, U32(y)), t.stubs))
  {
    hide PlanOf, PlaceOf, Encode, Write, Pow2, S32, U32, Read;
  }

  // ---- branches ----

  // The value that a relocation of a branch with addend A gets from a table of stubs: none if there is no stub yet, or
  // none in reach
  function CallResult(stubs: seq<Stub>, P: u32, S: u32, A: int): Option<int>
  {
    var V := S32(U32(S + A) - P);
    if IsInt32(26, V) then Some(V)
    else match FindStub(stubs, U32(U32(S + A) + 8))
      case None => None
      case Some(at) =>
        var W := S32(U32(at) - 8 - P);
        if IsInt32(26, W) then Some(W) else None
  }

  lemma CallPlan(t: nat, P: u32, S: u32, G: u32, A: int)
    requires Arm.IsCall(t) && P != 0 && S != 0
    ensures var V := S32(U32(S + A) - P);
      Arm.Compute(t, P, S, G, A) == Ok(if IsInt32(26, V) then Direct(V) else Via(U32(U32(S + A) + 8), -8))
  {
    hide S32, U32, IsInt32;
  }

  lemma ViaStubIs(P: u32, at: int)
    ensures ViaStub(AArch32, P, at, -8)
      == if IsInt32(26, S32(U32(at) - 8 - P)) then Ok(S32(U32(at) - 8 - P)) else Abort
  {
    assert U32(P) == P;
    hide S32, IsInt32, U32;
  }

  // Relocating with a given plan
  lemma CallRelocated(sec: SectionInfo, t: Table, j: Job, P: u32, S: u32, G: u32, A: int)
    requires Arm.IsCall(j.rtype) && P != 0 && S != 0 && P == PlaceOf(AArch32, sec, j) && Mapped(t.mem, P, 4)
    requires PlanOf(AArch32, sec, t.mem, j) == Arm.Compute(j.rtype, P, S, G, A)
    ensures var v, r := CallResult(t.stubs, P, S, A), Relocate(AArch32, sec, t, j);
      && (v.Some? ==> r == Patched(t, P, j.rtype, v.value))
      && (v.None? && r.Ok? ==> |r.value.stubs| > |t.stubs|)
  {
    hide PlanOf, PlaceOf, S32, U32, IsInt32, Arm.Compute, Patch, FindStub, StubAddress, StubCode, ViaStub, Mapped;
    CallPlan(j.rtype, P, S, G, A);
    var target := U32(U32(S + A) + 8);
    if FindStub(t.stubs, target).Some? {
      ViaStubIs(P, FindStub(t.stubs, target).value);
    }
  }

  function Patched(t: Table, P: int, rtype: nat, v: int): Result<Table>
  {
    var m :- Patch(AArch32, t.mem, P, rtype, v);
    Ok(Table(m, t.stubs))
  }

  lemma PatchedIs(t: Table, P: nat, rtype: nat, q: u32, v: int)
    requires Arm.IsCall(rtype) && IsInt32(26, v) && Mapped(t.mem, P, 4) && Read(t.mem, P, 4) == q
    requires Arm.PatchBranch(q, v) < 0x1_0000_0000
    ensures Patched(t, P, rtype, v) == Ok(Table(Write(t.mem, P, 4, Arm.PatchBranch(q, v)), t.stubs))
  {
    hide Arm.PatchBranch, IsInt32, Read, Write, Pow2;
    CallEncodes(rtype, q, v);
  }

  // what an instruction holds of an offset
  function Held(V: int): int { V - V % 4 }

  lemma SamePatch(w: u32, V: int, v: int)
    requires V / 4 == v / 4
    ensures Arm.PatchBranch(w, V) == Arm.PatchBranch(w, v)
  {
    Arm.PatchedBranch(w, V);
    Arm.PatchedBranch(w, v);
    hide Arm.PatchBranch;
  }

  lemma HeldIs(V: int, v: int)
    ensures Held(v) == Held(V) <==> V / 4 == v / 4
  {
  }

  // Patching a branch that holds V with v changes nothing exactly if it holds the same of both.
  lemma PatchedSame(t: Table, P: nat, rtype: nat, w: u32, V: int, v: int)
    requires Arm.IsCall(rtype) && Arm.Decode(rtype, w).Ok? && IsInt32(26, V) && IsInt32(26, v)
    requires Mapped(t.mem, P, 4) && Read(t.mem, P, 4) == Arm.PatchBranch(w, V)
    ensures Patched(t, P, rtype, v) == Ok(t) <==> Held(v) == Held(V)
  {
    hide Arm.PatchBranch, Arm.Decode, IsInt32, Read, Write, Pow2, Patched;
    var q := Arm.PatchBranch(w, V);
    Arm.DecodeEncoded(rtype, w, V);
    Arm.DecodeEncoded(rtype, q, v);
    PatchedIs(t, P, rtype, q, v);
    SameWord(t.mem, P, Arm.PatchBranch(q, v));
    PatchAgain(rtype, w, V);
    HeldIs(V, v);
    if V / 4 == v / 4 {
      SamePatch(q, V, v);
    }
  }

  lemma PatchAgain(rtype: nat, w: u32, V: int)
    requires Arm.IsCall(rtype) && IsInt32(26, V)
    ensures Arm.PatchBranch(w, V) < 0x1_0000_0000 && Arm.PatchBranch(Arm.PatchBranch(w, V), V) == Arm.PatchBranch(w, V)
  {
    hide Arm.PatchBranch, IsInt32;
    CallEncodes(rtype, w, V);
    Arm.EncodeAgain(rtype, w, V);
    CallEncodes(rtype, Arm.PatchBranch(w, V), V);
  }

  lemma CallEncodes(rtype: nat, w: u32, v: int)
    requires Arm.IsCall(rtype) && IsInt32(26, v)
    ensures Arm.Encode(rtype, w, v) == Ok(Arm.PatchBranch(w, v))
  {
    hide Arm.PatchBranch, IsInt32;
  }

  // ---- which branches settle ----

  // Stubs take 12 bytes each, below the end of memory.
  ghost predicate StubsApart(stubs: seq<Stub>)
  {
    && (forall s :: s in stubs ==> 0 <= s.addr && s.addr + 12 <= 0x1_0000_0000)
    && forall s, q :: s in stubs && q in stubs && s != q ==> Disjoint(s.addr, 12, q.addr, 12)
  }

  // A branch with addend A that needed no stub: it branches to its own place, or less than a word behind it; or what
  // the second run takes for its destination is out of reach, and has a stub less than a word behind the real
  // destination.
  predicate NearSettled(stubs: seq<Stub>, P: u32, S: u32, A: int)
  {
    var D := Held(S32(U32(S + A) - P));
    var at := FindStub(stubs, U32(U32(S + D) + 8));
    U32(S - P) < 4 || (!IsInt32(26, S32(U32(S + D) - P)) && at.Some? && U32(U32(at.value) - 8 - P - D) < 4)
  }

  // A branch that needed a stub: its addend happened to be the distance to that stub.
  predicate FarSettled(stubs: seq<Stub>, P: u32, S: u32, A: int)
  {
    var at := FindStub(stubs, U32(U32(S + A) + 8));
    at.Some? && A == Held(S32(U32(at.value) - 8 - P))
  }

  predicate CallSettled(stubs: seq<Stub>, P: u32, S: u32, A: int)
  {
    if IsInt32(26, S32(U32(S + A) - P)) then NearSettled(stubs, P, S, A) else FarSettled(stubs, P, S, A)
  }

  // the second run leaves a branch alone that holds D
  predicate Holds(v: Option<int>, D: int)
  {
    v.Some? && Held(v.value) == D
  }

  lemma HeldRange(V: int)
    requires IsInt32(26, V)
    ensures -0x200_0000 <= Held(V) <= 0x1ff_fffc && Held(V) % 4 == 0
  {
    Ranges(V);
    hide IsInt32;
  }

  // An offset is in range and held as D exactly if it is less than a word above D.
  lemma HeldIff(x: int, D: int)
    requires -0x200_0000 <= D <= 0x1ff_fffc && D % 4 == 0
    ensures IsInt32(26, S32(x)) && Held(S32(x)) == D <==> U32(x - D) < 4
  {
    Ranges(S32(x));
    var q := S32Congruent(x);
    hide IsInt32;
    var d := S32(x) - D;
    assert x - D == d + q * 0x1_0000_0000;
    U32Shift(d, q);
    SmallWord(d);
    InWord(S32(x), D);
  }

  lemma InWord(W: int, D: int)
    requires D % 4 == 0
    ensures Held(W) == D <==> 0 <= W - D < 4
  {
  }

  lemma SmallWord(d: int)
    requires -0x9000_0000 <= d < 0x9000_0000
    ensures U32(d) < 4 <==> 0 <= d < 4
  {
  }

  lemma WordRange(x: int)
    ensures -0x8000_0000 <= S32(x) < 0x8000_0000
    ensures 0 <= x < 0x1_0000_0000 ==> U32(x) == x
  {
  }

  // what is found for a target, with its address as a word
  lemma FoundWord(stubs: seq<Stub>, target: int)
    requires StubsApart(stubs) && FindStub(stubs, target).Some?
    ensures var at := FindStub(stubs, target).value;
      0 <= at && at + 12 <= 0x1_0000_0000 && U32(at) == at && Stub(at, target) in stubs
  {
    hide FindStub, Targets, U32;
    FoundIffTarget(stubs, target);
    var at := FindStub(stubs, target).value;
    assert Stub(at, target).addr == at;
    WordRange(at);
  }

  // S + D seen from P is S seen from P, and D.
  lemma FromPlace(P: u32, S: u32, D: int)
    ensures U32(U32(S + D) - P - D) == U32(S - P)
  {
    var q := U32Congruent(S + D);
    hide U32;
    U32Shift(S - P, -q);
    assert U32(S + D) - P - D == S - P + -q * 0x1_0000_0000;
  }

  // What the second run finds for a branch that holds D
  lemma SecondHolds(stubs: seq<Stub>, P: u32, S: u32, D: int)
    requires -0x200_0000 <= D <= 0x1ff_fffc && D % 4 == 0
    ensures Holds(CallResult(stubs, P, S, D), D)
      <==> var at := FindStub(stubs, U32(U32(S + D) + 8));
        U32(S - P) < 4 || (!IsInt32(26, S32(U32(S + D) - P)) && at.Some? && U32(U32(at.value) - 8 - P - D) < 4)
  {
    hide FindStub, S32, U32, IsInt32, Held;
    FromPlace(P, S, D);
    HeldIff(U32(S + D) - P, D);
    var at := FindStub(stubs, U32(U32(S + D) + 8));
    if at.Some? {
      HeldIff(U32(at.value) - 8 - P, D);
    }
  }

  lemma NearSettles(stubs: seq<Stub>, P: u32, S: u32, A: int)
    requires IsInt32(26, S32(U32(S + A) - P))
    ensures var D := Held(S32(U32(S + A) - P)); Holds(CallResult(stubs, P, S, D), D) <==> NearSettled(stubs, P, S, A)
  {
    hide FindStub, S32, U32, IsInt32, Held, CallResult, Holds;
    HeldRange(S32(U32(S + A) - P));
    SecondHolds(stubs, P, S, Held(S32(U32(S + A) - P)));
  }

  // A branch to its own place needs no stub.
  lemma NotOwnPlace(P: u32, S: u32, A: int)
    requires -0x200_0000 <= A <= 0x1ff_fffc && A % 4 == 0 && !IsInt32(26, S32(U32(S + A) - P))
    ensures U32(S - P) >= 4
  {
    hide S32, U32, IsInt32, Held;
    FromPlace(P, S, A);
    HeldIff(U32(S + A) - P, A);
  }

  lemma ResultRange(stubs: seq<Stub>, P: u32, S: u32, A: int, V: int)
    requires CallResult(stubs, P, S, A) == Some(V)
    ensures IsInt32(26, V)
  {
    hide FindStub, S32, U32;
  }

  lemma SameTarget(S: u32, A: int, D: int)
    requires -0x200_0000 <= A < 0x200_0000 && -0x200_0000 <= D < 0x200_0000
    requires U32(U32(S + A) + 8) == U32(U32(S + D) + 8)
    ensures A == D
  {
  }

  // Stubs less than a word apart are one.
  lemma SameStub(stubs: seq<Stub>, P: u32, at: u32, target: int, to: u32, target': int, D: int)
    requires StubsApart(stubs) && Stub(at, target) in stubs && Stub(to, target') in stubs
    requires U32(at - 8 - P - D) < 4 && U32(to - 8 - P - D) < 4
    ensures target == target'
  {
    var s, q := Stub(at, target), Stub(to, target');
    assert s in stubs && q in stubs;
    CloseWords(at, to, -8 - P - D);
  }

  lemma CloseWords(a: u32, b: u32, x: int)
    requires a + 12 <= 0x1_0000_0000 && b + 12 <= 0x1_0000_0000 && U32(a + x) < 4 && U32(b + x) < 4
    ensures -4 < a - b < 4
  {
    var p := U32Congruent(a + x);
    var q := U32Congruent(b + x);
    hide U32;
    assert a - b == (p - q) * 0x1_0000_0000 + U32(a + x) - U32(b + x);
  }

  lemma FarSettles(stubs: seq<Stub>, P: u32, S: u32, A: int, V: int)
    requires StubsApart(stubs) && !IsInt32(26, S32(U32(S + A) - P)) && -0x200_0000 <= A <= 0x1ff_fffc && A % 4 == 0
    requires CallResult(stubs, P, S, A) == Some(V)
    ensures Holds(CallResult(stubs, P, S, Held(V)), Held(V)) <==> FarSettled(stubs, P, S, A)
  {
    hide FindStub, S32, U32, IsInt32, StubsApart, Held, Holds;
    NotOwnPlace(P, S, A);
    ResultRange(stubs, P, S, A, V);
    var D := Held(V);
    HeldRange(V);
    SecondHolds(stubs, P, S, D);
    var target, target' := U32(U32(S + A) + 8), U32(U32(S + D) + 8);
    FoundWord(stubs, target);
    var at := FindStub(stubs, target).value;
    HeldIff(at - 8 - P, D);
    hide CallResult;
    if U32(U32(S + D) + 8) == target {
      SameTarget(S, A, D);
    }
    if Holds(CallResult(stubs, P, S, D), D) {
      FoundWord(stubs, target');
      SameStub(stubs, P, at, target, FindStub(stubs, target').value, target', D);
    }
  }

  lemma SlotAddresses(sec: SectionInfo, n: nat, k: nat, l: nat)
    requires Region(AArch32, sec, n) && k < n && l < n
    ensures var a, b := sec.stubOffset + 8 + StubBytes(AArch32, k), sec.stubOffset + 8 + StubBytes(AArch32, l);
      0 <= a && a + 12 <= 0x1_0000_0000 && (k != l ==> Disjoint(a, 12, b, 12))
  {
  }

  lemma SlotOf(sec: SectionInfo, far: set<int>, t: Table, s: Stub) returns (k: nat)
    requires TableOk(AArch32, sec, far, t) && s in t.stubs
    ensures k < |t.stubs| && t.stubs[k] == s && s.addr == sec.stubOffset + 8 + StubBytes(AArch32, k)
  {
    hide HoldsCode, StubBytes;
    k :| 0 <= k < |t.stubs| && t.stubs[k] == s;
  }

  lemma StubsDiffer(sec: SectionInfo, far: set<int>, t: Table, s: Stub, q: Stub)
    requires TableOk(AArch32, sec, far, t) && Region(AArch32, sec, |far|)
    requires s in t.stubs && q in t.stubs
    ensures 0 <= s.addr && s.addr + 12 <= 0x1_0000_0000 && (s != q ==> Disjoint(s.addr, 12, q.addr, 12))
  {
    hide TableOk, Region, StubBytes;
    TableFits(AArch32, sec, far, t);
    var k := SlotOf(sec, far, t, s);
    var l := SlotOf(sec, far, t, q);
    SlotAddresses(sec, |far|, k, l);
  }

  lemma TableAddresses(sec: SectionInfo, far: set<int>, t: Table)
    requires TableOk(AArch32, sec, far, t) && Region(AArch32, sec, |far|)
    ensures StubsApart(t.stubs)
  {
    hide TableOk, Region;
    forall s, q | s in t.stubs && q in t.stubs
      ensures 0 <= s.addr && s.addr + 12 <= 0x1_0000_0000 && (s != q ==> Disjoint(s.addr, 12, q.addr, 12))
    {
      StubsDiffer(sec, far, t, s, q);
    }
  }

  // ---- relocated branches ----

  // a branch relocation with implicit addend, whatever the word at its place
  predicate IsImplicitCall(j: Job)
  {
    Arm.IsCall(j.rtype) && j.implicit && j.symbol.Some? && j.symbol.value.addr < 0x1_0000_0000
  }

  lemma ImplicitPlan(sec: SectionInfo, m: Mem, j: Job)
    requires IsImplicitCall(j) && Mapped(m, PlaceOf(AArch32, sec, j), 4)
    ensures PlaceOf(AArch32, sec, j) < 0x1_0000_0000
    ensures var d := Arm.Decode(j.rtype, Calls32.WordAt(sec, m, j));
      PlanOf(AArch32, sec, m, j)
      == if d.Ok? then Arm.Compute(j.rtype, PlaceOf(AArch32, sec, j), Calls32.SymbolOf(j), U32(j.symbol.value.gotAddr),
                                   d.value)
         else Abort
  {
    var P := PlaceOf(AArch32, sec, j);
    assert P < 0x1_0000_0000 && U32(P) == P;
    WordRange(Calls32.SymbolOf(j));
    hide Arm.Compute, Arm.Decode, Read, PlaceOf, U32;
  }

  lemma DecodedAddend(sec: SectionInfo, m: Mem, j: Job)
    requires IsImplicitCall(j) && Arm.Decode(j.rtype, Calls32.WordAt(sec, m, j)).Ok?
    ensures Arm.Decode(j.rtype, Calls32.WordAt(sec, m, j)) == Ok(Calls32.AddendOf(sec, m, j))
    ensures -0x200_0000 <= Calls32.AddendOf(sec, m, j) <= 0x1ff_fffc && Calls32.AddendOf(sec, m, j) % 4 == 0
  {
    hide Arm.Decode, Calls32.WordAt, Arm.Decodes, Isa32.Signed24, Isa32.Imm24, Arm.IsCall;
    var w := Calls32.WordAt(sec, m, j);
    Arm.DecodedBranch(j.rtype, w);
    OffsetRange(w);
  }

  lemma OffsetRange(w: u32)
    ensures -0x200_0000 <= Isa32.Signed24(Isa32.Imm24(w)) * 4 <= 0x1ff_fffc
  {
  }

  // The first run: the word decodes, and its place holds the result for its own addend.
  lemma FirstResult(sec: SectionInfo, was: Mem, t: Table, j: Job) returns (V: int)
    requires IsImplicitCall(j) && Placed(AArch32, sec, was, t, j)
    ensures var P, w := PlaceOf(AArch32, sec, j), Calls32.WordAt(sec, was, j);
      && P < 0x1_0000_0000 && P != 0 && Calls32.SymbolOf(j) != 0 && Arm.Decode(j.rtype, w).Ok?
      && CallResult(t.stubs, P, Calls32.SymbolOf(j), Calls32.AddendOf(sec, was, j)) == Some(V) && IsInt32(26, V)
      && Mapped(t.mem, P, 4) && Read(t.mem, P, 4) == Arm.PatchBranch(w, V)
  {
    hide PlanOf, PlaceOf, S32, U32, IsInt32, Encode, Pow2, Read, ViaStub, FindStub, Arm.IsCall, Arm.Decode,
         Calls32.AddendOf, Arm.PatchBranch;
    ImplicitPlan(sec, was, j);
    DecodedAddend(sec, was, j);
    var P, S, A := PlaceOf(AArch32, sec, j), Calls32.SymbolOf(j), Calls32.AddendOf(sec, was, j);
    CallNonzero(j.rtype, P, S, U32(j.symbol.value.gotAddr), A);
    CallPlan(j.rtype, P, S, U32(j.symbol.value.gotAddr), A);
    hide Arm.Compute;
    var target := U32(U32(S + A) + 8);
    if FindStub(t.stubs, target).Some? {
      ViaStubIs(P, FindStub(t.stubs, target).value);
    }
    V := ValueIn(AArch32, t.stubs, PlanOf(AArch32, sec, was, j).value, P).value;
    Calls32.BranchEncoding(j, Calls32.WordAt(sec, was, j), V, Read(t.mem, P, 4));
  }

  lemma CallNonzero(t: nat, P: u32, S: u32, G: u32, A: int)
    requires Arm.Compute(t, P, S, G, A).Ok?
    ensures P != 0 && S != 0
  {
    hide S32, U32, IsInt32, Arm.IsCall;
  }

  // The second run takes for the addend what the instruction holds of that result.
  lemma SecondPlan(sec: SectionInfo, m: Mem, j: Job, P: u32, w: u32, V: int)
    requires IsImplicitCall(j) && P == PlaceOf(AArch32, sec, j) && Mapped(m, P, 4)
    requires Read(m, P, 4) == Arm.PatchBranch(w, V)
    requires Arm.Decode(j.rtype, w).Ok? && IsInt32(26, V)
    ensures PlanOf(AArch32, sec, m, j)
      == Arm.Compute(j.rtype, P, Calls32.SymbolOf(j), U32(j.symbol.value.gotAddr), Held(V))
  {
    Arm.DecodeEncoded(j.rtype, w, V);
    hide PlaceOf, U32, S32, IsInt32, Arm.Compute, Arm.Decode, Arm.PatchBranch, Read, PlanOf;
    ImplicitPlan(sec, m, j);
  }

  // A relocated branch with implicit addend, whatever its word and its destination, is left alone by a second
  // relocation exactly if it is settled.
  lemma CallIdleIff(sec: SectionInfo, far: set<int>, was: Mem, t: Table, j: Job)
    requires IsImplicitCall(j) && Placed(AArch32, sec, was, t, j)
    requires TableOk(AArch32, sec, far, t) && Region(AArch32, sec, |far|)
    ensures PlaceOf(AArch32, sec, j) < 0x1_0000_0000
    ensures Relocate(AArch32, sec, t, j) == Ok(t)
      <==> CallSettled(t.stubs, PlaceOf(AArch32, sec, j), Calls32.SymbolOf(j), Calls32.AddendOf(sec, was, j))
  {
    hide TableOk, Region, Placed, PlaceOf, Relocate, CallResult, NearSettled, FarSettled, PlanOf, Patched, Arm.Decode,
         Read, Arm.PatchBranch, S32, U32, IsInt32, StubsApart, Calls32.AddendOf, Calls32.WordAt, Held;
    var V := FirstResult(sec, was, t, j);
    var P, S, A := PlaceOf(AArch32, sec, j), Calls32.SymbolOf(j), Calls32.AddendOf(sec, was, j);
    var w := Calls32.WordAt(sec, was, j);
    DecodedAddend(sec, was, j);
    TableAddresses(sec, far, t);
    SecondPlan(sec, t.mem, j, P, w, V);
    CallRelocated(sec, t, j, P, S, U32(j.symbol.value.gotAddr), Held(V));
    var v := CallResult(t.stubs, P, S, Held(V));
    if v.Some? {
      ResultRange(t.stubs, P, S, Held(V), v.value);
      PatchedSame(t, P, j.rtype, w, V, v.value);
    }
    if IsInt32(26, S32(U32(S + A) - P)) {
      NearResult(t.stubs, P, S, A);
      NearSettles(t.stubs, P, S, A);
    } else {
      FarSettles(t.stubs, P, S, A, V);
    }
  }

  lemma NearResult(stubs: seq<Stub>, P: u32, S: u32, A: int)
    requires IsInt32(26, S32(U32(S + A) - P))
    ensures CallResult(stubs, P, S, A) == Some(S32(U32(S + A) - P))
  {
    hide S32, U32, IsInt32, FindStub;
  }

  // ---- the second run ----

  // a relocation with implicit addend for a symbol whose address and slot are words
  predicate IsImplicit(j: Job)
  {
    j.implicit && (j.symbol.Some? ==> j.symbol.value.addr < 0x1_0000_0000 && j.symbol.value.gotAddr < 0x1_0000_0000)
  }

  // If the pass has run it, it is one of a data word or of a branch.
  lemma ImplicitIsOne(sec: SectionInfo, was: Mem, t: Table, j: Job)
    requires IsImplicit(j) && Placed(AArch32, sec, was, t, j)
    ensures DataWords.DataSite32(j) || IsImplicitCall(j)
  {
    hide PlaceOf, Encode, Read, Pow2, ValueIn, DecodeAddend, U32, S32, IsInt32;
  }

  // What a relocation with implicit addend must satisfy to survive a second run: read off the first one
  predicate Survives(sec: SectionInfo, was: Mem, stubs: seq<Stub>, j: Job)
  {
    var P := U32(PlaceOf(AArch32, sec, j));
    if j.symbol.None? then false
    else if j.rtype == Arm.ABS32 then false
    else if DataWords.IsRelative32(j.rtype) then j.symbol.value.addr == P
    else if j.rtype == Arm.GOT_PREL then j.symbol.value.gotAddr == P
    else CallSettled(stubs, P, U32(j.symbol.value.addr), Calls32.AddendOf(sec, was, j))
  }

  lemma IdleIff(sec: SectionInfo, far: set<int>, was: Mem, t: Table, j: Job)
    requires IsImplicit(j) && Placed(AArch32, sec, was, t, j)
    requires TableOk(AArch32, sec, far, t) && Region(AArch32, sec, |far|)
    ensures Relocate(AArch32, sec, t, j) == Ok(t) <==> Survives(sec, was, t.stubs, j)
  {
    hide TableOk, Region, Placed, Relocate, CallSettled, PlaceOf, Calls32.AddendOf;
    ImplicitIsOne(sec, was, t, j);
    if DataWords.DataSite32(j) {
      DataIdleIff(sec, was, t, j);
      ShiftIsNothing(sec, was, t, j);
    } else {
      CallIdleIff(sec, far, was, t, j);
      WordRange(PlaceOf(AArch32, sec, j));
      WordRange(j.symbol.value.addr);
    }
  }

  lemma ShiftIsNothing(sec: SectionInfo, was: Mem, t: Table, j: Job)
    requires DataWords.DataSite32(j) && Placed(AArch32, sec, was, t, j)
    ensures var P := PlaceOf(AArch32, sec, j);
      && P < 0x1_0000_0000
      && (U32(Shift(j, P)) == 0 <==>
            if j.rtype == Arm.ABS32 then false
            else if DataWords.IsRelative32(j.rtype) then j.symbol.value.addr == P
            else j.symbol.value.gotAddr == P)
  {
    DataWords.Plan32(sec, was, j);
    hide PlaceOf, Encode, PlanOf, Read, Pow2, ValueIn, S32, IsInt32, DataWords.Addend32;
    DataNonzero(j.rtype, PlaceOf(AArch32, sec, j), j.symbol.value.addr, j.symbol.value.gotAddr,
                DataWords.Addend32(sec, was, j));
  }

  lemma DataNonzero(t: nat, P: u32, S: u32, G: u32, A: int)
    requires Arm.Compute(t, P, S, G, A).Ok?
    ensures S != 0 && (t == Arm.GOT_PREL ==> G != 0)
  {
    hide S32, U32, IsInt32;
  }

  // A second run over arm tables succeeds and leaves memory and stubs as they are exactly if every relocation with
  // implicit addend survives it. Those with explicit addends always do.
  lemma ArmTwiceIff(secs: seq<SectionInfo>, st: State, jobs: seq<Job>, r: State)
    requires Fresh(AArch32, secs, st, jobs) && RunsTo(AArch32, secs, st, jobs, r)
    requires forall k :: 0 <= k < |jobs| && jobs[k].implicit ==> IsImplicit(jobs[k])
    ensures |r.tables| == |secs| && forall k :: 0 <= k < |jobs| ==> jobs[k].sec < |secs|
    ensures RunsTo(AArch32, secs, r, jobs, r)
      <==> forall k :: 0 <= k < |jobs| && jobs[k].implicit ==>
        Survives(secs[jobs[k].sec], st.mem, r.tables[jobs[k].sec], jobs[k])
  {
    TableCount(AArch32, secs, st, jobs, r);
    hide RunsTo, Fresh, Idle, Survives, IsImplicit;
    SecondRunIff(AArch32, secs, st, jobs, r);
    forall k | 0 <= k < |jobs|
      ensures jobs[k].sec < |secs|
      ensures Idle(AArch32, secs, r, jobs[k])
        <==> (jobs[k].implicit ==> Survives(secs[jobs[k].sec], st.mem, r.tables[jobs[k].sec], jobs[k]))
    {
      OneJob(secs, st, jobs, r, k);
    }
  }

  lemma TableCount(arch: Arch, secs: seq<SectionInfo>, st: State, jobs: seq<Job>, r: State)
    requires RunsTo(arch, secs, st, jobs, r)
    ensures |r.tables| == |secs|
  {
  }

  lemma OneJob(secs: seq<SectionInfo>, st: State, jobs: seq<Job>, r: State, k: nat)
    requires Fresh(AArch32, secs, st, jobs) && RunsTo(AArch32, secs, st, jobs, r) && k < |jobs|
    requires jobs[k].implicit ==> IsImplicit(jobs[k])
    ensures jobs[k].sec < |secs| == |r.tables|
    ensures Idle(AArch32, secs, r, jobs[k])
      <==> (jobs[k].implicit ==> Survives(secs[jobs[k].sec], st.mem, r.tables[jobs[k].sec], jobs[k]))
  {
    hide Fresh, RunsTo, Placed, TableOk, Region, FarTargets, InSection, Relocate, Survives, IsImplicit;
    AtEnd(AArch32, secs, st, jobs, r, k);
    var j := jobs[k];
    var t := Table(r.mem, r.tables[j.sec]);
    if j.implicit {
      IdleIff(secs[j.sec], FarTargets(AArch32, secs[j.sec], st.mem, jobs, j.sec), st.mem, t, j);
    } else {
      Again.RelocateAgain(AArch32, secs[j.sec], st.mem, t, j);
    }
  }
}
