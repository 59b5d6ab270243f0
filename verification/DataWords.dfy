// Data relocations: what a relocated word of data says once the pass is over.
module DataWords {
  import opened Bits
  import opened Memory
  import opened Results
  import opened Types
  import opened Words
  import opened Target
  import opened Plt
  import opened Pass
  import opened Runs
  import opened Budget
  import Calls32
  import Calls64

  // the signed reading of n bytes
  function SignedIn(n: nat, v: nat): int
  {
    if n == 8 then S64(v)
    else if n == 4 then S32(v)
    else if v < 0x8000 then v else v - 0x1_0000
  }

  // ---- arm64 ----

  predicate IsAbsolute64(t: nat) { t == Arm64.ABS64 || t == Arm64.ABS32 || t == Arm64.ABS16 }

  predicate IsRelative64(t: nat) { t == Arm64.PREL64 || t == Arm64.PREL32 || t == Arm64.PREL16 }

  lemma Value64(t: nat, sec: SectionInfo, P: u64, S: u64, G: u64, A: int)
    requires (IsAbsolute64(t) || IsRelative64(t)) && Arm64.Compute(t, sec, P, S, G, A).Ok?
    ensures Arm64.Compute(t, sec, P, S, G, A) == Ok(Direct(S64(if IsAbsolute64(t) then S + A else S + A - P)))
  {
    hide S64, U64, IsInt64;
  }

  lemma WordsBack(v: int)
    ensures -0x8000_0000_0000_0000 <= v < 0x8000_0000_0000_0000 ==> S64(U64(v)) == v
    ensures -0x8000_0000 <= v < 0x8000_0000 ==> S32(U32(v)) == v
    ensures -0x8000 <= v < 0x8000 ==> SignedIn(2, v % 0x1_0000) == v
  {
  }

  lemma SignedRange(x: int)
    ensures -0x8000_0000_0000_0000 <= S64(x) < 0x8000_0000_0000_0000
  {
  }

  lemma ReadsBack(x: int)
    ensures S64(U64(S64(x))) == S64(x)
    ensures IsInt64(32, S64(x)) ==> S32(U32(S64(x))) == S64(x)
    ensures IsInt64(16, S64(x)) ==> SignedIn(2, S64(x) % 0x1_0000) == S64(x)
  {
    hide IsInt64, S64, U64, S32, U32, SignedIn;
    Ranges(S64(x));
    SignedRange(x);
    WordsBack(S64(x));
  }

  lemma Encoding64(t: nat, w: nat, x: int, v: nat)
    requires (IsAbsolute64(t) || IsRelative64(t)) && w < Pow2(8 * Width(AArch64, t))
    requires Encode(AArch64, t, w, S64(x)) == Ok(v)
    ensures SignedIn(Width(AArch64, t), v) == S64(x)
  {
    hide Pow2, S64, IsInt64, S32, U32;
    ReadsBack(x);
  }

  // A data word of the RELA tables with a symbol
  ghost predicate DataSite64(j: Job)
  {
    && (IsAbsolute64(j.rtype) || IsRelative64(j.rtype)) && !j.implicit
    && j.symbol.Some? && j.symbol.value.addr < 0x1_0000_0000_0000_0000
  }

  // S + A or S + A - P
  function DataValue64(j: Job, P: int): int
    requires j.symbol.Some?
  {
    if IsAbsolute64(j.rtype) then j.symbol.value.addr + j.addend else j.symbol.value.addr + j.addend - P
  }

  lemma DataPlan64(sec: SectionInfo, m0: Mem, j: Job)
    requires DataSite64(j) && PlanOf(AArch64, sec, m0, j).Ok?
    ensures PlaceOf(AArch64, sec, j) < 0x1_0000_0000_0000_0000
    ensures PlanOf(AArch64, sec, m0, j) == Ok(Direct(S64(DataValue64(j, PlaceOf(AArch64, sec, j)))))
  {
    hide PlanOf, PlaceOf, Arm64.Compute, S64, U64;
    Calls64.PlanIs(sec, m0, j);
    Value64(j.rtype, sec, PlaceOf(AArch64, sec, j), j.symbol.value.addr, U64(j.symbol.value.gotAddr), j.addend);
  }

  lemma DataHolds64(sec: SectionInfo, m0: Mem, t: Table, j: Job)
    requires DataSite64(j) && Placed(AArch64, sec, m0, t, j)
    ensures var P, n := PlaceOf(AArch64, sec, j), Width(AArch64, j.rtype);
      && P < 0x1_0000_0000_0000_0000 && Mapped(t.mem, P, n) && SignedIn(n, Read(t.mem, P, n)) == S64(DataValue64(j, P))
  {
    hide PlanOf, PlaceOf, Width, Encode, Read, S64, Pow2, SignedIn, DataValue64;
    DataPlan64(sec, m0, j);
    var P, n := PlaceOf(AArch64, sec, j), Width(AArch64, j.rtype);
    Encoding64(j.rtype, PlaceContents(m0, P, n), DataValue64(j, P), Read(t.mem, P, n));
  }

  lemma DataPlaced64(sec: SectionInfo, m0: Mem, t: Table, j: Job)
    requires DataSite64(j) && Placed(AArch64, sec, m0, t, j)
    ensures var P, n, goal := PlaceOf(AArch64, sec, j), Width(AArch64, j.rtype), j.symbol.value.addr + j.addend;
      && Mapped(t.mem, P, n)
      && var v := SignedIn(n, Read(t.mem, P, n));
      && (IsAbsolute64(j.rtype) ==> v == S64(goal))
      && (IsRelative64(j.rtype) ==> U64(P + v) == U64(goal))
  {
    hide Placed, PlaceOf, Width, Read, S64, U64, SignedIn;
    DataHolds64(sec, m0, t, j);
    U64Back(PlaceOf(AArch64, sec, j), j.symbol.value.addr + j.addend);
  }

  // At the end of the pass an absolute word reads as S + A, a relative one leads from its place to S + A.
  lemma DataAtEnd64(secs: seq<SectionInfo>, st: State, jobs: seq<Job>, r: State, k: nat)
    requires Fresh(AArch64, secs, st, jobs) && RunsTo(AArch64, secs, st, jobs, r)
    requires k < |jobs| && jobs[k].sec < |secs| && DataSite64(jobs[k])
    ensures var j := jobs[k];
      var P, n, goal := PlaceOf(AArch64, secs[j.sec], j), Width(AArch64, j.rtype), j.symbol.value.addr + j.addend;
      && Mapped(r.mem, P, n)
      && var v := SignedIn(n, Read(r.mem, P, n));
      && (IsAbsolute64(j.rtype) ==> v == S64(goal))
      && (IsRelative64(j.rtype) ==> U64(P + v) == U64(goal))
  {
    hide Fresh, RunsTo, TableOk, Region, FarTargets, Placed, InSection, PlaceOf, Width, Read, SignedIn, S64, U64;
    AtEnd(AArch64, secs, st, jobs, r, k);
    DataPlaced64(secs[jobs[k].sec], st.mem, Table(r.mem, r.tables[jobs[k].sec]), jobs[k]);
  }

  // ---- arm ----

  predicate IsRelative32(t: nat) { t == Arm.REL32 || t == Arm.PREL31 }

  // a data word of REL or RELA tables; implicitly, the addend is what the word held
  ghost predicate DataSite32(j: Job)
  {
    && (j.rtype == Arm.ABS32 || IsRelative32(j.rtype) || j.rtype == Arm.GOT_PREL)
    && j.symbol.Some? && j.symbol.value.addr < 0x1_0000_0000 && j.symbol.value.gotAddr < 0x1_0000_0000
  }

  function Addend32(sec: SectionInfo, m: Mem, j: Job): int
  {
    if j.implicit then S32(Calls32.WordAt(sec, m, j)) else j.addend
  }

  lemma Plan32(sec: SectionInfo, m: Mem, j: Job)
    requires DataSite32(j) && Mapped(m, PlaceOf(AArch32, sec, j), 4)
    ensures PlaceOf(AArch32, sec, j) < 0x1_0000_0000
    ensures PlanOf(AArch32, sec, m, j)
      == Arm.Compute(j.rtype, PlaceOf(AArch32, sec, j), j.symbol.value.addr, j.symbol.value.gotAddr,
                     Addend32(sec, m, j))
  {
    var P := PlaceOf(AArch32, sec, j);
    assert P < 0x1_0000_0000 && U32(P) == P;
    assert U32(j.symbol.value.addr) == j.symbol.value.addr && U32(j.symbol.value.gotAddr) == j.symbol.value.gotAddr;
    hide Arm.Compute, PlaceOf, U32, S32, Read;
    Decode32(j.rtype, m, P);
  }

  lemma Decode32(t: nat, m: Mem, P: int)
    requires (t == Arm.ABS32 || IsRelative32(t) || t == Arm.GOT_PREL) && Mapped(m, P, 4)
    ensures Read(m, P, 4) < 0x1_0000_0000 && DecodeAddend(AArch32, t, m, P) == Ok(S32(Read(m, P, 4)))
  {
    NumberOfBytes(Load(m, P, 4));
    LargePowers();
    hide S32, FromBytes;
  }

  lemma Value32(t: nat, P: u32, S: u32, G: u32, A: int)
    requires (t == Arm.ABS32 || IsRelative32(t) || t == Arm.GOT_PREL) && Arm.Compute(t, P, S, G, A).Ok?
    ensures Arm.Compute(t, P, S, G, A)
      == Ok(Direct(S32(if t == Arm.ABS32 then S + A else if t == Arm.GOT_PREL then G + A - P else S + A - P)))
  {
    hide S32, U32, IsInt32;
  }

  // At the end of the pass an absolute word is S + A, a relative one leads to S + A or to the GOT slot plus A.
  lemma DataAtEnd32(secs: seq<SectionInfo>, st: State, jobs: seq<Job>, r: State, k: nat)
    requires Fresh(AArch32, secs, st, jobs) && RunsTo(AArch32, secs, st, jobs, r)
    requires k < |jobs| && jobs[k].sec < |secs| && DataSite32(jobs[k])
    ensures var j := jobs[k];
      var P, A := PlaceOf(AArch32, secs[j.sec], j), Addend32(secs[j.sec], st.mem, j);
      && Mapped(r.mem, P, 4)
      && var v := Read(r.mem, P, 4);
      && (j.rtype == Arm.ABS32 ==> v == U32(j.symbol.value.addr + A))
      && (IsRelative32(j.rtype) ==> U32(P + v) == U32(j.symbol.value.addr + A))
      && (j.rtype == Arm.GOT_PREL ==> U32(P + v) == U32(j.symbol.value.gotAddr + A))
  {
    hide Fresh, RunsTo, TableOk, Region, FarTargets, Placed, InSection, PlaceOf, Width, Read, U32, Addend32;
    AtEnd(AArch32, secs, st, jobs, r, k);
    DataPlaced32(secs[jobs[k].sec], st.mem, Table(r.mem, r.tables[jobs[k].sec]), jobs[k]);
  }

  lemma DataPlaced32(sec: SectionInfo, m0: Mem, t: Table, j: Job)
    requires DataSite32(j) && Placed(AArch32, sec, m0, t, j)
    ensures var P, A := PlaceOf(AArch32, sec, j), Addend32(sec, m0, j);
      && Mapped(t.mem, P, 4)
      && var v := Read(t.mem, P, 4);
      && (j.rtype == Arm.ABS32 ==> v == U32(j.symbol.value.addr + A))
      && (IsRelative32(j.rtype) ==> U32(P + v) == U32(j.symbol.value.addr + A))
      && (j.rtype == Arm.GOT_PREL ==> U32(P + v) == U32(j.symbol.value.gotAddr + A))
  {
    hide PlanOf, PlaceOf, Encode, Read, Arm.Compute, S32, U32, Pow2, Addend32;
    Plan32(sec, m0, j);
    var P, A, S, G := PlaceOf(AArch32, sec, j), Addend32(sec, m0, j), j.symbol.value.addr, j.symbol.value.gotAddr;
    Value32(j.rtype, P, S, G, A);
    var goal := if j.rtype == Arm.GOT_PREL then G + A else S + A;
    Encoding32(j.rtype, PlaceContents(m0, P, 4), if j.rtype == Arm.ABS32 then goal else goal - P, Read(t.mem, P, 4));
    Leads(P, goal);
  }

  lemma Encoding32(t: nat, w: nat, x: int, v: nat)
    requires (t == Arm.ABS32 || IsRelative32(t) || t == Arm.GOT_PREL) && w < Pow2(8 * Width(AArch32, t))
    requires Encode(AArch32, t, w, S32(x)) == Ok(v)
    ensures v == U32(x)
  {
    hide Pow2, IsInt32;
    assert U32(S32(x)) == U32(x);
  }

  lemma Leads(P: u32, goal: int)
    ensures U32(P + U32(goal - P)) == U32(goal)
  {
    var q := U32Congruent(goal - P);
    hide U32;
    U32Shift(P + U32(goal - P), q);
  }
}
