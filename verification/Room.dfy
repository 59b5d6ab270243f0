// What loading promises the relocation pass: when the memory of the loaded sections has room for the stubs.
module Room {
  import opened Bits
  import opened Memory
  import opened Results
  import opened Types
  import opened Target
  import opened Plt
  import opened Pass
  import opened Runs
  import opened Budget
  import opened Again
  import opened StubSlots
  import opened Sections
  import opened Objects
  import opened Kinds
  import opened Loading

  // ---- one section ----

  // k stubs out of a budget of n fit: none, or not all of them, or 8 bytes are left in the last page.
  predicate Roomy(arch: Arch, size: nat, n: nat, k: nat)
  {
    var reserved := size + StubBytes(arch, n);
    k == 0 || k < n || PageUp(reserved) - reserved >= 8
  }

  lemma InPage(n: nat)
    ensures n <= PageUp(n)
  {
  }

  // A section and k of its n budgeted stubs stay in the pages that were mapped for them exactly if they are roomy.
  lemma StaysInPagesIff(arch: Arch, sec: SectionInfo, n: nat, k: nat)
    requires k <= n && sec.stubOffset == sec.start + sec.size
    ensures End(arch, sec, k) <= sec.start + PageUp(sec.size + StubBytes(arch, n)) <==> Roomy(arch, sec.size, n, k)
  {
    InPage(sec.size + StubBytes(arch, n));
    hide PageUp;
  }

  // stubs made for the section start at a word boundary
  lemma StubsAligned(arch: Arch, h: SectionHeader, image: nat, n: nat, answer: Option<nat>, info: SectionInfo,
                     stubSize: nat)
    requires LoadedAs(arch, h, image, n, answer, info, stubSize) && Loadable(arch, h, n, answer)
    requires IsImage(info.kind) && n > 0 && answer.value % PAGE == 0
    ensures info.stubOffset == info.start + info.size && info.stubOffset % 4 == 0
  {
    hide SectionKindOf;
    AlignedSum(answer.value, h.size);
  }

  lemma AlignedSum(a: nat, n: nat)
    requires a % PAGE == 0 && n % 4 == 0
    ensures (a + n) % 4 == 0
  {
    QuotRem(a + n, 4, a / PAGE * 1024 + n / 4, 0);
  }

  // ---- all sections ----

  // how many distinct far targets each section may have
  ghost predicate RoomyAll(arch: Arch, infos: seq<SectionInfo>, ns: seq<nat>, far: seq<set<int>>)
  {
    && |far| == |infos| == |ns|
    && forall i :: 0 <= i < |infos| && Active(infos[i]) ==>
        && |far[i]| <= ns[i] && Roomy(arch, infos[i].size, ns[i], |far[i]|)
        && (infos[i].kind == ZEROFILL ==> |far[i]| == 0)
  }

  // A loaded section as memory: no more than an empty one, or in pages of its own below the limit
  ghost predicate InOwnPages(arch: Arch, info: SectionInfo, n: nat, asked: nat, answer: Option<nat>)
  {
    if asked == 0 then info.start == 0 && info.size == 0 && n == 0
    else
      && answer.Some? && info.start == answer.value && answer.value + PageUp(asked) <= Limit(arch)
      && (if info.kind == ZEROFILL then info.size == asked
          else info.stubOffset == info.start + info.size && asked == info.size + StubBytes(arch, n))
  }

  lemma OwnPagesWhenLoaded(arch: Arch, h: SectionHeader, image: nat, n: nat, answer: Option<nat>, info: SectionInfo,
                           stubSize: nat)
    requires LoadedAs(arch, h, image, n, answer, info, stubSize) && Loadable(arch, h, n, answer) && Active(info)
    requires answer.Some? ==> answer.value + PageUp(MapBytes(arch, h, n)) <= Limit(arch)
    ensures InOwnPages(arch, info, n, MapBytes(arch, h, n), answer)
  {
    hide PageUp, SectionKindOf;
  }

  lemma RegionWhenRoomy(arch: Arch, info: SectionInfo, n: nat, asked: nat, answer: Option<nat>, k: nat)
    requires InOwnPages(arch, info, n, asked, answer) && k <= n && Roomy(arch, info.size, n, k)
    requires info.kind == ZEROFILL ==> k == 0
    ensures Region(arch, info, k)
    ensures asked > 0 ==> End(arch, info, k) <= answer.value + PageUp(asked)
    ensures asked == 0 ==> End(arch, info, k) == 0
  {
    InPage(asked);
    if asked > 0 && info.kind != ZEROFILL {
      StaysInPagesIff(arch, info, n, k);
    }
    hide PageUp;
  }

  ghost predicate AllInPages(arch: Arch, infos: seq<SectionInfo>, ns: seq<nat>, asked: seq<nat>,
                             answers: seq<Option<nat>>)
  {
    && |infos| == |ns| == |asked| == |answers|
    && (forall i :: 0 <= i < |infos| && Active(infos[i]) ==> InOwnPages(arch, infos[i], ns[i], asked[i], answers[i]))
    && forall i, k :: 0 <= i < k < |infos| ==> RequestsApart(answers[i], asked[i], answers[k], asked[k])
  }

  // Sections in their own pages, with room for their stubs, lie apart together with these stubs.
  lemma LayoutWhenRoomy(arch: Arch, infos: seq<SectionInfo>, ns: seq<nat>, asked: seq<nat>, answers: seq<Option<nat>>,
                        far: seq<set<int>>)
    requires AllInPages(arch, infos, ns, asked, answers) && RoomyAll(arch, infos, ns, far)
    ensures Layout(arch, infos, far)
  {
    hide Region, End, PageUp, Roomy;
    forall i | 0 <= i < |infos| && Active(infos[i])
      ensures Region(arch, infos[i], |far[i]|)
      ensures asked[i] > 0 ==> End(arch, infos[i], |far[i]|) <= answers[i].value + PageUp(asked[i])
      ensures asked[i] == 0 ==> End(arch, infos[i], |far[i]|) == 0
    {
      RegionWhenRoomy(arch, infos[i], ns[i], asked[i], answers[i], |far[i]|);
    }
    forall i, k | 0 <= i < k < |infos| && Active(infos[i]) && Active(infos[k])
      ensures End(arch, infos[i], |far[i]|) <= infos[k].start || End(arch, infos[k], |far[k]|) <= infos[i].start
    {
      assert InOwnPages(arch, infos[i], ns[i], asked[i], answers[i]);
      assert InOwnPages(arch, infos[k], ns[k], asked[k], answers[k]);
      if asked[i] > 0 && asked[k] > 0 {
        assert RequestsApart(answers[i], asked[i], answers[k], asked[k]);
      }
    }
  }

  // ---- the pass over loaded sections ----

  function Budgets(arch: Arch, rel: seq<RelTable>, rela: seq<RelTable>, count: nat): (ns: seq<nat>)
    ensures |ns| == count
  {
    seq(count, i requires 0 <= i < count => StubBudget(arch, rel, rela, i))
  }

  function Requests(arch: Arch, headers: seq<SectionHeader>, rel: seq<RelTable>, rela: seq<RelTable>): (asked: seq<nat>)
    ensures |asked| == |headers|
  {
    seq(|headers|, i requires 0 <= i < |headers| => Asked(arch, headers, rel, rela, i))
  }

  predicate AllActive(infos: seq<SectionInfo>, jobs: seq<Job>)
  {
    forall k :: 0 <= k < |jobs| ==> jobs[k].sec < |infos| && Active(infos[jobs[k].sec])
  }

  lemma ActiveBoth(infos: seq<SectionInfo>, a: seq<Job>, b: seq<Job>)
    requires AllActive(infos, a) && AllActive(infos, b)
    ensures AllActive(infos, a + b)
  {
  }

  // Every place lies in its section, and no two overlap: what a well-formed object file promises.
  ghost predicate WellPlaced(arch: Arch, infos: seq<SectionInfo>, jobs: seq<Job>)
  {
    && (forall k :: 0 <= k < |jobs| ==> jobs[k].sec < |infos| && InSection(arch, infos[jobs[k].sec], jobs[k]))
    && forall k, l :: 0 <= k < l < |jobs| ==> ApartPlaces(arch, jobs[k], jobs[l])
  }

  // Each section has room for the far targets of its branches; only text and data from the file have any.
  ghost predicate HasRoom(arch: Arch, infos: seq<SectionInfo>, m: Mem, jobs: seq<Job>)
  {
    forall i :: 0 <= i < |infos| && Active(infos[i]) ==>
      var k := |FarTargets(arch, infos[i], m, jobs, i)|;
      Roomy(arch, infos[i].size, NumberOfStubs(arch, jobs, i), k) && (infos[i].kind == ZEROFILL ==> k == 0)
  }

  // The relocations are those of loaded sections, as many of each as were counted before loading.
  ghost predicate CountedAs(arch: Arch, infos: seq<SectionInfo>, ns: seq<nat>, jobs: seq<Job>)
  {
    && |ns| == |infos| && AllActive(infos, jobs)
    && forall i :: 0 <= i < |infos| && Active(infos[i]) ==> NumberOfStubs(arch, jobs, i) == ns[i]
  }

  // The count bounds the far targets of the pass.
  lemma RoomyWhenCounted(arch: Arch, infos: seq<SectionInfo>, ns: seq<nat>, jobs: seq<Job>, m: Mem)
    requires CountedAs(arch, infos, ns, jobs) && HasRoom(arch, infos, m, jobs)
    ensures RoomyAll(arch, infos, ns, Far(arch, infos, m, jobs))
  {
    hide Roomy, FarTargets, NumberOfStubs;
    forall i | 0 <= i < |infos| && Active(infos[i])
      ensures var k := |FarTargets(arch, infos[i], m, jobs, i)|; k <= ns[i] && Roomy(arch, infos[i].size, ns[i], k)
    {
      WithinBudget(arch, infos[i], m, jobs, i);
    }
  }

  // Sections in their own pages, with room, make a state without stubs fresh, whatever memory holds.
  lemma FreshWhenRoomy(arch: Arch, infos: seq<SectionInfo>, ns: seq<nat>, asked: seq<nat>, answers: seq<Option<nat>>,
                       jobs: seq<Job>,
                       m: Mem, tables: seq<seq<Stub>>)
    requires AllInPages(arch, infos, ns, asked, answers) && CountedAs(arch, infos, ns, jobs)
    requires WellPlaced(arch, infos, jobs) && HasRoom(arch, infos, m, jobs)
    requires |tables| == |infos| && forall i :: 0 <= i < |tables| ==> tables[i] == []
    ensures Fresh(arch, infos, State(m, tables), jobs)
  {
    hide InSection, ApartPlaces, HasRoom, RoomyAll, AllInPages, Layout, Far, NumberOfStubs;
    RoomyWhenCounted(arch, infos, ns, jobs, m);
    LayoutWhenRoomy(arch, infos, ns, asked, answers, Far(arch, infos, m, jobs));
  }

  // ---- stubs in reach ----

  lemma StubSpaceMapped(arch: Arch, m: Mem, info: SectionInfo, n: nat, asked: nat, answer: Option<nat>, k: nat)
    requires InOwnPages(arch, info, n, asked, answer) && HasPages(m, answer, asked) && info.kind != ZEROFILL
    requires 0 < k <= n && Roomy(arch, info.size, n, k)
    ensures Mapped(m, info.stubOffset + 8, StubBytes(arch, k))
  {
    StaysInPagesIff(arch, info, n, k);
    hide PageUp, Roomy;
    forall x | info.stubOffset + 8 <= x < info.stubOffset + 8 + StubBytes(arch, k) ensures x in m {
      assert InPages(answer.value, asked, x);
    }
  }

  // Size, stub space and the 8 bytes together are within the range of a branch.
  ghost predicate Compact(arch: Arch, infos: seq<SectionInfo>, ns: seq<nat>)
    requires |infos| == |ns|
  {
    forall i :: 0 <= i < |infos| && Active(infos[i]) ==> infos[i].size + StubBytes(arch, ns[i]) + 8 <= Reach(arch)
  }

  // In compact sections whose pages are mapped every stub is in reach of every place: the range check after making a
  // stub cannot fail, so a pass succeeds exactly if every relocation passes its own checks.
  lemma CompactReachable(arch: Arch, infos: seq<SectionInfo>, ns: seq<nat>, asked: seq<nat>, answers: seq<Option<nat>>,
                         far: seq<set<int>>, m: Mem)
    requires AllInPages(arch, infos, ns, asked, answers) && RoomyAll(arch, infos, ns, far) && Compact(arch, infos, ns)
    requires forall i :: 0 <= i < |infos| ==> HasPages(m, answers[i], asked[i])
    ensures AllReachable(arch, infos, far, m)
  {
    hide HasPages, Roomy;
    forall i | 0 <= i < |infos| && Active(infos[i]) ensures Reachable(arch, infos[i], |far[i]|, m) {
      OneReachable(arch, infos[i], ns[i], asked[i], answers[i], |far[i]|, m);
    }
  }

  lemma OneReachable(arch: Arch, info: SectionInfo, n: nat, asked: nat, answer: Option<nat>, k: nat, m: Mem)
    requires InOwnPages(arch, info, n, asked, answer) && HasPages(m, answer, asked)
    requires k <= n && Roomy(arch, info.size, n, k) && (info.kind == ZEROFILL ==> k == 0)
    requires info.size + StubBytes(arch, n) + 8 <= Reach(arch)
    ensures Reachable(arch, info, k, m)
  {
    hide HasPages, Roomy, PageUp;
    if k > 0 {
      StubSpaceMapped(arch, m, info, n, asked, answer, k);
    }
  }

  // ---- when stubs leave the memory of their section ----

  ghost predicate StubsInPages(arch: Arch, sec: SectionInfo, stubs: seq<Stub>, n: nat)
  {
    forall s :: s in stubs ==> s.addr + StubSize(arch) <= sec.start + PageUp(sec.size + StubBytes(arch, n))
  }

  lemma StubsEnd(arch: Arch, sec: SectionInfo, stubs: seq<Stub>, n: nat)
    requires InSlotOrder(arch, sec, stubs) && |stubs| <= n && sec.stubOffset == sec.start + sec.size
    ensures StubsInPages(arch, sec, stubs, n) <==> Roomy(arch, sec.size, n, |stubs|)
  {
    hide PageUp, Roomy;
    var k := |stubs|;
    InPage(sec.size + StubBytes(arch, n));
    StaysInPagesIff(arch, sec, n, k);
    if k > 0 {
      assert stubs[k - 1] in stubs;
      assert stubs[k - 1].addr + StubSize(arch) == End(arch, sec, k);
      forall s | s in stubs ensures s.addr + StubSize(arch) <= End(arch, sec, k) {
        var l :| 0 <= l < k && stubs[l] == s;
      }
    }
  }

  // After any successful pass, whatever lies behind the pages of a section, its stubs lie in these pages exactly if
  // none was made, fewer were made than counted, or 8 bytes were to spare.
  lemma StubsInPagesIff(arch: Arch, secs: seq<SectionInfo>, st: State, jobs: seq<Job>, r: State, i: nat)
    requires RunsTo(arch, secs, st, jobs, r) && i < |secs| == |st.tables| && st.tables[i] == []
    requires BelowLimit(arch, secs[i], NumberOfStubs(arch, jobs, i))
    requires secs[i].stubOffset == secs[i].start + secs[i].size
    ensures i < |r.tables|
    ensures var n := NumberOfStubs(arch, jobs, i);
      && (StubsInPages(arch, secs[i], r.tables[i], n) <==> Roomy(arch, secs[i].size, n, |r.tables[i]|))
      && (Explicit(jobs, i) ==> |r.tables[i]| == |FarTargets(arch, secs[i], st.mem, jobs, i)|)
  {
    hide RunsTo, NumberOfStubs, FarTargets, BelowLimit, Explicit, InSlotOrder, StubsInPages, Roomy;
    StubsAnyway(arch, secs, st, jobs, r, i);
    StubsEnd(arch, secs[i], r.tables[i], NumberOfStubs(arch, jobs, i));
  }
}
