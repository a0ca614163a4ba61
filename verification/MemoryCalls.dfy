/** The memory calls over all contexts (kernel/syscall/memory.rs), with switches between them.

    A `System` is the cluster table, the page table, and every context's stack and program
    memory; threads share one memory.  `Paged` says that the page table is the one the current
    context's space asks for and that every space is good.  `Backed` says that every mapping which
    owns its memory has an allocation of its own, large enough. */
module MemoryCalls {
  import opened Common
  import opened AddressSpace
  import Allocator

  type Clusters = seq<nat>

  datatype System = System(clusters: Clusters, pages: seq<Entry>, stacks: seq<Option<Mapping>>,
                           uses: seq<nat>, memories: seq<seq<Mapping>>, cur: nat)
  {
    predicate Shaped() {
      && |uses| == |stacks| && cur < |stacks|
      && forall i :: 0 <= i < |uses| ==> uses[i] < |memories|
    }

    function SpaceOf(i: nat): Space
      requires Shaped() && i < |stacks|
    {
      Space(stacks[i], memories[uses[i]])
    }

    function Here(): Space
      requires Shaped()
    {
      SpaceOf(cur)
    }

    /** The current context's memory, page table and clusters replaced. */
    function With(ms: seq<Mapping>, t: seq<Entry>, u: Clusters): System
      requires Shaped()
    {
      this.(memories := memories[uses[cur] := ms], pages := t, clusters := u)
    }
  }

  // ---------------------------------------------------------------- the calls

  datatype Call =
    | Switch(to: nat)
    | Alloc(size: nat)
    | Realloc(ptr: nat, size: nat)
    | Inplace(ptr: nat, size: nat)
    | Unalloc(ptr: nat)
    | Brk(addr: nat)

  /** Dropping a mapping frees its memory if it owns any. */
  function Dropped(u: Clusters, m: Mapping): Clusters {
    if m.owned then Allocator.Unalloced(u, m.phys) else u
  }

  /** What `clean_mem` frees. */
  function CleanDrops(u: Clusters, ms: seq<Mapping>): Clusters
    decreases |ms|
  {
    if ms == [] then u else CleanDrops(if ms[0].size == 0 then Dropped(u, ms[0]) else u, ms[1..])
  }

  /** `get_mem_mut`, a change of one mapping with its pages remapped, and `clean_mem`. */
  function Changed(s: System, k: nat, m: Mapping, u: Clusters): System
    requires s.Shaped() && k < |s.Here().memory|
  {
    var ms := s.Here().memory;
    s.With(Clean(ms[k := m]), Patched(s.pages, ms[k], m), CleanDrops(u, ms[k := m]))
  }

  /** A mapping after its block was reallocated to `r`; 0 says that failed. */
  function Moved(m: Mapping, r: nat, size: nat): Mapping {
    if r > 0 then m.(phys := r, size := size) else m.(size := 0)
  }

  function NewMapping(s: System, r: nat, size: nat): Mapping
    requires s.Shaped()
  {
    Mapping(r, NextMem(s.Here().memory), size, true, true)
  }

  /** `brk` changes the last mapping, if it is the program's own. */
  predicate Resizes(ms: seq<Mapping>, addr: nat) {
    ms != [] && ms[|ms| - 1].writeable && ms[|ms| - 1].owned && addr >= ms[|ms| - 1].virt
  }

  /** The allocator answers `r` and leaves `u`; afterwards the system is `z`. */
  ghost predicate Answered(s: System, c: Call, r: nat, u: Clusters, z: System)
    requires s.Shaped()
  {
    var ms := s.Here().memory;
    match c
    case Switch(to) =>
      to < |s.stacks| && r == 0 && u == s.clusters
      && z == s.(cur := to, pages := Mapped(Unmapped(s.pages, s.Here()), s.SpaceOf(to)))
    case Alloc(size) =>
      && Allocator.AllocStep(s.clusters, size, 1, r, u)
      && var m := NewMapping(s, r, size);
         z == if r > 0 then s.With(ms + [m], MapOn(s.pages, m), u) else s.(clusters := u)
    case Realloc(ptr, size) =>
      var k := Find(ms, ptr);
      if k < |ms| then
        Allocator.ReallocStep(s.clusters, ms[k].phys, size, r, u) && z == Changed(s, k, Moved(ms[k], r, size), u)
      else r == 0 && u == s.clusters && z == s.With(Clean(ms), s.pages, CleanDrops(u, ms))
    case Inplace(ptr, size) =>
      var k := Find(ms, ptr);
      u == s.clusters &&
      if k < |ms| then
        r == Min(size, Allocator.AllocSize(u, ms[k].phys)) && z == Changed(s, k, ms[k].(size := r), u)
      else r == 0 && z == s.With(Clean(ms), s.pages, CleanDrops(u, ms))
    case Unalloc(ptr) =>
      var k := Find(ms, ptr);
      r == 0 && u == s.clusters &&
      z == if k < |ms| then Changed(s, k, ms[k].(size := 0), u)
           else s.With(Clean(ms), s.pages, CleanDrops(u, ms))
    case Brk(addr) =>
      var now := if Resizes(ms, addr) then ms[|ms| - 1 := Moved(ms[|ms| - 1], r, addr - ms[|ms| - 1].virt)] else ms;
      && (if Resizes(ms, addr)
          then Allocator.ReallocStep(s.clusters, ms[|ms| - 1].phys, addr - ms[|ms| - 1].virt, r, u)
          else r == 0 && u == s.clusters)
      && z == s.With(Clean(now), Mapped(Unmapped(s.pages, s.Here()), Space(s.Here().stack, Clean(now))),
                     CleanDrops(u, now))
  }

  ghost predicate Step(s: System, c: Call, z: System)
    requires s.Shaped()
  {
    exists r, u :: Answered(s, c, r, u, z)
  }

  // ---------------------------------------------------------------- the page table

  ghost predicate AllGood(s: System)
    requires s.Shaped()
  {
    forall i :: 0 <= i < |s.stacks| ==> Good(|s.pages|, s.SpaceOf(i))
  }

  ghost predicate Paged(s: System) {
    && s.Shaped()
    && AllGood(s)
    && s.pages == Laid(|s.pages|, s.Here())
  }

  /** Mapping `k` of the current memory may become `m`, for every thread that shares the memory. */
  ghost predicate FitsAll(s: System, k: nat, m: Mapping)
    requires s.Shaped() && k < |s.Here().memory|
  {
    forall i :: 0 <= i < |s.stacks| && s.uses[i] == s.uses[s.cur] ==> Fits(|s.pages|, s.SpaceOf(i), k, m)
  }

  /** Where the calls do not look: whether there is room for what they map. */
  ghost predicate Room(s: System, c: Call, r: nat)
    requires s.Shaped()
  {
    var ms, n := s.Here().memory, |s.pages|;
    match c
    case Switch(_) => true
    case Unalloc(_) => true
    case Alloc(size) =>
      var m := NewMapping(s, r, size);
      r == 0 || (m.PageEnd() <= n * PAGE_SIZE
                 && forall i :: 0 <= i < |s.stacks| && s.uses[i] == s.uses[s.cur] && s.stacks[i].Some? ==>
                      m.Apart(s.stacks[i].value))
    case Realloc(ptr, size) =>
      var k := Find(ms, ptr);
      k < |ms| && r > 0 ==> FitsAll(s, k, Moved(ms[k], r, size))
    case Inplace(ptr, size) =>
      var k := Find(ms, ptr);
      k < |ms| && r > 0 ==> FitsAll(s, k, ms[k].(size := r))
    case Brk(addr) =>
      Resizes(ms, addr) && r > 0 ==> FitsAll(s, |ms| - 1, Moved(ms[|ms| - 1], r, addr - ms[|ms| - 1].virt))
  }

  lemma ChangedClean(ms: seq<Mapping>, k: nat, m: Mapping, n: nat, s: Space)
    requires Good(n, s) && s.memory == ms && k < |ms| && m.virt == ms[k].virt
    ensures Clean(ms[k := m]) == if m.size > 0 then ms[k := m] else Without(ms, k)
  {
    if m.size > 0 {
      GoodIffFits(n, s, k, m);
    } else {
      GoodWithout(n, s, k, m);
    }
  }

  /** The spaces after one mapping was changed. */
  lemma ChangeSpaces(s: System, k: nat, m: Mapping, z: System)
    requires Paged(s) && k < |s.Here().memory| && m.virt == s.Here().memory[k].virt
    requires |z.pages| == |s.pages| && z.stacks == s.stacks && z.uses == s.uses && z.cur == s.cur
    requires z.memories == s.memories[s.uses[s.cur] := Clean(s.Here().memory[k := m])]
    ensures AllGood(z) <==> m.size > 0 ==> FitsAll(s, k, m)
  {
    hide Clean, Laid, Good, Fits;
    var n, ms := |s.pages|, s.Here().memory;
    ChangedClean(ms, k, m, n, s.Here());
    forall i | 0 <= i < |s.stacks| && s.uses[i] == s.uses[s.cur]
      ensures Good(n, z.SpaceOf(i)) <==> m.size > 0 ==> Fits(n, s.SpaceOf(i), k, m)
    {
      if m.size > 0 {
        GoodIffFits(n, s.SpaceOf(i), k, m);
      } else {
        GoodWithout(n, s.SpaceOf(i), k, m);
      }
    }
    ChangeGood(s, z, k, m);
  }

  /** The page table after one mapping was changed in place. */
  lemma ChangePages(s: System, k: nat, m: Mapping, u: Clusters)
    requires Paged(s) && k < |s.Here().memory| && m.virt == s.Here().memory[k].virt
    ensures Paged(Changed(s, k, m, u)) <==> m.size > 0 ==> FitsAll(s, k, m)
  {
    hide Clean, CleanDrops, Laid, Patched, Good, Fits;
    var n, z := |s.pages|, Changed(s, k, m, u);
    ChangedClean(s.Here().memory, k, m, n, s.Here());
    ChangeSpaces(s, k, m, z);
    if m.size == 0 {
      DropLays(n, s.Here(), k, m);
    } else if FitsAll(s, k, m) {
      assert Fits(n, s.SpaceOf(s.cur), k, m);
      PatchLays(n, s.Here(), k, m);
    }
  }

  lemma ChangeGood(s: System, z: System, k: nat, m: Mapping)
    requires Paged(s) && k < |s.Here().memory|
    requires |z.pages| == |s.pages| && z.stacks == s.stacks && z.uses == s.uses && z.cur == s.cur
    requires |z.memories| == |s.memories|
    requires forall g :: 0 <= g < |s.memories| && g != s.uses[s.cur] ==> z.memories[g] == s.memories[g]
    requires forall i :: 0 <= i < |s.stacks| && s.uses[i] == s.uses[s.cur] ==>
               (Good(|s.pages|, z.SpaceOf(i)) <==> m.size > 0 ==> Fits(|s.pages|, s.SpaceOf(i), k, m))
    ensures AllGood(z) <==> m.size > 0 ==> FitsAll(s, k, m)
  {
    hide Good, Fits, Laid;
    assert forall i :: 0 <= i < |s.stacks| && s.uses[i] != s.uses[s.cur] ==> z.SpaceOf(i) == s.SpaceOf(i);
  }

  /** Cleaning a memory without empty mappings does nothing. */
  lemma {:induction false} CleanIdle(u: Clusters, ms: seq<Mapping>)
    requires forall j :: 0 <= j < |ms| ==> ms[j].size > 0
    ensures Clean(ms) == ms && CleanDrops(u, ms) == u
  {
    if ms != [] {
      CleanIdle(u, ms[1..]);
    }
  }

  lemma IdlePages(s: System, z: System)
    requires Paged(s) && z == s.With(Clean(s.Here().memory), s.pages, CleanDrops(s.clusters, s.Here().memory))
    ensures z == s
  {
    hide Laid, Clean, CleanDrops;
    assert Good(|s.pages|, s.SpaceOf(s.cur));
    CleanIdle(s.clusters, s.Here().memory);
  }

  lemma AnswerAligned(t: Clusters, p: nat, size: nat, r: nat, u: Clusters)
    requires p % PAGE_SIZE == 0 && (Allocator.ReallocStep(t, p, size, r, u) || Allocator.AllocStep(t, size, 1, r, u))
    ensures r % PAGE_SIZE == 0
    ensures size == 0 ==> r == 0
  {
    hide Allocator.FirstFreeRun, Allocator.NoFreeRun, Allocator.Claimed, Allocator.Unalloced, Allocator.AllocSize;
  }

  lemma AllocPages(s: System, size: nat, r: nat, u: Clusters, z: System)
    requires Paged(s) && Answered(s, Alloc(size), r, u, z)
    ensures Paged(z) <==> Room(s, Alloc(size), r)
  {
    hide Laid, Good, Allocator.AllocStep;
    AnswerAligned(s.clusters, 0, size, r, u);
    var n, m := |s.pages|, NewMapping(s, r, size);
    if r > 0 {
      AppendLays(n, s.Here(), m);
      forall i | 0 <= i < |s.stacks| && s.uses[i] == s.uses[s.cur]
        ensures Good(n, z.SpaceOf(i)) <==> m.Proper(n * PAGE_SIZE) && (s.stacks[i].Some? ==> m.Apart(s.stacks[i].value))
      {
        GoodIffAppended(n, s.SpaceOf(i), m);
      }
      assert m.Proper(n * PAGE_SIZE) <==> m.PageEnd() <= n * PAGE_SIZE by { NextMemAligned(n, s.Here()); }
      AppendGood(s, z, m);
    } else {
      SameGood(s, z);
    }
  }

  lemma SameGood(s: System, z: System)
    requires Paged(s) && z == s.(clusters := z.clusters)
    ensures Paged(z)
  {
    hide Laid, Good;
    forall i | 0 <= i < |s.stacks|
      ensures Good(|z.pages|, z.SpaceOf(i))
    {
      assert z.SpaceOf(i) == s.SpaceOf(i);
    }
  }

  lemma AppendGood(s: System, z: System, m: Mapping)
    requires Paged(s)
    requires |z.pages| == |s.pages| && z.stacks == s.stacks && z.uses == s.uses && z.cur == s.cur
    requires |z.memories| == |s.memories|
    requires forall g :: 0 <= g < |s.memories| && g != s.uses[s.cur] ==> z.memories[g] == s.memories[g]
    requires forall i :: 0 <= i < |s.stacks| && s.uses[i] == s.uses[s.cur] ==>
               (Good(|s.pages|, z.SpaceOf(i)) <==>
                m.Proper(|s.pages| * PAGE_SIZE) && (s.stacks[i].Some? ==> m.Apart(s.stacks[i].value)))
    ensures AllGood(z) <==> m.Proper(|s.pages| * PAGE_SIZE)
                            && forall i :: 0 <= i < |s.stacks| && s.uses[i] == s.uses[s.cur] && s.stacks[i].Some? ==>
                                 m.Apart(s.stacks[i].value)
  {
    hide Good, Laid, Mapping.Proper, Mapping.Apart;
    assert s.uses[s.cur] == s.uses[s.cur];
    assert forall i :: 0 <= i < |s.stacks| && s.uses[i] != s.uses[s.cur] ==> z.SpaceOf(i) == s.SpaceOf(i);
  }

  lemma NextMemAligned(n: nat, s: Space)
    requires Good(n, s)
    ensures NextMem(s.memory) % PAGE_SIZE == 0
  {
    hide NextMem, Mapping.Apart, Ascending, Mapping.PageEnd, Mapping.Pages;
    var a := NextMem(s.memory);
    if a != 0 {
      var j :| 0 <= j < |s.memory| && s.memory[j].PageEnd() == a;
      PageEndAligned(s.memory[j]);
    }
  }

  lemma PageEndAligned(m: Mapping)
    requires m.virt % PAGE_SIZE == 0
    ensures m.PageEnd() % PAGE_SIZE == 0
  {
  }

  lemma HereAligned(s: System, k: nat)
    requires Paged(s) && k < |s.Here().memory|
    ensures s.Here().memory[k].phys % PAGE_SIZE == 0
  {
    hide Laid;
    assert Good(|s.pages|, s.SpaceOf(s.cur));
  }

  lemma BrkPages(s: System, addr: nat, r: nat, u: Clusters, z: System)
    requires Paged(s) && Answered(s, Brk(addr), r, u, z)
    ensures Paged(z) <==> Room(s, Brk(addr), r)
  {
    hide Laid, Good, Clean, CleanDrops, Unmapped, Mapped, Fits;
    var ms, n := s.Here().memory, |s.pages|;
    var k := |ms| - 1;
    SwitchLays(n, s.Here(), z.Here());
    if Resizes(ms, addr) {
      var m := Moved(ms[k], r, addr - ms[k].virt);
      HereAligned(s, k);
      AnswerAligned(s.clusters, ms[k].phys, addr - ms[k].virt, r, u);
      ChangeSpaces(s, k, m, z);
    } else {
      IdlePages(s, s.With(Clean(ms), s.pages, CleanDrops(s.clusters, ms)));
    }
  }

  lemma SwitchPages(s: System, to: nat, r: nat, u: Clusters, z: System)
    requires Paged(s) && Answered(s, Switch(to), r, u, z)
    ensures Paged(z)
  {
    hide Laid, Good, Unmapped, Mapped;
    SwitchLays(|s.pages|, s.Here(), z.Here());
    forall i | 0 <= i < |s.stacks|
      ensures Good(|z.pages|, z.SpaceOf(i))
    {
      assert z.SpaceOf(i) == s.SpaceOf(i);
    }
  }

  /** A call leaves the page table right and the spaces good exactly when there was room. */
  lemma StepPages(s: System, c: Call, r: nat, u: Clusters, z: System)
    requires Paged(s) && Answered(s, c, r, u, z)
    ensures Paged(z) <==> Room(s, c, r)
  {
    hide Laid, Good, Clean, CleanDrops, Unmapped, Mapped, Fits;
    var ms := s.Here().memory;
    match c
    case Switch(to) => SwitchPages(s, to, r, u, z);
    case Alloc(size) => AllocPages(s, size, r, u, z);
    case Brk(addr) => BrkPages(s, addr, r, u, z);
    case Unalloc(ptr) =>
      var k := Find(ms, ptr);
      if k < |ms| {
        ChangePages(s, k, ms[k].(size := 0), u);
      } else {
        IdlePages(s, z);
      }
    case Inplace(ptr, size) =>
      var k := Find(ms, ptr);
      if k < |ms| {
        ChangePages(s, k, ms[k].(size := r), u);
      } else {
        IdlePages(s, z);
      }
    case Realloc(ptr, size) =>
      var k := Find(ms, ptr);
      if k < |ms| {
        HereAligned(s, k);
        AnswerAligned(s.clusters, ms[k].phys, size, r, u);
        ChangePages(s, k, Moved(ms[k], r, size), u);
      } else {
        IdlePages(s, z);
      }
  }

  /** A mapping that stays within the pages it holds always has room. */
  lemma RoomWithinPages(s: System, k: nat, m: Mapping)
    requires Paged(s) && k < |s.Here().memory| && m.virt == s.Here().memory[k].virt
    requires m.phys % PAGE_SIZE == 0 && 0 < m.size && m.PageEnd() <= s.Here().memory[k].PageEnd()
    ensures FitsAll(s, k, m)
  {
    hide Laid;
    forall i | 0 <= i < |s.stacks| && s.uses[i] == s.uses[s.cur]
      ensures Fits(|s.pages|, s.SpaceOf(i), k, m)
    {
      assert Good(|s.pages|, s.SpaceOf(i)) && s.SpaceOf(i).memory == s.Here().memory;
      assert s.SpaceOf(i).memory[k].Proper(|s.pages| * PAGE_SIZE);
    }
  }

  // ---------------------------------------------------------------- runs

  /** A run of switches and calls, each with room for what it maps. */
  ghost predicate IsRun(states: seq<System>, calls: seq<Call>) {
    && |states| == |calls| + 1
    && forall k :: 0 <= k < |calls| ==> states[k].Shaped() && RoomyStep(states[k], calls[k], states[k + 1])
  }

  ghost predicate RoomyStep(s: System, c: Call, z: System)
    requires s.Shaped()
  {
    exists r, u :: Answered(s, c, r, u, z) && Room(s, c, r)
  }

  /** After every step of a run the page table is the identity overlaid with the current context's
      mappings, and these are sorted and page-disjoint. */
  lemma {:induction false} RunPaged(states: seq<System>, calls: seq<Call>)
    requires IsRun(states, calls) && Paged(states[0])
    ensures forall k :: 0 <= k < |states| ==> Paged(states[k])
    decreases |calls|
  {
    hide Answered, Room, Paged, System.Shaped;
    if calls != [] {
      var n := |calls| - 1;
      RunPaged(states[..n + 1], calls[..n]);
      assert Paged(states[..n + 1][n]);
      var r, u :| Answered(states[n], calls[n], r, u, states[n + 1]) && Room(states[n], calls[n], r);
      StepPages(states[n], calls[n], r, u, states[n + 1]);
      assert forall k :: 0 <= k < |states| ==> k == n + 1 || states[k] == states[..n + 1][k];
    }
  }

  /** For the current context `translate` agrees with the page table on every single address it accepts,
      and on a range exactly when all its pages lead as far as its start does. */
  lemma PagedTranslates(s: System, ptr: nat, len: nat, d: int)
    requires Paged(s) && Answers(s.Here(), ptr, len, d)
    ensures (forall a :: ptr <= a < ptr + len ==> TableShifts(s, a, d))
            <==> (forall p: nat :: Touches(ptr, len, p) ==> p < |s.pages| && PageShifts(s.Here(), p, d))
    ensures len == 1 ==> TableShifts(s, ptr, d)
  {
    hide Laid, Good, PageShifts, Touches;
    var n := |s.pages|;
    assert Good(n, s.SpaceOf(s.cur));
    TranslateAgrees(n, s.Here(), ptr, len, d);
    forall a | ptr <= a < ptr + len
      ensures TableShifts(s, a, d) <==> ByteShifts(n, s.Here(), a, d)
    {
    }
    if len == 1 {
      TranslateInside(n, s.Here(), ptr, len, d);
      assert ByteShifts(n, s.Here(), ptr, d);
    }
  }

  /** The page table shows, at the virtual address `a`, the physical byte `d` further on. */
  predicate TableShifts(s: System, a: nat, d: int) {
    a / PAGE_SIZE < |s.pages| && Shown(s.pages, a) == a + d
  }
}
