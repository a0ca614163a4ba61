/** The memory calls as they run: loops over the page table, the cluster table and the mapping lists
    (kernel/arch/context.rs, kernel/syscall/memory.rs). */
module MemorySyscalls {
  import opened Common
  import opened AddressSpace
  import opened MemoryCalls
  import Allocator
  import PhysicalMemory

  class Machine {
    const pages: array<Entry>
    const physical: PhysicalMemory.Memory
    var stacks: seq<Option<Mapping>>
    var uses: seq<nat>
    var memories: seq<seq<Mapping>>
    var cur: nat

    ghost predicate Valid()
      reads this, physical.clusters
    {
      physical.Valid() && Sys0().Shaped() && Allocator.WellFormed(physical.Table())
    }

    /** All but the page table. */
    ghost function Sys0(): System
      reads this, physical.clusters
    {
      System(physical.Table(), [], stacks, uses, memories, cur)
    }

    ghost function Sys(): System
      reads this, pages, physical.clusters
    {
      Sys0().(pages := pages[..])
    }

    constructor (pages: array<Entry>, physical: PhysicalMemory.Memory,
                 stacks: seq<Option<Mapping>>, uses: seq<nat>, memories: seq<seq<Mapping>>, cur: nat)
      requires physical.Valid() && Allocator.WellFormed(physical.Table())
      requires System([], [], stacks, uses, memories, cur).Shaped()
      ensures Valid() && Sys() == System(physical.Table(), pages[..], stacks, uses, memories, cur)
    {
      this.pages, this.physical := pages, physical;
      this.stacks, this.uses, this.memories, this.cur := stacks, uses, memories, cur;
    }

    /** Write one page's entry; there are no pages past the end of the table. */
    method SetPage(p: nat, e: Entry)
      modifies pages
      ensures forall q :: 0 <= q < pages.Length ==> pages[q] == if q == p then e else old(pages[q])
    {
      if p < pages.Length {
        pages[p] := e;
      }
    }

    /** `ContextMemory::map`. */
    method MapMemory(m: Mapping)
      modifies pages
      ensures pages[..] == MapOn(old(pages[..]), m)
    {
      for i := 0 to m.Pages()
        invariant forall p :: 0 <= p < pages.Length ==>
                    pages[p] == if m.HasPage(p) && p < m.FirstPage() + i then m.EntryAt(p) else old(pages[p])
      {
        SetPage((m.virt + i * PAGE_SIZE) / PAGE_SIZE,
                Entry((m.phys + i * PAGE_SIZE) / PAGE_SIZE * PAGE_SIZE, m.writeable, true));
      }
    }

    /** `ContextMemory::unmap`. */
    method UnmapMemory(m: Mapping)
      modifies pages
      ensures pages[..] == UnmapOn(old(pages[..]), m)
    {
      for i := 0 to m.Pages()
        invariant forall p :: 0 <= p < pages.Length ==>
                    pages[p] == if m.HasPage(p) && p < m.FirstPage() + i then Identity(p) else old(pages[p])
      {
        var page := m.virt + i * PAGE_SIZE;
        SetPage(page / PAGE_SIZE, Entry(page / PAGE_SIZE * PAGE_SIZE, true, false));
      }
    }

    /** `Context::map`. */
    method MapSpace(s: Space)
      modifies pages
      ensures pages[..] == Mapped(old(pages[..]), s)
    {
      if s.stack.Some? {
        MapMemory(s.stack.value);
      }
      for j := 0 to |s.memory|
        invariant MapAll(pages[..], s.memory[j..]) == Mapped(old(pages[..]), s)
      {
        MapMemory(s.memory[j]);
        assert s.memory[j..][1..] == s.memory[j + 1..];
      }
    }

    /** `Context::unmap`. */
    method UnmapSpace(s: Space)
      modifies pages
      ensures pages[..] == Unmapped(old(pages[..]), s)
    {
      for j := 0 to |s.memory|
        invariant UnmapAll(pages[..], s.memory[j..]) == UnmapAll(old(pages[..]), s.memory)
      {
        UnmapMemory(s.memory[j]);
        assert s.memory[j..][1..] == s.memory[j + 1..];
      }
      if s.stack.Some? {
        UnmapMemory(s.stack.value);
      }
    }

    /** The part of `context_switch` that changes the address space. */
    method SwitchTo(to: nat)
      requires Valid() && to < |stacks|
      modifies this, pages
      ensures Valid() && Runs(old(Sys()), Switch(to), 0, Sys(), physical.ram[..], physical.ram[..])
    {
      ghost var s := Sys();
      hide OthersKeep, MapAll, UnmapAll, Mapped, Unmapped, Allocator.WellFormed;
      UnmapSpace(Space(stacks[cur], memories[uses[cur]]));
      cur := to;
      MapSpace(Space(stacks[cur], memories[uses[cur]]));
      OthersKeepAll(s.clusters, physical.ram[..]);
      assert Answered(s, Switch(to), 0, s.clusters, Sys());
    }

    method NextAddress() returns (a: nat)
      requires Valid()
      ensures a == NextMem(memories[uses[cur]])
    {
      hide NextMem, Allocator.WellFormed;
      var ms := memories[uses[cur]];
      a := 0;
      for j := 0 to |ms|
        invariant a == NextMem(ms[..j])
      {
        var end := ms[j].virt + (ms[j].size + 4095) / 4096 * 4096;
        if a < end {
          a := end;
        }
      }
      assert ms[..|ms|] == ms;
    }

    /** `get_mem_mut`: the index of the mapping at `ptr`. */
    method Lookup(ptr: nat) returns (k: nat)
      requires Valid()
      ensures k == Find(memories[uses[cur]], ptr)
    {
      var ms := memories[uses[cur]];
      k := 0;
      while k < |ms|
        invariant k <= |ms| && k + Find(ms[k..], ptr) == Find(ms, ptr)
      {
        if ms[k].virt == ptr {
          return;
        }
        assert ms[k..][1..] == ms[k + 1..];
        k := k + 1;
      }
    }

    /** `clean_mem`: keep the mappings that are not empty, dropping the others in order. */
    method CleanMemory()
      requires Valid() && forall m :: m in memories[uses[cur]] ==> m.phys != Allocator.NOT_PRESENT
      modifies this`memories, physical.clusters
      ensures Valid() && |memories| == |old(memories)|
      ensures memories == old(memories)[uses[cur] := Clean(old(memories)[uses[cur]])]
      ensures physical.Table() == CleanDrops(old(physical.Table()), old(memories)[uses[cur]])
    {
      hide Clean, CleanDrops, Allocator.WellFormed, Allocator.Unalloced;
      var ms := memories[uses[cur]];
      var kept := [];
      for j := 0 to |ms|
        invariant kept + Clean(ms[j..]) == Clean(ms)
        invariant CleanDrops(physical.Table(), ms[j..]) == CleanDrops(old(physical.Table()), ms)
        invariant Valid() && unchanged(this)
      {
        CleanStep(physical.Table(), ms, j);
        if ms[j].size > 0 {
          kept := kept + [ms[j]];
        } else if ms[j].owned {
          Allocator.UnallocKeeps(physical.Table(), ms[j].phys);
          physical.Free(ms[j].phys);
        }
      }
      CleanNone(physical.Table(), ms[|ms|..]);
      assert kept == Clean(ms);
      memories := memories[uses[cur] := kept];
    }

    /** The allocator's `realloc`, on the block of mapping `k`. */
    method Reallocate(k: nat, size: nat) returns (answer: nat)
      requires Valid() && k < |memories[uses[cur]]| && memories[uses[cur]][k].phys % PAGE_SIZE == 0
      modifies physical.clusters, physical.ram
      ensures Valid() && answer % PAGE_SIZE == 0
      ensures Allocator.ReallocStep(old(physical.Table()), memories[uses[cur]][k].phys, size, answer, physical.Table())
      ensures answer > 0 ==>
                PhysicalMemory.BlockMoves(old(physical.Table()), memories[uses[cur]][k].phys, answer, size,
                                          old(physical.ram[..]), physical.ram[..])
      ensures OthersKeep(old(physical.Table()), old(physical.ram[..]), physical.ram[..])
    {
      hide PhysicalMemory.BlockMoves, Allocator.ReallocStep, Allocator.WellFormed, Allocator.AllocSize;
      hide PhysicalMemory.Holds;
      ghost var t := physical.Table();
      var p := memories[uses[cur]][k].phys;
      answer := physical.Reallocate(p, size);
      AnswerAligned(t, p, size, answer, physical.Table());
    }

    /** The middle of `brk`: resize the last mapping, if it is the program's own. */
    method ResizeLast(addr: nat, next: nat) returns (ghost r: nat, ret: nat)
      requires Valid() && forall m :: m in memories[uses[cur]] ==> m.phys % PAGE_SIZE == 0
      requires next == NextMem(memories[uses[cur]])
      modifies this`memories, physical.clusters, physical.ram
      ensures Valid() && ret == Result(old(Sys0()), Call.Brk(addr), r)
      ensures forall m :: m in memories[uses[cur]] ==> m.phys != Allocator.NOT_PRESENT
      ensures var ms := old(memories)[uses[cur]];
              if Resizes(ms, addr) then
                && Allocator.ReallocStep(old(physical.Table()), ms[|ms| - 1].phys, addr - ms[|ms| - 1].virt, r,
                                         physical.Table())
                && memories == old(memories)[uses[cur] :=
                                               ms[|ms| - 1 := Moved(ms[|ms| - 1], r, addr - ms[|ms| - 1].virt)]]
              else r == 0 && physical.Table() == old(physical.Table()) && memories == old(memories)
      ensures Carried(old(Sys0()), Call.Brk(addr), r, old(physical.ram[..]), physical.ram[..])
      ensures OthersKeep(old(physical.Table()), old(physical.ram[..]), physical.ram[..])
    {
      hide PhysicalMemory.BlockMoves, OthersKeep, NextMem, Allocator.WellFormed, Allocator.ReallocStep;
      hide Allocator.SameMarkers;
      var ms := memories[uses[cur]];
      r, ret := 0, next;
      OthersKeepAll(physical.Table(), physical.ram[..]);
      var k := |ms| - 1;
      if ms != [] && ms[k].writeable && ms[k].owned && addr >= ms[k].virt {
        var size := addr - ms[k].virt;
        var answer := Reallocate(k, size);
        r := answer;
        if answer > 0 {
          memories := memories[uses[cur] := ms[k := ms[k].(phys := answer, size := size)]];
          ret := ms[k].virt + size;
        } else {
          memories := memories[uses[cur] := ms[k := ms[k].(size := 0)]];
        }
      }
    }

    /** `brk`. */
    method Brk(addr: nat) returns (ret: nat)
      requires Valid() && Paged(Sys())
      modifies this`memories, pages, physical.clusters, physical.ram
      ensures Valid() && Runs(old(Sys()), Call.Brk(addr), ret, Sys(), old(physical.ram[..]), physical.ram[..])
    {
      hide Resizes, Moved, OthersKeep, Carried, Result, MapAll, UnmapAll, Mapped, Unmapped, Clean, CleanDrops;
      hide NextMem, Paged, Allocator.WellFormed, Allocator.ReallocStep;
      ghost var s := Sys();
      HerePhys(s);
      UnmapSpace(Space(stacks[cur], memories[uses[cur]]));
      var next := NextAddress();
      OnlyPagesDiffer(s, Sys0(), addr);
      ghost var r;
      r, ret := ResizeLast(addr, next);
      ghost var u := physical.Table();
      CleanMemory();
      MapSpace(Space(stacks[cur], memories[uses[cur]]));
      assert Answered(s, Call.Brk(addr), r, u, Sys());
    }

    method Alloc(size: nat) returns (ret: nat)
      requires Valid()
      modifies this`memories, pages, physical.clusters, physical.ram
      ensures Valid() && Runs(old(Sys()), Call.Alloc(size), ret, Sys(), old(physical.ram[..]), physical.ram[..])
    {
      hide Zeroed, OthersKeep, NextMem, MapOn, Allocator.WellFormed, Allocator.AllocStep;
      ghost var s := Sys();
      ret := 0;
      var answer := AllocZeroed(size);
      if answer > 0 {
        ret := NextAddress();
        var m := Mapping(answer, ret, size, true, true);
        MapMemory(m);
        memories := memories[uses[cur] := memories[uses[cur]] + [m]];
      }
      assert Answered(s, Call.Alloc(size), answer, physical.Table(), Sys());
    }

    /** The allocator's `alloc`. */
    method AllocZeroed(size: nat) returns (answer: nat)
      requires Valid()
      modifies physical.clusters, physical.ram
      ensures Valid() && Allocator.AllocStep(old(physical.Table()), size, 1, answer, physical.Table())
      ensures answer > 0 ==> Zeroed(answer, size, physical.ram[..])
      ensures OthersKeep(old(physical.Table()), old(physical.ram[..]), physical.ram[..])
    {
      hide Allocator.WellFormed, Allocator.AllocStep, PhysicalMemory.Holds;
      ghost var t := physical.Table();
      answer := physical.AllocAligned(size, 1);
      Allocator.AllocKeeps(t, size, 1, answer, physical.Table());
      if answer > 0 {
        AnswerAligned(t, 0, size, answer, physical.Table());
        PhysicalMemory.AllocIsApart(t, size, answer, physical.Table(), 0);
      }
    }

    /** The middle of `realloc`: one mapping, unmapped, moved and mapped again. */
    method MoveMapping(k: nat, size: nat) returns (answer: nat)
      requires Valid() && k < |memories[uses[cur]]| && memories[uses[cur]][k].phys % PAGE_SIZE == 0
      modifies this`memories, pages, physical.clusters, physical.ram
      ensures Valid() && answer % PAGE_SIZE == 0
      ensures var was := old(memories)[uses[cur]];
              && Allocator.ReallocStep(old(physical.Table()), was[k].phys, size, answer, physical.Table())
              && memories == old(memories)[uses[cur] := was[k := Moved(was[k], answer, size)]]
              && pages[..] == Patched(old(pages[..]), was[k], Moved(was[k], answer, size))
              && (answer > 0 ==>
                    PhysicalMemory.BlockMoves(old(physical.Table()), was[k].phys, answer, size,
                                              old(physical.ram[..]), physical.ram[..]))
      ensures OthersKeep(old(physical.Table()), old(physical.ram[..]), physical.ram[..])
    {
      hide PhysicalMemory.BlockMoves, OthersKeep, Allocator.WellFormed, Allocator.ReallocStep, MapOn, UnmapOn;
      var m := memories[uses[cur]][k];
      UnmapMemory(m);
      answer := Reallocate(k, size);
      if answer > 0 {
        m := m.(phys := answer, size := size);
      } else {
        m := m.(size := 0);
      }
      MapMemory(m);
      memories := memories[uses[cur] := memories[uses[cur]][k := m]];
    }

    method Realloc(ptr: nat, size: nat) returns (ret: nat)
      requires Valid() && Paged(Sys())
      modifies this`memories, pages, physical.clusters, physical.ram
      ensures Valid() && Runs(old(Sys()), Call.Realloc(ptr, size), ret, Sys(), old(physical.ram[..]), physical.ram[..])
    {
      hide PhysicalMemory.BlockMoves, OthersKeep, Patched, Clean, CleanDrops, Paged, Allocator.WellFormed;
      hide Allocator.ReallocStep;
      ghost var s := Sys();
      ret := 0;
      HerePhys(s);
      OthersKeepAll(s.clusters, physical.ram[..]);
      var k := Lookup(ptr);
      ghost var r := 0;
      if k < |memories[uses[cur]]| {
        var answer := MoveMapping(k, size);
        r := answer;
        if answer > 0 {
          ret := ptr;
        }
      }
      ghost var u := physical.Table();
      CleanMemory();
      assert Answered(s, Call.Realloc(ptr, size), r, u, Sys());
    }

    /** The middle of `realloc_inplace`: at most what the block holds. */
    method ResizeMapping(k: nat, size: nat) returns (ret: nat)
      requires Valid() && k < |memories[uses[cur]]|
      modifies this`memories, pages
      ensures Valid()
      ensures var was := old(memories)[uses[cur]];
              && ret == Min(size, Allocator.AllocSize(physical.Table(), was[k].phys))
              && memories == old(memories)[uses[cur] := was[k := was[k].(size := ret)]]
              && pages[..] == Patched(old(pages[..]), was[k], was[k].(size := ret))
    {
      hide Allocator.WellFormed, Allocator.AllocSize, MapOn, UnmapOn;
      var m := memories[uses[cur]][k];
      UnmapMemory(m);
      var held := physical.SizeOf(m.phys);
      ret := if size <= held then size else held;
      m := m.(size := ret);
      MapMemory(m);
      memories := memories[uses[cur] := memories[uses[cur]][k := m]];
    }

    method ReallocInplace(ptr: nat, size: nat) returns (ret: nat)
      requires Valid() && Paged(Sys())
      modifies this`memories, pages, physical.clusters
      ensures Valid() && Runs(old(Sys()), Inplace(ptr, size), ret, Sys(), physical.ram[..], physical.ram[..])
    {
      hide OthersKeep, Patched, Clean, CleanDrops, Paged, Allocator.WellFormed, Allocator.AllocSize;
      ghost var s := Sys();
      HerePhys(s);
      OthersKeepAll(s.clusters, physical.ram[..]);
      ret := 0;
      var k := Lookup(ptr);
      if k < |memories[uses[cur]]| {
        ret := ResizeMapping(k, size);
      }
      CleanMemory();
      assert Answered(s, Inplace(ptr, size), ret, s.clusters, Sys());
    }

    method Unalloc(ptr: nat)
      requires Valid() && Paged(Sys())
      modifies this`memories, pages, physical.clusters
      ensures Valid() && Runs(old(Sys()), Call.Unalloc(ptr), 0, Sys(), physical.ram[..], physical.ram[..])
    {
      hide OthersKeep, Clean, CleanDrops, Paged, Allocator.WellFormed;
      ghost var s := Sys();
      HerePhys(s);
      OthersKeepAll(s.clusters, physical.ram[..]);
      var k := Lookup(ptr);
      if k < |memories[uses[cur]]| {
        var m := memories[uses[cur]][k];
        UnmapMemory(m);
        m := m.(size := 0);
        memories := memories[uses[cur] := memories[uses[cur]][k := m]];
      }
      CleanMemory();
      assert Answered(s, Call.Unalloc(ptr), 0, s.clusters, Sys());
    }
  }

  predicate Zeroed(r: nat, size: nat, now: Bytes) {
    forall a :: r <= a < r + size ==> a < |now| && now[a] == 0
  }

  /** No byte of any allocation changed. */
  ghost predicate OthersKeep(t: Clusters, was: Bytes, now: Bytes) {
    && |was| == |now|
    && forall a, p: nat :: 0 <= a < |was| && Allocator.Used(p) && PhysicalMemory.Holds(t, a, p) ==> now[a] == was[a]
  }

  lemma OthersKeepAll(t: Clusters, ram: Bytes)
    ensures OthersKeep(t, ram, ram)
  {
  }

  /** The memory behind a call's mapping: new memory is zero, moved memory keeps its bytes. */
  ghost predicate Carried(s: System, c: Call, r: nat, was: Bytes, now: Bytes)
    requires s.Shaped()
  {
    var ms := s.Here().memory;
    match c
    case Alloc(size) => r > 0 ==> Zeroed(r, size, now)
    case Realloc(ptr, size) =>
      var k := Find(ms, ptr);
      k < |ms| && r > 0 ==> PhysicalMemory.BlockMoves(s.clusters, ms[k].phys, r, size, was, now)
    case Brk(addr) =>
      Resizes(ms, addr) && r > 0 ==>
          PhysicalMemory.BlockMoves(s.clusters, ms[|ms| - 1].phys, r, addr - ms[|ms| - 1].virt, was, now)
    case Switch(_) => true
    case Inplace(_, _) => true
    case Unalloc(_) => true
  }

  /** What a call returns. */
  function Result(s: System, c: Call, r: nat): nat
    requires s.Shaped()
  {
    var ms := s.Here().memory;
    match c
    case Switch(_) => 0
    case Alloc(_) => if r > 0 then NextMem(ms) else 0
    case Realloc(ptr, _) => if r > 0 then ptr else 0
    case Inplace(_, _) => r
    case Unalloc(_) => 0
    case Brk(addr) => if Resizes(ms, addr) && r > 0 then addr else NextMem(ms)
  }

  /** A call ran: `Answered` for some allocator answer, its bytes carried, everyone else's kept. */
  ghost predicate Runs(s: System, c: Call, ret: nat, z: System, was: Bytes, now: Bytes)
    requires s.Shaped()
  {
    && OthersKeep(s.clusters, was, now)
    && exists r: nat, u: Clusters :: Answered(s, c, r, u, z) && ret == Result(s, c, r) && Carried(s, c, r, was, now)
  }

  /** The page table has no say in what a call returns or carries. */
  lemma OnlyPagesDiffer(s: System, t: System, addr: nat)
    requires s.Shaped() && t == s.(pages := t.pages)
    ensures forall r :: Result(s, Brk(addr), r) == Result(t, Brk(addr), r)
    ensures forall r, was, now :: Carried(s, Brk(addr), r, was, now) == Carried(t, Brk(addr), r, was, now)
  {
  }

  lemma HerePhys(s: System)
    requires Paged(s)
    ensures forall m :: m in s.Here().memory ==> m.phys != Allocator.NOT_PRESENT && m.phys % PAGE_SIZE == 0
  {
    hide Laid;
    assert Good(|s.pages|, s.SpaceOf(s.cur));
  }

  lemma CleanStep(u: Clusters, ms: seq<Mapping>, j: nat)
    requires j < |ms|
    ensures Clean(ms[j..]) == (if ms[j].size > 0 then [ms[j]] else []) + Clean(ms[j + 1..])
    ensures var now := if ms[j].size == 0 && ms[j].owned then Allocator.Unalloced(u, ms[j].phys) else u;
            CleanDrops(u, ms[j..]) == CleanDrops(now, ms[j + 1..])
  {
    assert ms[j..][1..] == ms[j + 1..];
  }

  lemma CleanNone(u: Clusters, ms: seq<Mapping>)
    requires ms == []
    ensures Clean(ms) == [] && CleanDrops(u, ms) == u
  {
  }
}
