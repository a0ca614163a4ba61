/** Whose memory a lent window shows while its call waits (kernel/fs/scheme.rs, lines 137-224,
    kernel/syscall/memory.rs).

    A window is lent from a block its client owns.  It stays inside that block until a thread with the
    client's memory frees or moves it, or a program that was lent the block's beginning reallocates that
    window, which frees the block under its owner.  Nothing else takes the block away. */
module LentWindows {
  import opened Common
  import opened AddressSpace
  import opened MemoryCalls
  import opened Ownership
  import SchemeRpc
  import PhysicalMemory
  import Allocator

  /** A context's stack, or a program memory. */
  datatype Home = StackOf(i: nat) | MemoryOf(g: nat)

  predicate Lives(s: System, home: Home, m: Mapping) {
    match home
    case StackOf(i) => i < |s.stacks| && s.stacks[i] == Some(m)
    case MemoryOf(g) => g < |s.memories| && m in s.memories[g]
  }

  ghost predicate OwnsBlock(s: System, home: Home, p: nat) {
    exists m :: Lives(s, home, m) && m.owned && m.phys == p
  }

  /** The pages of `w` lie inside the block at `p`. */
  predicate Inside(t: Clusters, w: Mapping, p: nat) {
    p <= w.phys && w.phys + w.Pages() * PAGE_SIZE <= p + Allocator.AllocSize(t, p)
  }

  /** The memory `g` holds the window `w`, which lies in the block at `p` that is `home`'s. */
  ghost predicate Lends(s: System, home: Home, p: nat, g: nat, w: Mapping) {
    && OwnsBlock(s, home, p)
    && Lives(s, MemoryOf(g), w) && !w.owned && w.size > 0
    && Inside(s.clusters, w, p)
  }

  /** No two mappings own the block at `p`, whatever has become of other blocks. */
  ghost predicate OneOwner(s: System, p: nat) {
    && Allocator.WellFormed(s.clusters) && Allocator.Used(p)
    && forall x, y :: Owns(s, x) && Owns(s, y) && At(s, x).phys == p && At(s, y).phys == p ==> x == y
  }

  // ---------------------------------------------------------------- what a window shows

  lemma BlockPlace(s: System, home: Home, p: nat) returns (x: Place)
    requires OwnsBlock(s, home, p)
    ensures Owns(s, x) && At(s, x).phys == p
    ensures match home case StackOf(i) => x == OfStack(i) case MemoryOf(g) => x.InMemory? && x.g == g
  {
    var m :| Lives(s, home, m) && m.owned && m.phys == p;
    x := PlaceOf(s, home, m);
  }

  lemma PlaceOf(s: System, home: Home, m: Mapping) returns (x: Place)
    requires Lives(s, home, m)
    ensures Has(s, x) && At(s, x) == m
    ensures match home case StackOf(i) => x == OfStack(i) case MemoryOf(g) => x.InMemory? && x.g == g
  {
    match home
    case StackOf(i) => x := OfStack(i);
    case MemoryOf(g) =>
      var k :| 0 <= k < |s.memories[g]| && s.memories[g][k] == m;
      x := InMemory(g, k);
  }

  lemma WindowFrame(w: Mapping, p: nat)
    requires w.HasPage(p) && w.phys % PAGE_SIZE == 0
    ensures w.phys <= w.EntryAt(p).frame < w.phys + w.Pages() * PAGE_SIZE
  {
    assert w.EntryAt(p).frame == w.phys + (p - w.FirstPage()) * PAGE_SIZE;
  }

  /** Whatever a window shows is its lender's: an owned page with one of its frames is a page of the very
      mapping it was lent from. */
  lemma WindowOwner(s: System, home: Home, block: nat, g: nat, w: Mapping, p: nat, x: Place, q: nat)
    requires Backed(s) && Lends(s, home, block, g, w) && w.HasPage(p) && w.phys % PAGE_SIZE == 0
    requires Owns(s, x) && At(s, x).HasPage(q) && At(s, x).phys % PAGE_SIZE == 0
    requires At(s, x).EntryAt(q).frame == w.EntryAt(p).frame
    ensures At(s, x).phys == block
    ensures match home case StackOf(i) => x == OfStack(i) case MemoryOf(h) => x.InMemory? && x.g == h
  {
    hide Allocator.WellFormed, Allocator.AllocSize, PhysicalMemory.Holds, Mapping.HasPage, Mapping.EntryAt;
    hide Mapping.Pages;
    FrameOwned(s.clusters, At(s, x), q);
    var y := BlockPlace(s, home, block);
    assert Covered(s.clusters, At(s, y));
    PhysicalMemory.SizeInMemory(s.clusters, block);
    WindowFrame(w, p);
    assert PhysicalMemory.Holds(s.clusters, w.EntryAt(p).frame, block);
    HoldsOne(s.clusters, w.EntryAt(p).frame, block, At(s, x).phys);
  }

  lemma HoldsOne(t: Clusters, a: nat, p: nat, q: nat)
    requires PhysicalMemory.Holds(t, a, p) && PhysicalMemory.Holds(t, a, q)
    ensures p == q
  {
  }

  // ---------------------------------------------------------------- one memory call

  /** The mapping a call is about. */
  function Target(s: System, c: Call): (k: Option<nat>)
    requires s.Shaped()
    ensures k.Some? ==> k.value < |s.Here().memory|
  {
    var ms := s.Here().memory;
    var k := match c
             case Realloc(ptr, _) => Find(ms, ptr)
             case Inplace(ptr, _) => Find(ms, ptr)
             case Unalloc(ptr) => Find(ms, ptr)
             case Brk(addr) => if Resizes(ms, addr) then |ms| - 1 else |ms|
             case Switch(_) => |ms|
             case Alloc(_) => |ms|;
    if k < |ms| then Some(k) else None
  }

  /** The size a call asks for; `realloc_inplace` takes what the block has. */
  function Asked(s: System, c: Call, m: Mapping): nat {
    match c
    case Realloc(_, size) => size
    case Inplace(_, size) => Min(size, Allocator.AllocSize(s.clusters, m.phys))
    case Brk(addr) => if addr >= m.virt then addr - m.virt else 0
    case _ => 0
  }

  /** What is asked for is something, and the mapping's block has it. */
  predicate Stays(s: System, c: Call, m: Mapping) {
    0 < Asked(s, c, m) <= Allocator.AllocSize(s.clusters, m.phys)
  }

  /** The mapping a call is about, afterwards; the allocator has answered `r`. */
  function Becoming(s: System, c: Call, r: nat, m: Mapping): (now: Mapping)
    ensures now.virt == m.virt && now.owned == m.owned
  {
    match c
    case Inplace(_, _) => m.(size := r)
    case Unalloc(_) => m.(size := 0)
    case _ => Moved(m, r, Asked(s, c, m))
  }

  lemma TargetChanged(s: System, c: Call, r: nat, u: Clusters, z: System)
    requires Paged(s) && Answered(s, c, r, u, z) && Target(s, c).Some?
    ensures var k := Target(s, c).value;
            var m := Becoming(s, c, r, s.Here().memory[k]);
            && z.stacks == s.stacks
            && z.memories == s.memories[s.uses[s.cur] :=
                                          if m.size > 0 then s.Here().memory[k := m] else Without(s.Here().memory, k)]
            && z.clusters == if m.size == 0 then Dropped(u, m) else u
  {
    hide Laid, Clean, CleanDrops, Unmapped, Mapped, Patched, Allocator.AllocSize, Allocator.ReallocStep;
    var k := Target(s, c).value;
    var ms := s.Here().memory;
    var m := Becoming(s, c, r, ms[k]);
    assert Good(|s.pages|, s.SpaceOf(s.cur));
    ChangedClean(ms, k, m, |s.pages|, s.Here());
    Ownership.CleanDropsOne(u, ms, k, m);
  }

  lemma NothingAtZero(t: Clusters)
    ensures Allocator.AllocSize(t, 0) == 0
  {
  }

  /** `realloc` answers with nothing, the block it was given, or one that was free. */
  lemma MovesToFree(t: Clusters, p: nat, size: nat, r: nat, u: Clusters)
    requires Allocator.WellFormed(t) && Allocator.ReallocStep(t, p, size, r, u)
    ensures r == 0 || r == p || Allocator.AllocSize(t, r) == 0
  {
    hide Allocator.WellFormed, Allocator.AllocStep, Allocator.Unalloced, Allocator.AllocSize;
    if size > 0 && size > Allocator.AllocSize(t, p) {
      var v :| Allocator.AllocStep(t, size, 1, r, v) && u == Allocator.Unalloced(v, p);
      AllocSpares(t, size, r, v);
    }
  }

  /** The block of the mapping a call is about, as the allocator leaves it: it stays with what is asked for,
      or it is gone or to be dropped.  No other block changes. */
  lemma TargetBlock(s: System, c: Call, r: nat, u: Clusters, z: System)
    requires Paged(s) && Allocator.WellFormed(s.clusters) && Answered(s, c, r, u, z) && Target(s, c).Some?
    requires s.Here().memory[Target(s, c).value].phys != Allocator.NOT_PRESENT
    ensures var m := s.Here().memory[Target(s, c).value];
            var now := Becoming(s, c, r, m);
            && Allocator.WellFormed(u)
            && (forall q :: Allocator.Used(q) && q != m.phys && Allocator.AllocSize(s.clusters, q) > 0 ==>
                  Allocator.AllocSize(u, q) == Allocator.AllocSize(s.clusters, q))
            && (now.size == 0 ==> now.phys == m.phys)
            && (now.phys == m.phys || Allocator.AllocSize(s.clusters, now.phys) == 0)
            && (Stays(s, c, m) ==> u == s.clusters && now.size > 0 && now.phys == m.phys)
            && (if c.Inplace? || c.Unalloc? then u == s.clusters && (!Stays(s, c, m) ==> now.size == 0)
                else !Stays(s, c, m) && Allocator.Used(m.phys) ==> Allocator.AllocSize(u, m.phys) == 0)
  {
    hide Laid, Clean, CleanDrops, Unmapped, Mapped, Patched, Changed;
    hide Allocator.WellFormed, Allocator.AllocSize, Allocator.AllocStep, Allocator.Unalloced;
    var m := s.Here().memory[Target(s, c).value];
    NothingAtZero(s.clusters);
    if c.Realloc? || c.Brk? {
      ReallocFrees(s.clusters, m.phys, Asked(s, c, m), r, u);
      MovesToFree(s.clusters, m.phys, Asked(s, c, m), r, u);
    }
  }

  /** What a call about no mapping does. */
  lemma NoTarget(s: System, c: Call, r: nat, u: Clusters, z: System)
    requires Paged(s) && Allocator.WellFormed(s.clusters) && Answered(s, c, r, u, z) && Target(s, c).None?
    ensures z.stacks == s.stacks && Allocator.WellFormed(z.clusters)
    ensures z.memories == s.memories
            || exists m :: z.memories == s.memories[s.uses[s.cur] := s.Here().memory + [m]]
                           && Allocator.AllocSize(s.clusters, m.phys) == 0
    ensures forall q :: Allocator.Used(q) && Allocator.AllocSize(s.clusters, q) > 0 ==>
              Allocator.AllocSize(z.clusters, q) == Allocator.AllocSize(s.clusters, q)
  {
    hide Laid, Clean, CleanDrops, Unmapped, Mapped, MapOn;
    hide Allocator.WellFormed, Allocator.AllocSize, Allocator.AllocStep;
    match c
    case Switch(to) =>
    case Alloc(size) => AllocSpares(s.clusters, size, r, u);
    case _ => IdlePages(s, s.With(Clean(s.Here().memory), s.pages, CleanDrops(s.clusters, s.Here().memory)));
  }

  /** The call frees or moves the block of `home` at `p`. */
  predicate Frees(s: System, c: Call, home: Home, p: nat)
    requires s.Shaped()
  {
    && home == MemoryOf(s.uses[s.cur]) && Target(s, c).Some?
    && var m := s.Here().memory[Target(s, c).value];
       m.owned && m.phys == p && !Stays(s, c, m)
  }

  /** The call reallocates a window onto the block's beginning, and so frees the block of its owner. */
  predicate Steals(s: System, c: Call, p: nat)
    requires s.Shaped()
  {
    && c.Realloc? && Target(s, c).Some?
    && var m := s.Here().memory[Target(s, c).value];
       !m.owned && m.phys == p && !Stays(s, c, m)
  }

  /** The call changes or drops the window `w` of memory `g`. */
  predicate Takes(s: System, c: Call, g: nat, w: Mapping)
    requires s.Shaped()
  {
    g == s.uses[s.cur] && Target(s, c).Some? && s.Here().memory[Target(s, c).value] == w
  }

  /** A call changes the size of an owned block only when its owner's memory frees or moves it or a borrower
      steals it, and then the block is gone. */
  lemma CallKeepsBlock(s: System, c: Call, r: nat, u: Clusters, z: System, home: Home, p: nat)
    requires s.Shaped() && Paged(s) && OneOwner(s, p) && Answered(s, c, r, u, z)
    requires OwnsBlock(s, home, p) && Allocator.AllocSize(s.clusters, p) > 0
    ensures Allocator.WellFormed(z.clusters)
    ensures Allocator.AllocSize(z.clusters, p)
            == if Frees(s, c, home, p) || Steals(s, c, p) then 0 else Allocator.AllocSize(s.clusters, p)
  {
    hide Laid, Clean, CleanDrops, Unmapped, Mapped, Patched, Paged, Target, Becoming, Answered, OwnsBlock, Stays;
    hide Allocator.WellFormed, Allocator.AllocSize, Allocator.Unalloced;
    var x := BlockPlace(s, home, p);
    if Target(s, c).None? {
      NoTarget(s, c, r, u, z);
    } else {
      var k := Target(s, c).value;
      var m := s.Here().memory[k];
      HereAligned(s, k);
      TargetChanged(s, c, r, u, z);
      TargetBlock(s, c, r, u, z);
      if m.owned {
        var y := InMemory(s.uses[s.cur], k);
        assert Owns(s, y) && At(s, y) == m;
        assert p == m.phys ==> x == y;
        FreeSpares(u, m.phys);
        FreedIsGone(u, m.phys);
      }
      TargetsDiffer(s, c, m);
    }
  }

  /** Only `realloc` frees what is not owned. */
  lemma TargetsDiffer(s: System, c: Call, m: Mapping)
    requires s.Shaped() && Target(s, c).Some? && m == s.Here().memory[Target(s, c).value]
    ensures c.Realloc? || c.Inplace? || c.Unalloc? || (c.Brk? && m.owned)
  {
  }

  lemma MappingKept(ms: seq<Mapping>, k: nat, m: Mapping, w: Mapping)
    requires k < |ms| && w in ms && ms[k] != w
    ensures w in ms[k := m] && w in Without(ms, k)
  {
    var j :| 0 <= j < |ms| && ms[j] == w;
    assert ms[k := m][j] == w;
    assert Without(ms, k)[if j < k then j else j - 1] == w;
  }

  /** A mapping that the call is not about is kept. */
  lemma CallKeepsOther(s: System, c: Call, r: nat, u: Clusters, z: System, home: Home, w: Mapping)
    requires s.Shaped() && Paged(s) && Allocator.WellFormed(s.clusters) && Answered(s, c, r, u, z) && Lives(s, home, w)
    requires home.MemoryOf? ==> !Takes(s, c, home.g, w)
    ensures Lives(z, home, w)
  {
    hide Paged, Target, Becoming, Answered, Allocator.WellFormed, Allocator.AllocSize;
    if Target(s, c).None? {
      NoTarget(s, c, r, u, z);
    } else {
      var k := Target(s, c).value;
      TargetChanged(s, c, r, u, z);
      if home == MemoryOf(s.uses[s.cur]) {
        MappingKept(s.Here().memory, k, Becoming(s, c, r, s.Here().memory[k]), w);
      }
    }
  }

  /** An owner that does not free its block still has it. */
  lemma CallKeepsOwner(s: System, c: Call, r: nat, u: Clusters, z: System, home: Home, p: nat)
    requires s.Shaped() && Paged(s) && Allocator.WellFormed(s.clusters) && Answered(s, c, r, u, z)
    requires OwnsBlock(s, home, p) && !Frees(s, c, home, p)
    ensures OwnsBlock(z, home, p)
  {
    hide Paged, Target, Answered, Asked, Stays, Becoming, Allocator.WellFormed, Allocator.AllocSize;
    var m :| Lives(s, home, m) && m.owned && m.phys == p;
    if home.MemoryOf? && Takes(s, c, home.g, m) {
      var k := Target(s, c).value;
      var now := Becoming(s, c, r, m);
      TargetChanged(s, c, r, u, z);
      HereAligned(s, k);
      TargetBlock(s, c, r, u, z);
      assert s.Here().memory[k := now][k] == now;
      assert Lives(z, home, now);
    } else {
      CallKeepsOther(s, c, r, u, z, home, m);
    }
  }

  /** What is owned at `p` afterwards was owned there before, at the same place or, where one was dropped,
      at the next. */
  lemma OneKept(s: System, z: System, p: nat)
    requires OneOwner(s, p) && Allocator.WellFormed(z.clusters)
    requires forall x :: Owns(z, x) && At(z, x).phys == p ==> Owns(s, x) && At(s, x).phys == p
    ensures OneOwner(z, p)
  {
    hide Allocator.WellFormed;
  }

  lemma OneDropped(s: System, z: System, p: nat, g: nat, k: nat)
    requires OneOwner(s, p) && Allocator.WellFormed(z.clusters)
    requires g < |s.memories| && k < |s.memories[g]|
    requires z.stacks == s.stacks && z.memories == s.memories[g := Without(s.memories[g], k)]
    ensures OneOwner(z, p)
  {
    hide Allocator.WellFormed;
    assert forall x :: Has(z, x) ==> Has(s, Before(x, g, k)) && At(s, Before(x, g, k)) == At(z, x);
  }

  lemma OneChanged(s: System, z: System, p: nat, g: nat, k: nat, m: Mapping)
    requires OneOwner(s, p) && Allocator.WellFormed(z.clusters)
    requires g < |s.memories| && k < |s.memories[g]| && m.owned == s.memories[g][k].owned
    requires m.phys == s.memories[g][k].phys || m.phys != p
    requires z.stacks == s.stacks && z.memories == s.memories[g := s.memories[g][k := m]]
    ensures OneOwner(z, p)
  {
    hide Allocator.WellFormed;
    assert forall x :: Has(z, x) ==> Has(s, x) && At(z, x) == if x == InMemory(g, k) then m else At(s, x);
    OneKept(s, z, p);
  }

  lemma OneAppended(s: System, z: System, p: nat, g: nat, m: Mapping)
    requires OneOwner(s, p) && Allocator.WellFormed(z.clusters)
    requires g < |s.memories| && m.phys != p
    requires z.stacks == s.stacks && z.memories == s.memories[g := s.memories[g] + [m]]
    ensures OneOwner(z, p)
  {
    hide Allocator.WellFormed;
    assert forall x :: Has(z, x) && At(z, x).phys == p ==> Has(s, x) && At(z, x) == At(s, x);
    OneKept(s, z, p);
  }

  /** No call makes a second owner. */
  lemma CallKeepsOne(s: System, c: Call, r: nat, u: Clusters, z: System, p: nat)
    requires s.Shaped() && Paged(s) && OneOwner(s, p) && Answered(s, c, r, u, z)
             && Allocator.AllocSize(s.clusters, p) > 0
    requires Allocator.WellFormed(z.clusters)
    ensures OneOwner(z, p)
  {
    hide Paged, Target, Answered, Asked, Stays, Becoming, OneOwner, Allocator.WellFormed, Allocator.AllocSize;
    var g := s.uses[s.cur];
    assert Allocator.WellFormed(s.clusters) by { OneWellFormed(s, p); }
    if Target(s, c).Some? {
      var k := Target(s, c).value;
      var now := Becoming(s, c, r, s.memories[g][k]);
      TargetChanged(s, c, r, u, z);
      HereAligned(s, k);
      TargetBlock(s, c, r, u, z);
      if now.size > 0 {
        OneChanged(s, z, p, g, k, now);
      } else {
        OneDropped(s, z, p, g, k);
      }
    } else {
      NoTarget(s, c, r, u, z);
      if z.memories == s.memories {
        OneSame(s, z, p);
      } else {
        var m :| z.memories == s.memories[g := s.memories[g] + [m]] && Allocator.AllocSize(s.clusters, m.phys) == 0;
        OneAppended(s, z, p, g, m);
      }
    }
  }

  lemma OneWellFormed(s: System, p: nat)
    requires OneOwner(s, p)
    ensures Allocator.WellFormed(s.clusters)
  {
  }

  lemma OneSame(s: System, z: System, p: nat)
    requires OneOwner(s, p) && Allocator.WellFormed(z.clusters) && z.stacks == s.stacks && z.memories == s.memories
    ensures OneOwner(z, p)
  {
    hide Allocator.WellFormed;
    OneKept(s, z, p);
  }

  lemma BlockSize(t: Clusters, w: Mapping, p: nat)
    requires Inside(t, w, p) && w.size > 0
    ensures Allocator.AllocSize(t, p) > 0
  {
    hide Allocator.AllocSize;
  }

  /** Through a memory call of any context a window that stays listed stays in its lender's block exactly
      when the call does not free or move that block, for its owner's memory or through a window onto it. */
  lemma CallLends(s: System, c: Call, r: nat, u: Clusters, z: System, home: Home, p: nat, g: nat, w: Mapping)
    requires s.Shaped() && Paged(s) && OneOwner(s, p) && Answered(s, c, r, u, z) && Lends(s, home, p, g, w)
    ensures OneOwner(z, p)
    ensures Lends(z, home, p, g, w) <==> Lives(z, MemoryOf(g), w) && !Frees(s, c, home, p) && !Steals(s, c, p)
    ensures !Takes(s, c, g, w) ==> Lives(z, MemoryOf(g), w)
  {
    hide Paged, Answered, Takes, Frees, Steals, OwnsBlock, Lives, Inside, Allocator.WellFormed, Allocator.AllocSize;
    BlockSize(s.clusters, w, p);
    CallKeepsBlock(s, c, r, u, z, home, p);
    CallKeepsOne(s, c, r, u, z, p);
    InsideSame(s.clusters, z.clusters, w, p);
    if !Frees(s, c, home, p) {
      CallKeepsOwner(s, c, r, u, z, home, p);
    }
    if !Takes(s, c, g, w) {
      CallKeepsOther(s, c, r, u, z, MemoryOf(g), w);
    }
  }

  lemma InsideSame(t: Clusters, u: Clusters, w: Mapping, p: nat)
    requires Inside(t, w, p) && w.size > 0
    ensures Allocator.AllocSize(u, p) == Allocator.AllocSize(t, p) ==> Inside(u, w, p)
    ensures Allocator.AllocSize(u, p) == 0 ==> !Inside(u, w, p)
  {
    hide Allocator.AllocSize;
  }

  // ---------------------------------------------------------------- runs

  /** A memory call, a window that another context lends to a memory, or one that is taken back. */
  datatype Event = Called(c: Call) | Lending(h: nat, w: Mapping) | Returning(h: nat, k: nat)

  ghost predicate Happens(s: System, e: Event, z: System)
    requires s.Shaped()
  {
    match e
    case Called(c) => RoomyStep(s, c, z)
    case Lending(h, w) =>
      && h < |s.memories| && h != s.uses[s.cur] && !w.owned && w.virt == NextMem(s.memories[h])
      && z == s.(memories := s.memories[h := s.memories[h] + [w]]) && AllGood(z)
    case Returning(h, k) =>
      && h < |s.memories| && h != s.uses[s.cur] && k < |s.memories[h]| && !s.memories[h][k].owned
      && z == s.(memories := s.memories[h := Without(s.memories[h], k)])
  }

  /** The event frees or moves the block at `p` of `home`, or takes it from its owner. */
  predicate Loses(s: System, e: Event, home: Home, p: nat)
    requires s.Shaped()
  {
    e.Called? && (Frees(s, e.c, home, p) || Steals(s, e.c, p))
  }

  /** The event changes the window or ends its call. */
  predicate TakesWindow(s: System, e: Event, g: nat, w: Mapping)
    requires s.Shaped()
  {
    match e
    case Called(c) => Takes(s, c, g, w)
    case Lending(_, _) => false
    case Returning(h, k) => h == g && h < |s.memories| && k < |s.memories[h]| && s.memories[h][k] == w
  }

  /** Lending and returning leave the page table, and every owner where it is but for its place in a list. */
  lemma LendingKeeps(s: System, e: Event, z: System)
    requires Paged(s) && e.Lending? && Happens(s, e, z)
    ensures Paged(z) && (Backed(s) ==> Backed(z))
    ensures forall p :: OneOwner(s, p) ==> OneOwner(z, p)
  {
    hide Laid, Good, Allocator.WellFormed, Allocator.AllocSize, NextMem;
    assert z.Here() == s.Here();
    forall x | Owns(z, x)
      ensures Owns(s, x) && At(s, x) == At(z, x)
    {
    }
  }

  lemma ReturningKeeps(s: System, e: Event, z: System)
    requires Paged(s) && e.Returning? && Happens(s, e, z)
    ensures Paged(z) && (Backed(s) ==> Backed(z))
    ensures forall p :: OneOwner(s, p) ==> OneOwner(z, p)
  {
    hide Laid, Good, Backed, OneOwner;
    assert z.Here() == s.Here();
    forall i | 0 <= i < |s.stacks|
      ensures Good(|z.pages|, z.SpaceOf(i))
    {
      assert Good(|s.pages|, s.SpaceOf(i));
      if s.uses[i] == e.h {
        GoodWithout(|s.pages|, s.SpaceOf(i), e.k, s.memories[e.h][e.k].(size := 0));
      } else {
        assert z.SpaceOf(i) == s.SpaceOf(i);
      }
    }
    ReturnedHoldings(s, e, z);
  }

  lemma ReturnedHoldings(s: System, e: Event, z: System)
    requires s.Shaped() && e.Returning? && Happens(s, e, z)
    ensures Backed(s) ==> Backed(z)
    ensures forall p :: OneOwner(s, p) ==> OneOwner(z, p)
  {
    hide Allocator.WellFormed, Allocator.AllocSize;
    assert forall x :: Has(z, x) ==> Has(s, Before(x, e.h, e.k)) && At(s, Before(x, e.h, e.k)) == At(z, x);
  }

  /** Lending and returning other windows leaves a lent window where it is. */
  lemma OthersLend(s: System, e: Event, z: System, home: Home, p: nat, g: nat, w: Mapping)
    requires Paged(s) && Happens(s, e, z) && !e.Called? && Lends(s, home, p, g, w)
    ensures Lends(z, home, p, g, w) <==> Lives(z, MemoryOf(g), w)
    ensures !TakesWindow(s, e, g, w) ==> Lives(z, MemoryOf(g), w)
  {
    hide Paged, AllGood, Allocator.AllocSize, NextMem;
    var m :| Lives(s, home, m) && m.owned && m.phys == p;
    if e.Returning? {
      if g == e.h && s.memories[g][e.k] != w {
        MappingKept(s.memories[g], e.k, w, w);
      }
      if home == MemoryOf(e.h) {
        MappingKept(s.memories[e.h], e.k, m, m);
      }
    }
    assert Lives(z, home, m);
  }

  /** The window onto a buffer within one mapping of the client lies inside that mapping's block. */
  lemma LendInside(t: Clusters, m: Mapping, ptr: nat, len: nat, virt: nat)
    requires Covered(t, m) && m.phys % PAGE_SIZE == 0 && m.virt % PAGE_SIZE == 0
    requires 0 < len && m.virt <= ptr && ptr + len <= m.virt + m.size
    ensures var w := SchemeRpc.Buffer(ptr - m.virt + m.phys, len).Window(virt);
            Inside(t, w, m.phys) && w.size > 0 && !w.owned
  {
    hide Allocator.AllocSize, Allocator.Used;
    var phys := ptr - m.virt + m.phys;
    var off, k, first := phys % PAGE_SIZE, (len + phys % PAGE_SIZE + 4095) / 4096, phys / PAGE_SIZE;
    var w := SchemeRpc.Buffer(phys, len).Window(virt);
    assert w.phys == first * PAGE_SIZE && w.size == k * PAGE_SIZE && w.Pages() == k;
    assert m.phys == m.phys / PAGE_SIZE * PAGE_SIZE;
    WholePages(first, k, phys + len, m.phys / PAGE_SIZE, m.Pages());
  }

  /** Pages that reach no further than some byte of a block of pages end within it. */
  lemma WholePages(first: nat, k: nat, end: nat, block: nat, n: nat)
    requires (first + k) * PAGE_SIZE < end + PAGE_SIZE && end <= block * PAGE_SIZE + n * PAGE_SIZE
    ensures (first + k) * PAGE_SIZE <= (block + n) * PAGE_SIZE
  {
  }

  /** `translate` finds a buffer in the mapping it lies in. */
  lemma BufferFound(n: nat, s: Space, m: Mapping, ptr: nat, len: nat)
    requires Good(n, s) && (s.stack == Some(m) || m in s.memory)
    requires 0 < len && m.virt <= ptr && ptr + len <= m.virt + m.size
    ensures Translate(s, ptr, len) == Some(ptr - m.virt + m.phys)
    ensures m.phys % PAGE_SIZE == 0 && m.virt % PAGE_SIZE == 0
  {
    hide Ascending, Mapping.Apart;
    if s.stack != Some(m) {
      var k :| 0 <= k < |s.memory| && s.memory[k] == m;
      SchemeRpc.HolderIs(n, s, k, ptr);
    }
  }

  lemma BackedOne(s: System, home: Home, m: Mapping)
    requires Backed(s) && Lives(s, home, m) && m.owned
    ensures Covered(s.clusters, m) && OneOwner(s, m.phys)
  {
    hide Allocator.WellFormed, Allocator.AllocSize;
    var x := PlaceOf(s, home, m);
  }

  /** A call with a buffer inside one owned mapping of the current context begins with a window that lies
      in that mapping's block. */
  lemma LendingLends(s: System, home: Home, m: Mapping, ptr: nat, len: nat, h: nat, w: Mapping, z: System)
    requires s.Shaped() && Paged(s) && Backed(s) && Lives(s, home, m) && m.owned
    requires home == StackOf(s.cur) || home == MemoryOf(s.uses[s.cur])
    requires 0 < len && m.virt <= ptr && ptr + len <= m.virt + m.size
    requires Translate(s.Here(), ptr, len).Some? && h < |s.memories|
    requires w == SchemeRpc.Buffer(Translate(s.Here(), ptr, len).value, len).Window(NextMem(s.memories[h]))
    requires Happens(s, Lending(h, w), z)
    ensures Paged(z) && OneOwner(z, m.phys) && Lends(z, home, m.phys, h, w)
  {
    hide Allocator.WellFormed, Allocator.AllocSize, NextMem, Translate, Laid, Covered, Backed, Good, Inside;
    hide SchemeRpc.Lend.Window;
    BackedOne(s, home, m);
    LendingKeeps(s, Lending(h, w), z);
    assert Good(|s.pages|, s.SpaceOf(s.cur));
    BufferFound(|s.pages|, s.Here(), m, ptr, len);
    LendInside(s.clusters, m, ptr, len, NextMem(s.memories[h]));
    assert z.memories[h][|s.memories[h]|] == w;
    assert Lives(z, home, m);
  }

  /** What one event does to a lent window. */
  lemma StepLends(s: System, e: Event, z: System, home: Home, p: nat, g: nat, w: Mapping)
    requires s.Shaped() && Paged(s) && OneOwner(s, p) && Happens(s, e, z) && Lends(s, home, p, g, w)
    ensures Paged(z) && OneOwner(z, p)
    ensures Lends(z, home, p, g, w) <==> Lives(z, MemoryOf(g), w) && !Loses(s, e, home, p)
    ensures !TakesWindow(s, e, g, w) ==> Lives(z, MemoryOf(g), w)
  {
    hide Paged, OneOwner, Answered, Room, Takes, Frees, Steals, Lends, Lives;
    match e
    case Called(c) =>
      var r, u :| Answered(s, c, r, u, z) && Room(s, c, r);
      StepPages(s, c, r, u, z);
      CallLends(s, c, r, u, z, home, p, g, w);
    case Lending(_, _) =>
      LendingKeeps(s, e, z);
      OthersLend(s, e, z, home, p, g, w);
    case Returning(_, _) =>
      ReturningKeeps(s, e, z);
      OthersLend(s, e, z, home, p, g, w);
  }

  /** Memory calls of any context, with room, and other calls' windows. */
  ghost predicate IsHistory(states: seq<System>, events: seq<Event>) {
    && |states| == |events| + 1
    && forall k :: 0 <= k < |events| ==> states[k].Shaped() && Happens(states[k], events[k], states[k + 1])
  }

  ghost predicate LosesAt(states: seq<System>, events: seq<Event>, k: nat, home: Home, p: nat)
    requires k < |events| < |states|
  {
    states[k].Shaped() && Loses(states[k], events[k], home, p)
  }

  /** As long as the window is listed it shows its lender's block, if and only if no thread with the lender's
      memory frees or moves that, and nobody reallocates a window onto its beginning out of it. */
  lemma {:induction false} WaitLends(states: seq<System>, events: seq<Event>, home: Home, p: nat, g: nat, w: Mapping)
    requires IsHistory(states, events) && Paged(states[0]) && OneOwner(states[0], p) && Lends(states[0], home, p, g, w)
    ensures (forall k :: 0 <= k < |states| ==> Lends(states[k], home, p, g, w))
            <==> (forall k :: 0 <= k < |states| ==> Lives(states[k], MemoryOf(g), w))
                 && (forall k :: 0 <= k < |events| ==> !LosesAt(states, events, k, home, p))
    ensures (forall k :: 0 <= k < |states| ==> Lends(states[k], home, p, g, w)) ==>
              Paged(states[|events|]) && OneOwner(states[|events|], p)
    decreases |events|
  {
    hide Happens, Paged, OneOwner, Lives, OwnsBlock, Inside, Loses, System.Shaped;
    if events != [] {
      var n := |events| - 1;
      var before, early := states[..n + 1], events[..n];
      WaitLends(before, early, home, p, g, w);
      assert forall k :: 0 <= k < |before| ==> before[k] == states[k];
      assert forall k :: 0 <= k < n ==> (LosesAt(before, early, k, home, p) <==> LosesAt(states, events, k, home, p));
      if forall k :: 0 <= k < |before| ==> Lends(before[k], home, p, g, w) {
        assert Lends(before[n], home, p, g, w);
        StepLends(states[n], events[n], states[n + 1], home, p, g, w);
        assert LosesAt(states, events, n, home, p) <==> Loses(states[n], events[n], home, p);
      }
    }
  }

  ghost predicate HarmlessEvent(s: System, e: Event)
    requires s.Shaped()
  {
    e.Called? ==> Harmless(s, e.c)
  }

  /** The same events keep every owned mapping an allocation of its own exactly when the calls among them do. */
  lemma EventBacked(s: System, e: Event, z: System)
    requires s.Shaped() && Paged(s) && Backed(s) && Happens(s, e, z)
    ensures Paged(z) && (Backed(z) <==> HarmlessEvent(s, e))
  {
    hide Paged, Backed, Answered, Room, Harmless;
    match e
    case Called(c) =>
      var r, u :| Answered(s, c, r, u, z) && Room(s, c, r);
      StepPages(s, c, r, u, z);
      StepBacked(s, c, r, u, z);
    case Lending(_, _) => LendingKeeps(s, e, z);
    case Returning(_, _) => ReturningKeeps(s, e, z);
  }

  /** While context 1 waits for the server, context 2 with the same memory runs. */
  function Thread(): System {
    var s := Lender();
    s.(stacks := [None, None, None], uses := [0, 1, 1], cur := 2, pages := Laid(8, Space(None, s.memories[1])))
  }

  /** A thread may free what another one has lent: the window then shows a free cluster. */
  lemma ThreadFrees()
    ensures exists s: System, z: System, w: Mapping ::
              && s.Shaped() && Paged(s) && Backed(s) && Answered(s, Unalloc(0x1000), 0, s.clusters, z)
              && Lends(s, MemoryOf(1), w.phys, 0, w) && w in z.memories[0]
              && Allocator.AllocSize(z.clusters, w.phys) == 0
  {
    hide Laid, Clean, CleanDrops, Patched, Paged, Backed, OneOwner, Covered, Find, NextMem, Mapped, Unmapped, MapOn;
    hide Allocator.AllocStep, Allocator.ReallocStep;
    hide Allocator.ClusterToAddress, Allocator.AllocSize, Allocator.WellFormed, Allocator.Unalloced;
    var s := Thread();
    ThreadSound();
    var w := s.memories[0][1];
    var z := Changed(s, 0, s.Here().memory[0].(size := 0), s.clusters);
    assert Answered(s, Unalloc(0x1000), 0, s.clusters, z);
    assert Lives(s, MemoryOf(0), w) && Lives(s, MemoryOf(1), s.Here().memory[0]);
    BackedOne(s, MemoryOf(1), s.Here().memory[0]);
    CallKeepsBlock(s, Unalloc(0x1000), 0, s.clusters, z, MemoryOf(1), w.phys);
  }

  lemma ThreadSound()
    ensures Thread().Shaped() && Paged(Thread()) && Backed(Thread())
    ensures Find(Thread().Here().memory, 0x1000) == 0
    ensures Allocator.AllocSize(Thread().clusters, Thread().memories[1][0].phys) == PAGE_SIZE
  {
    hide Laid, Allocator.ClusterToAddress, Allocator.AllocSize, Allocator.WellFormed;
    var s := Thread();
    LenderPaged();
    LenderBacked();
    TwoBlocks(s.clusters, s.clusters[0], s.clusters[1]);
    assert s.SpaceOf(0) == Lender().SpaceOf(0) && s.SpaceOf(1) == s.SpaceOf(2) == Lender().SpaceOf(1);
    SameHoldings(Lender(), s);
  }

  /** The server has two windows onto the client's page. */
  function Borrower(): System {
    var s := Lender();
    var server := s.memories[0] + [Mapping(s.memories[1][0].phys, 0x3000, 0x1000, true, false)];
    s.(memories := [server, s.memories[1]], pages := Laid(8, Space(None, server)))
  }

  /** Reallocating one of them frees the page under the client, and the other window shows a free cluster. */
  lemma WindowStolen()
    ensures exists s: System, z: System, w: Mapping ::
              && s.Shaped() && Paged(s) && Backed(s) && Answered(s, Realloc(0x3000, 0), 0, z.clusters, z)
              && Lends(s, MemoryOf(1), w.phys, 0, w) && w in z.memories[0]
              && Allocator.AllocSize(z.clusters, w.phys) == 0
  {
    hide Laid, Clean, CleanDrops, Patched, Paged, Backed, Find;
    hide Allocator.ClusterToAddress, Allocator.AllocSize, Allocator.WellFormed, Allocator.Unalloced;
    var s := Borrower();
    BorrowerSound();
    var w, other := s.memories[0][1], s.memories[0][2];
    var u := Allocator.Unalloced(s.clusters, other.phys);
    var z := Changed(s, 2, Moved(other, 0, 0), u);
    LentCleaned(s, 2, Moved(other, 0, 0), u);
    assert Answered(s, Realloc(0x3000, 0), 0, u, z);
    assert Lives(s, MemoryOf(0), w) && Lives(s, MemoryOf(1), s.memories[1][0]);
    BackedOne(s, MemoryOf(1), s.memories[1][0]);
    CallKeepsBlock(s, Realloc(0x3000, 0), 0, u, z, MemoryOf(1), w.phys);
    CallKeepsOther(s, Realloc(0x3000, 0), 0, u, z, MemoryOf(0), w);
  }

  lemma BorrowerSound()
    ensures Borrower().Shaped() && Paged(Borrower()) && Backed(Borrower())
    ensures Find(Borrower().Here().memory, 0x3000) == 2
    ensures Allocator.AllocSize(Borrower().clusters, Borrower().memories[1][0].phys) == PAGE_SIZE
  {
    hide Laid, Mapping.EntryAt, Covered, Find, Allocator.ClusterToAddress, Allocator.AllocSize, Allocator.WellFormed;
    var s := Borrower();
    LenderPaged();
    LenderBacked();
    TwoBlocks(s.clusters, s.clusters[0], s.clusters[1]);
    Allocator.AddressAligned(1);
    assert s.SpaceOf(1) == Lender().SpaceOf(1) && s.SpaceOf(0) == s.Here();
    assert Good(8, Lender().SpaceOf(0)) && Good(8, Lender().SpaceOf(1)) && Good(8, s.SpaceOf(0));
    SameHoldings(Lender(), s);
    assert s.memories[0][1..][1..] == [s.memories[0][2]];
  }
}
