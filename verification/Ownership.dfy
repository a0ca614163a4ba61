/** Whose memory is whose.  A mapping that owns its memory has an allocation to itself; over any run
    of memory calls no two of them share a byte, so processes do not see each other's memory. */
module Ownership {
  import opened Common
  import opened AddressSpace
  import opened MemoryCalls
  import Allocator
  import PhysicalMemory

  /** Where a mapping is kept. */
  datatype Place = OfStack(i: nat) | InMemory(g: nat, k: nat)

  predicate Has(s: System, x: Place) {
    match x
    case OfStack(i) => i < |s.stacks| && s.stacks[i].Some?
    case InMemory(g, k) => g < |s.memories| && k < |s.memories[g]|
  }

  function At(s: System, x: Place): Mapping
    requires Has(s, x)
  {
    match x
    case OfStack(i) => s.stacks[i].value
    case InMemory(g, k) => s.memories[g][k]
  }

  predicate Owns(s: System, x: Place) { Has(s, x) && At(s, x).owned }

  /** The allocation at the mapping's physical address covers all of its pages. */
  predicate Covered(t: Clusters, m: Mapping) {
    Allocator.Used(m.phys) && 0 < m.Pages() * PAGE_SIZE <= Allocator.AllocSize(t, m.phys)
  }

  ghost predicate Backed(s: System) {
    && Allocator.WellFormed(s.clusters)
    && (forall x :: Owns(s, x) ==> Covered(s.clusters, At(s, x)))
    && (forall x, y :: Owns(s, x) && Owns(s, y) && At(s, x).phys == At(s, y).phys ==> x == y)
  }

  // ---------------------------------------------------------------- what the allocator leaves alone

  lemma FreeSpares(t: Clusters, p: nat)
    requires Allocator.WellFormed(t) && p != Allocator.NOT_PRESENT
    ensures Allocator.WellFormed(Allocator.Unalloced(t, p))
    ensures forall q :: Allocator.Used(q) && q != p ==>
              Allocator.AllocSize(Allocator.Unalloced(t, p), q) == Allocator.AllocSize(t, q)
  {
    hide Allocator.Unalloced, Allocator.WellFormed, Allocator.RunLength, Allocator.AddressToCluster;
    Allocator.UnallocKeeps(t, p);
    var u := Allocator.Unalloced(t, p);
    forall q | Allocator.Used(q) && q != p
      ensures Allocator.AllocSize(u, q) == Allocator.AllocSize(t, q)
    {
      Allocator.SameTagsSameRun(t, u, Allocator.AddressToCluster(q), q);
    }
  }

  lemma AllocSpares(t: Clusters, size: nat, r: nat, u: Clusters)
    requires Allocator.WellFormed(t) && Allocator.AllocStep(t, size, 1, r, u)
    ensures Allocator.WellFormed(u)
    ensures forall q :: Allocator.Used(q) && q != r ==> Allocator.AllocSize(u, q) == Allocator.AllocSize(t, q)
    ensures r > 0 ==> Allocator.Used(r) && Allocator.AllocSize(t, r) == 0
    ensures r > 0 ==> Allocator.AllocSize(u, r) == Allocator.Clusters(size) * PAGE_SIZE && size > 0
  {
    hide Allocator.WellFormed, Allocator.RunLength;
    Allocator.AllocKeeps(t, size, 1, r, u);
    if r > 0 {
      var s := Allocator.AddressToCluster(r);
      Allocator.AddressRoundTrip(s);
      Allocator.ClaimedSizes(t, s, Allocator.Clusters(size));
    }
  }

  /** Reallocating gives a block that was nobody else's. */
  lemma ReallocSpares(t: Clusters, p: nat, size: nat, r: nat, u: Clusters)
    requires Allocator.WellFormed(t) && Allocator.Used(p) && Allocator.ReallocStep(t, p, size, r, u)
    requires Allocator.AllocSize(t, p) > 0
    ensures Allocator.WellFormed(u)
    ensures forall q :: Allocator.Used(q) && q != p && q != r ==> Allocator.AllocSize(u, q) == Allocator.AllocSize(t, q)
    ensures r > 0 ==> Allocator.Used(r) && (r == p || Allocator.AllocSize(t, r) == 0)
    ensures r > 0 ==> 0 < size <= Allocator.AllocSize(u, r)
  {
    hide Allocator.WellFormed, Allocator.AllocStep, Allocator.Unalloced, Allocator.AllocSize;
    FreeSpares(t, p);
    if size > 0 && size > Allocator.AllocSize(t, p) {
      var v :| Allocator.AllocStep(t, size, 1, r, v) && u == Allocator.Unalloced(v, p);
      AllocSpares(t, size, r, v);
      FreeSpares(v, p);
    }
  }

  lemma PagesCover(t: Clusters, m: Mapping)
    requires Allocator.Used(m.phys) && 0 < m.size <= Allocator.AllocSize(t, m.phys)
    ensures Covered(t, m)
  {
    hide Allocator.RunLength;
    var n := Allocator.AllocSize(t, m.phys) / PAGE_SIZE;
    assert Allocator.AllocSize(t, m.phys) == n * PAGE_SIZE;
  }

  // ---------------------------------------------------------------- one step

  /** A place after mapping `k` of memory `g` was dropped. */
  function Before(x: Place, g: nat, k: nat): Place {
    match x
    case OfStack(_) => x
    case InMemory(h, j) => if h == g && j >= k then InMemory(h, j + 1) else x
  }

  lemma DropKeeps(s: System, k: nat, z: System)
    requires s.Shaped() && Backed(s) && k < |s.Here().memory|
    requires z.stacks == s.stacks && z.memories == s.memories[s.uses[s.cur] := Without(s.Here().memory, k)]
    requires Allocator.WellFormed(z.clusters)
    requires forall q :: Allocator.Used(q) && !(s.Here().memory[k].owned && q == s.Here().memory[k].phys) ==>
               Allocator.AllocSize(z.clusters, q) == Allocator.AllocSize(s.clusters, q)
    ensures Backed(z)
  {
    hide Allocator.WellFormed, Allocator.AllocSize;
    var g := s.uses[s.cur];
    assert At(s, InMemory(g, k)) == s.Here().memory[k];
    assert forall x :: Has(z, x) ==>
        Has(s, Before(x, g, k)) && At(s, Before(x, g, k)) == At(z, x) && Before(x, g, k) != InMemory(g, k);
  }

  /** One owned mapping got another size or block; nobody else's block changed. */
  lemma ReplaceKeeps(s: System, k: nat, m: Mapping, z: System)
    requires s.Shaped() && Backed(s) && k < |s.Here().memory|
    requires Owns(s, InMemory(s.uses[s.cur], k)) && m.owned
    requires z.stacks == s.stacks && z.memories == s.memories[s.uses[s.cur] := s.Here().memory[k := m]]
    requires Allocator.WellFormed(z.clusters) && Covered(z.clusters, m)
    requires m.phys == s.Here().memory[k].phys || Allocator.AllocSize(s.clusters, m.phys) == 0
    requires forall q :: Allocator.Used(q) && q != s.Here().memory[k].phys && q != m.phys ==>
               Allocator.AllocSize(z.clusters, q) == Allocator.AllocSize(s.clusters, q)
    ensures Backed(z)
  {
    hide Allocator.WellFormed, Allocator.AllocSize;
    var x := InMemory(s.uses[s.cur], k);
    assert forall y :: Has(z, y) <==> Has(s, y);
    assert forall y :: Has(s, y) && y != x ==> At(z, y) == At(s, y);
    assert At(z, x) == m;
  }

  lemma AppendKeeps(s: System, m: Mapping, z: System)
    requires s.Shaped() && Backed(s)
    requires z.stacks == s.stacks && z.memories == s.memories[s.uses[s.cur] := s.Here().memory + [m]]
    requires Allocator.WellFormed(z.clusters) && Covered(z.clusters, m) && Allocator.AllocSize(s.clusters, m.phys) == 0
    requires forall q :: Allocator.Used(q) && q != m.phys ==>
               Allocator.AllocSize(z.clusters, q) == Allocator.AllocSize(s.clusters, q)
    ensures Backed(z)
  {
    hide Allocator.WellFormed, Allocator.AllocSize;
    var x := InMemory(s.uses[s.cur], |s.Here().memory|);
    assert forall y :: Has(z, y) <==> Has(s, y) || y == x;
    assert forall y :: Has(s, y) ==> At(z, y) == At(s, y);
    assert At(z, x) == m;
  }

  /** What `clean_mem` drops after one mapping became `m`. */
  lemma {:induction false} CleanDropsOne(u: Clusters, ms: seq<Mapping>, k: nat, m: Mapping)
    requires k < |ms| && forall j :: 0 <= j < |ms| ==> ms[j].size > 0
    ensures CleanDrops(u, ms[k := m]) == if m.size == 0 then Dropped(u, m) else u
    decreases |ms|
  {
    if k == 0 {
      assert ms[0 := m][1..] == ms[1..];
      CleanIdle(if m.size == 0 then Dropped(u, m) else u, ms[1..]);
    } else {
      assert ms[k := m][1..] == ms[1..][k - 1 := m];
      CleanDropsOne(u, ms[1..], k - 1, m);
    }
  }

  /** `realloc` frees the block at its mapping's physical address even if the mapping was only lent.  That
      harms nobody if the block can stay, or is no owner's. */
  ghost predicate Harmless(s: System, c: Call)
    requires s.Shaped()
  {
    var ms := s.Here().memory;
    c.Realloc? && Find(ms, c.ptr) < |ms| && !ms[Find(ms, c.ptr)].owned ==>
        LentMayMove(s, ms[Find(ms, c.ptr)].phys, c.size)
  }

  ghost predicate LentMayMove(s: System, p: nat, size: nat) {
    0 < size <= Allocator.AllocSize(s.clusters, p) || forall x :: Owns(s, x) ==> At(s, x).phys != p
  }

  /** The change of one owned mapping, whose block the allocator may have moved. */
  lemma ChangeBacked(s: System, k: nat, m: Mapping, u: Clusters, z: System)
    requires Paged(s) && Backed(s) && k < |s.Here().memory| && Owns(s, InMemory(s.uses[s.cur], k))
    requires var was := s.Here().memory[k];
             && m.owned && m.virt == was.virt && Allocator.WellFormed(u)
             && (m.size == 0 ==> m.phys == was.phys)
             && (m.phys == was.phys || Allocator.AllocSize(s.clusters, m.phys) == 0)
             && (m.size > 0 ==> Covered(u, m))
             && (forall q :: Allocator.Used(q) && q != was.phys && q != m.phys ==>
                   Allocator.AllocSize(u, q) == Allocator.AllocSize(s.clusters, q))
    requires z.stacks == s.stacks
    requires z.memories == s.memories[s.uses[s.cur] := Clean(s.Here().memory[k := m])]
    requires z.clusters == CleanDrops(u, s.Here().memory[k := m])
    ensures Backed(z)
  {
    hide Laid, Clean, CleanDrops, Allocator.WellFormed, Allocator.AllocSize, Allocator.Unalloced, Backed, Covered;
    var ms := s.Here().memory;
    assert Good(|s.pages|, s.SpaceOf(s.cur));
    ChangedClean(ms, k, m, |s.pages|, s.Here());
    CleanDropsOne(u, ms, k, m);
    if m.size > 0 {
      ReplaceKeeps(s, k, m, z);
    } else {
      UsedHere(s, k);
      FreeSpares(u, m.phys);
      DropKeeps(s, k, z);
    }
  }

  lemma UsedHere(s: System, k: nat)
    requires s.Shaped() && Backed(s) && k < |s.Here().memory| && Owns(s, InMemory(s.uses[s.cur], k))
    ensures Covered(s.clusters, s.Here().memory[k])
  {
    assert At(s, InMemory(s.uses[s.cur], k)) == s.Here().memory[k];
  }

  /** The memory after mapping `k` became `m`, or was dropped. */
  predicate Becomes(ms: seq<Mapping>, k: nat, m: Mapping, now: seq<Mapping>)
    requires k < |ms|
  {
    now == ms[k := m] || now == Without(ms, k)
  }

  /** Where a place has moved to. */
  function After(x: Place, g: nat, k: nat, dropped: bool): Place {
    if dropped && x.InMemory? && x.g == g && x.k > k then InMemory(g, x.k - 1) else x
  }

  /** A mapping that is not owned changed or went away, and every owner kept its block. */
  lemma LentKeeps(s: System, k: nat, m: Mapping, z: System)
    requires s.Shaped() && Backed(s) && k < |s.Here().memory| && !s.Here().memory[k].owned && !m.owned
    requires z.stacks == s.stacks && |z.memories| == |s.memories|
             && z.memories == s.memories[s.uses[s.cur] := z.memories[s.uses[s.cur]]]
    requires Becomes(s.Here().memory, k, m, z.memories[s.uses[s.cur]])
    requires Allocator.WellFormed(z.clusters)
    requires forall x :: Owns(s, x) ==>
               Allocator.AllocSize(z.clusters, At(s, x).phys) == Allocator.AllocSize(s.clusters, At(s, x).phys)
    ensures Backed(z)
  {
    hide Allocator.WellFormed, Allocator.AllocSize;
    var g := s.uses[s.cur];
    if z.memories[g] == s.Here().memory[k := m] {
      assert forall y :: Owns(z, y) ==> Owns(s, y) && At(z, y) == At(s, y);
    } else {
      assert forall y :: Has(z, y) ==> Has(s, Before(y, g, k)) && At(s, Before(y, g, k)) == At(z, y);
    }
  }

  /** An owner whose block is gone is no longer backed. */
  lemma LentLoses(s: System, k: nat, m: Mapping, z: System, x: Place)
    requires s.Shaped() && k < |s.Here().memory| && !s.Here().memory[k].owned && !m.owned
    requires z.stacks == s.stacks && |z.memories| == |s.memories|
             && z.memories == s.memories[s.uses[s.cur] := z.memories[s.uses[s.cur]]]
    requires Becomes(s.Here().memory, k, m, z.memories[s.uses[s.cur]])
    requires Owns(s, x) && Allocator.AllocSize(z.clusters, At(s, x).phys) == 0
    ensures !Backed(z)
  {
    hide Allocator.WellFormed, Allocator.AllocSize;
    var y := After(x, s.uses[s.cur], k, z.memories[s.uses[s.cur]] != s.Here().memory[k := m]);
    assert x != InMemory(s.uses[s.cur], k);
    assert Owns(z, y) && At(z, y) == At(s, x);
  }

  /** A mapping that is not owned changed its size. */
  lemma LentBacked(s: System, k: nat, m: Mapping, z: System)
    requires Paged(s) && Backed(s) && k < |s.Here().memory| && !s.Here().memory[k].owned && !m.owned
    requires m.virt == s.Here().memory[k].virt
    requires z.stacks == s.stacks
    requires z.memories == s.memories[s.uses[s.cur] := Clean(s.Here().memory[k := m])]
    requires z.clusters == CleanDrops(s.clusters, s.Here().memory[k := m])
    ensures Backed(z)
  {
    hide Laid, Clean, CleanDrops, Covered, Allocator.WellFormed, Allocator.Unalloced, Allocator.AllocSize;
    LentCleaned(s, k, m, s.clusters);
    LentKeeps(s, k, m, z);
  }

  lemma LentCleaned(s: System, k: nat, m: Mapping, u: Clusters)
    requires Paged(s) && k < |s.Here().memory| && !m.owned && m.virt == s.Here().memory[k].virt
    ensures Becomes(s.Here().memory, k, m, Clean(s.Here().memory[k := m]))
    ensures CleanDrops(u, s.Here().memory[k := m]) == u
  {
    hide Laid, Clean, CleanDrops;
    assert Good(|s.pages|, s.SpaceOf(s.cur));
    ChangedClean(s.Here().memory, k, m, |s.pages|, s.Here());
    CleanDropsOne(u, s.Here().memory, k, m);
  }

  /** Whatever `realloc` is given, it leaves every other block; the given one it frees unless that can stay. */
  lemma ReallocFrees(t: Clusters, p: nat, size: nat, r: nat, u: Clusters)
    requires Allocator.WellFormed(t) && p != Allocator.NOT_PRESENT && Allocator.ReallocStep(t, p, size, r, u)
    ensures Allocator.WellFormed(u)
    ensures forall q :: Allocator.Used(q) && q != p && Allocator.AllocSize(t, q) > 0 ==>
              Allocator.AllocSize(u, q) == Allocator.AllocSize(t, q)
    ensures if 0 < size <= Allocator.AllocSize(t, p) then u == t
            else Allocator.Used(p) ==> Allocator.AllocSize(u, p) == 0
  {
    hide Allocator.WellFormed, Allocator.AllocStep, Allocator.Unalloced, Allocator.AllocSize;
    FreeSpares(t, p);
    FreedIsGone(t, p);
    if size > 0 && size > Allocator.AllocSize(t, p) {
      var v :| Allocator.AllocStep(t, size, 1, r, v) && u == Allocator.Unalloced(v, p);
      AllocSpares(t, size, r, v);
      FreeSpares(v, p);
      FreedIsGone(v, p);
    }
  }

  lemma FreedIsGone(t: Clusters, p: nat)
    requires Allocator.WellFormed(t) && p != Allocator.NOT_PRESENT
    ensures Allocator.Used(p) ==> Allocator.AllocSize(Allocator.Unalloced(t, p), p) == 0
  {
    hide Allocator.Unalloced, Allocator.WellFormed;
    Allocator.UnallocFrees(t, p);
  }

  /** Reallocating a mapping that was only lent keeps every owner's block exactly when the block it moves
      can stay or is no owner's. */
  lemma LentReallocBacked(s: System, k: nat, size: nat, r: nat, u: Clusters, z: System)
    requires Paged(s) && Backed(s) && k < |s.Here().memory| && !s.Here().memory[k].owned
    requires Allocator.ReallocStep(s.clusters, s.Here().memory[k].phys, size, r, u)
    requires z.stacks == s.stacks
    requires z.memories == s.memories[s.uses[s.cur] := Clean(s.Here().memory[k := Moved(s.Here().memory[k], r, size)])]
    requires z.clusters == CleanDrops(u, s.Here().memory[k := Moved(s.Here().memory[k], r, size)])
    ensures Backed(z) <==> LentMayMove(s, s.Here().memory[k].phys, size)
  {
    hide Laid, Clean, CleanDrops, Allocator.WellFormed, Allocator.AllocSize, Allocator.ReallocStep;
    var p, m := s.Here().memory[k].phys, Moved(s.Here().memory[k], r, size);
    HereAligned(s, k);
    LentCleaned(s, k, m, u);
    ReallocFrees(s.clusters, p, size, r, u);
    if LentMayMove(s, p, size) {
      LentKeeps(s, k, m, z);
    } else {
      var x :| Owns(s, x) && At(s, x).phys == p;
      assert Covered(s.clusters, At(s, x));
      LentLoses(s, k, m, z, x);
    }
  }

  lemma ReallocBacked(s: System, k: nat, size: nat, r: nat, u: Clusters, z: System)
    requires Paged(s) && Backed(s) && k < |s.Here().memory| && s.Here().memory[k].owned
    requires Allocator.ReallocStep(s.clusters, s.Here().memory[k].phys, size, r, u)
    requires z.stacks == s.stacks
    requires z.memories == s.memories[s.uses[s.cur] := Clean(s.Here().memory[k := Moved(s.Here().memory[k], r, size)])]
    requires z.clusters == CleanDrops(u, s.Here().memory[k := Moved(s.Here().memory[k], r, size)])
    ensures Backed(z)
  {
    hide Laid, Clean, CleanDrops, Allocator.WellFormed, Allocator.AllocSize, Allocator.ReallocStep, Covered;
    var was := s.Here().memory[k];
    UsedHere(s, k);
    assert Allocator.Used(was.phys) && Allocator.AllocSize(s.clusters, was.phys) > 0;
    ReallocSpares(s.clusters, was.phys, size, r, u);
    if r > 0 {
      PagesCover(u, Moved(was, r, size));
    }
    ChangeBacked(s, k, Moved(was, r, size), u, z);
  }

  lemma AllocBacked(s: System, size: nat, r: nat, u: Clusters, z: System)
    requires Paged(s) && Backed(s) && Answered(s, Alloc(size), r, u, z)
    ensures Backed(z)
  {
    hide Laid, Allocator.WellFormed, Allocator.AllocStep, Allocator.AllocSize;
    AllocSpares(s.clusters, size, r, u);
    if r > 0 {
      PagesCover(u, NewMapping(s, r, size));
      AppendKeeps(s, NewMapping(s, r, size), z);
    } else {
      SameHoldings(s, z);
    }
  }

  lemma InplaceBacked(s: System, k: nat, size: nat, z: System)
    requires Paged(s) && Backed(s) && k < |s.Here().memory|
    requires var m := s.Here().memory[k];
             z == Changed(s, k, m.(size := Min(size, Allocator.AllocSize(s.clusters, m.phys))), s.clusters)
    ensures Backed(z)
  {
    hide Laid, Clean, CleanDrops, Allocator.WellFormed, Allocator.AllocSize, Covered;
    var was := s.Here().memory[k];
    var m := was.(size := Min(size, Allocator.AllocSize(s.clusters, was.phys)));
    if was.owned {
      UsedHere(s, k);
      if m.size > 0 {
        PagesCover(s.clusters, m);
      }
      ChangeBacked(s, k, m, s.clusters, z);
    } else {
      LentBacked(s, k, m, z);
    }
  }

  lemma UnallocBacked(s: System, k: nat, z: System)
    requires Paged(s) && Backed(s) && k < |s.Here().memory|
    requires z == Changed(s, k, s.Here().memory[k].(size := 0), s.clusters)
    ensures Backed(z)
  {
    hide Laid, Clean, CleanDrops, Allocator.WellFormed, Allocator.AllocSize, Covered;
    var m := s.Here().memory[k].(size := 0);
    if m.owned {
      ChangeBacked(s, k, m, s.clusters, z);
    } else {
      LentBacked(s, k, m, z);
    }
  }

  lemma BrkBacked(s: System, addr: nat, r: nat, u: Clusters, z: System)
    requires Paged(s) && Backed(s) && Answered(s, Brk(addr), r, u, z)
    ensures Backed(z)
  {
    hide Laid, Clean, CleanDrops, Unmapped, Mapped, Covered, Allocator.WellFormed, Allocator.AllocSize;
    hide Allocator.ReallocStep;
    var ms := s.Here().memory;
    if Resizes(ms, addr) {
      ReallocBacked(s, |ms| - 1, addr - ms[|ms| - 1].virt, r, u, z);
    } else {
      IdlePages(s, s.With(Clean(ms), s.pages, CleanDrops(s.clusters, ms)));
      SameHoldings(s, z);
    }
  }

  /** A call leaves each owned mapping an allocation of its own, room or no room, if and only if it does
      not move a lent block away from its owner. */
  lemma StepBacked(s: System, c: Call, r: nat, u: Clusters, z: System)
    requires Paged(s) && Backed(s) && Answered(s, c, r, u, z)
    ensures Backed(z) <==> Harmless(s, c)
  {
    hide Laid, Good, Clean, CleanDrops, Unmapped, Mapped, Covered, LentMayMove;
    hide Allocator.WellFormed, Allocator.AllocSize, Allocator.ReallocStep, Allocator.AllocStep;
    var ms := s.Here().memory;
    match c
    case Switch(to) => SameHoldings(s, z);
    case Alloc(size) => AllocBacked(s, size, r, u, z);
    case Brk(addr) => BrkBacked(s, addr, r, u, z);
    case Unalloc(ptr) =>
      if Find(ms, ptr) < |ms| {
        UnallocBacked(s, Find(ms, ptr), z);
      } else {
        IdlePages(s, z);
      }
    case Inplace(ptr, size) =>
      if Find(ms, ptr) < |ms| {
        InplaceBacked(s, Find(ms, ptr), size, z);
      } else {
        IdlePages(s, z);
      }
    case Realloc(ptr, size) =>
      if Find(ms, ptr) == |ms| {
        IdlePages(s, z);
      } else if ms[Find(ms, ptr)].owned {
        ReallocBacked(s, Find(ms, ptr), size, r, u, z);
      } else {
        LentReallocBacked(s, Find(ms, ptr), size, r, u, z);
      }
  }

  lemma SameHoldings(s: System, z: System)
    requires Backed(s) && Allocator.WellFormed(z.clusters)
    requires forall q :: Allocator.Used(q) ==> Allocator.AllocSize(z.clusters, q) == Allocator.AllocSize(s.clusters, q)
    requires forall x :: Owns(z, x) ==> Owns(s, x) && At(z, x) == At(s, x)
    ensures Backed(z)
  {
    hide Allocator.WellFormed, Allocator.AllocSize;
  }

  // ---------------------------------------------------------------- isolation

  /** Every page of an owned mapping shows a frame inside its own allocation. */
  lemma FrameOwned(t: Clusters, m: Mapping, p: nat)
    requires Allocator.WellFormed(t) && Covered(t, m) && m.HasPage(p) && m.phys % PAGE_SIZE == 0
    ensures PhysicalMemory.Holds(t, m.EntryAt(p).frame, m.phys)
  {
    hide Allocator.WellFormed, Allocator.AllocSize, PhysicalMemory.Holds;
    PhysicalMemory.SizeInMemory(t, m.phys);
    var j := p - m.FirstPage();
    assert m.EntryAt(p).frame == m.phys + j * PAGE_SIZE;
    assert j * PAGE_SIZE < m.Pages() * PAGE_SIZE;
  }

  lemma FrameStep(m: Mapping, p: nat, q: nat)
    requires m.HasPage(p) && m.HasPage(q) && p != q
    ensures m.EntryAt(p).frame != m.EntryAt(q).frame
  {
  }

  /** Where a page that a program can use comes from: the place of the mapping that has it. */
  ghost predicate ComesFrom(s: System, i: nat, p: nat, x: Place)
    requires s.Shaped() && i < |s.stacks|
  {
    && Has(s, x) && At(s, x).HasPage(p)
    && (x.OfStack? ==> x.i == i) && (x.InMemory? ==> x.g == s.uses[i])
  }

  lemma UserPageComesFrom(s: System, i: nat, p: nat) returns (x: Place)
    requires Paged(s) && i < |s.stacks| && p < |s.pages| && Laid(|s.pages|, s.SpaceOf(i))[p].user
    ensures ComesFrom(s, i, p, x) && Laid(|s.pages|, s.SpaceOf(i))[p] == At(s, x).EntryAt(p)
    ensures At(s, x).phys % PAGE_SIZE == 0
  {
    hide Laid, Mapping.HasPage, Mapping.EntryAt, Mapping.PageEnd;
    var a := s.SpaceOf(i);
    LaidShows(|s.pages|, a, p);
    assert Good(|s.pages|, a);
    if k :| 0 <= k < |a.memory| && a.memory[k].HasPage(p) {
      x := InMemory(s.uses[i], k);
    } else {
      x := OfStack(i);
    }
  }

  /** Page `p` of context `i` belongs to a mapping that was only lent to it. */
  ghost predicate PageLent(s: System, i: nat, p: nat)
    requires s.Shaped() && i < |s.stacks|
  {
    exists m :: m in s.SpaceOf(i).All() && m.HasPage(p) && !m.owned
  }

  lemma OwnedPlace(s: System, i: nat, p: nat, x: Place)
    requires s.Shaped() && Backed(s) && i < |s.stacks| && ComesFrom(s, i, p, x) && !PageLent(s, i, p)
    ensures Owns(s, x) && Covered(s.clusters, At(s, x))
  {
    hide Covered, Mapping.HasPage, Allocator.WellFormed;
    assert At(s, x) in s.SpaceOf(i).All();
  }

  /** Memory isolation: two pages that two contexts can use show the same frame only if they are the
      same page of a memory they share, or one of the two belongs to a window that was lent. */
  lemma Isolation(s: System, i: nat, j: nat, p: nat, q: nat)
    requires s.Shaped() && Paged(s) && Backed(s) && i < |s.stacks| && j < |s.stacks| && p < |s.pages| && q < |s.pages|
    requires Laid(|s.pages|, s.SpaceOf(i))[p].user && Laid(|s.pages|, s.SpaceOf(j))[q].user
    requires Laid(|s.pages|, s.SpaceOf(i))[p].frame == Laid(|s.pages|, s.SpaceOf(j))[q].frame
    ensures (p == q && s.uses[i] == s.uses[j]) || PageLent(s, i, p) || PageLent(s, j, q)
  {
    hide Laid, Mapping.HasPage, Mapping.EntryAt, Paged, Allocator.WellFormed, Covered, PageLent;
    if !PageLent(s, i, p) && !PageLent(s, j, q) {
      var x := UserPageComesFrom(s, i, p);
      var y := UserPageComesFrom(s, j, q);
      OwnedPlace(s, i, p, x);
      OwnedPlace(s, j, q, y);
      FrameOwned(s.clusters, At(s, x), p);
      FrameOwned(s.clusters, At(s, y), q);
      assert At(s, x).phys == At(s, y).phys;
      if p != q {
        FrameStep(At(s, x), p, q);
      }
    }
  }

  // ---------------------------------------------------------------- runs

  ghost predicate HarmlessAt(states: seq<System>, calls: seq<Call>, k: nat)
    requires k < |calls| < |states|
  {
    states[k].Shaped() && Harmless(states[k], calls[k])
  }

  /** Over any run with room every owned mapping keeps an allocation of its own, and so `Isolation`
      holds, if and only if no call moves a lent block away from its owner. */
  lemma RunBacked(states: seq<System>, calls: seq<Call>)
    requires IsRun(states, calls) && Paged(states[0]) && Backed(states[0])
    ensures (forall k :: 0 <= k < |states| ==> Backed(states[k]))
            <==> (forall k :: 0 <= k < |calls| ==> HarmlessAt(states, calls, k))
  {
    hide RoomyStep, Paged, Backed, Harmless, System.Shaped;
    RunPaged(states, calls);
    forall k | 0 <= k < |calls| && Backed(states[k])
      ensures Backed(states[k + 1]) <==> HarmlessAt(states, calls, k)
    {
      RoomyBacked(states[k], calls[k], states[k + 1]);
    }
    if forall k :: 0 <= k < |calls| ==> HarmlessAt(states, calls, k) {
      forall k | 0 <= k < |states|
        ensures Backed(states[k])
      {
        BackedUpTo(states, calls, k);
      }
    }
    if forall k :: 0 <= k < |states| ==> Backed(states[k]) {
      forall k | 0 <= k < |calls|
        ensures HarmlessAt(states, calls, k)
      {
        assert Backed(states[k]) && Backed(states[k + 1]);
      }
    }
  }

  lemma RoomyBacked(s: System, c: Call, z: System)
    requires s.Shaped() && Paged(s) && Backed(s) && RoomyStep(s, c, z)
    ensures Backed(z) <==> Harmless(s, c)
  {
    hide Answered, Room, Paged, Backed, Harmless;
    var r, u :| Answered(s, c, r, u, z) && Room(s, c, r);
    StepBacked(s, c, r, u, z);
  }

  lemma {:induction false} BackedUpTo(states: seq<System>, calls: seq<Call>, n: nat)
    requires |states| == |calls| + 1 && n < |states| && Backed(states[0])
    requires forall k :: 0 <= k < |calls| ==> HarmlessAt(states, calls, k)
    requires forall k :: 0 <= k < |calls| && Backed(states[k]) ==>
               (Backed(states[k + 1]) <==> HarmlessAt(states, calls, k))
    ensures Backed(states[n])
  {
    hide Backed, HarmlessAt;
    if n > 0 {
      BackedUpTo(states, calls, n - 1);
      assert HarmlessAt(states, calls, n - 1);
    }
  }

  /** A block that was lent and reallocated is gone for its owner. */
  lemma LentBlockLost()
    ensures exists s: System, z: System ::
              Paged(s) && Backed(s) && Answered(s, Realloc(0x2000, 0), 0, z.clusters, z) && !Backed(z)
  {
    hide Laid, Clean, CleanDrops, Patched, Paged, Backed;
    var s := Lender();
    LenderSound();
    var window := s.Here().memory[1];
    var u := Allocator.Unalloced(s.clusters, window.phys);
    var z := Changed(s, 1, Moved(window, 0, 0), u);
    LentCleaned(s, 1, Moved(window, 0, 0), u);
    assert Answered(s, Realloc(0x2000, 0), 0, z.clusters, z);
    assert Owns(s, InMemory(1, 0)) && At(s, InMemory(1, 0)).phys == window.phys;
    assert !LentMayMove(s, window.phys, 0);
    StepBacked(s, Realloc(0x2000, 0), 0, u, z);
  }

  /** Context 0 has a page of its own and a window onto the page of context 1. */
  function Lender(): System {
    var a, b: nat := Allocator.ClusterToAddress(0), Allocator.ClusterToAddress(1);
    var server := [Mapping(a, 0x1000, 0x1000, true, true), Mapping(b, 0x2000, 0x1000, true, false)];
    var client := [Mapping(b, 0x1000, 0x1000, true, true)];
    System([a, b], Laid(8, Space(None, server)), [None, None], [0, 1], [server, client], 0)
  }

  lemma LenderSound()
    ensures Lender().Shaped() && Paged(Lender()) && Backed(Lender())
    ensures |Lender().Here().memory| == 2 && Find(Lender().Here().memory, 0x2000) == 1
  {
    LenderPaged();
    LenderBacked();
    assert Lender().memories[0][1..] == [Lender().memories[0][1]];
  }

  lemma LenderPaged()
    ensures Lender().Shaped() && Paged(Lender())
  {
    hide Laid, Allocator.ClusterToAddress;
    var s := Lender();
    Allocator.AddressAligned(0);
    Allocator.AddressAligned(1);
    assert s.Here() == Space(None, s.memories[0]) == s.SpaceOf(0) && s.SpaceOf(1) == Space(None, s.memories[1]);
    assert Good(8, s.SpaceOf(0)) && Good(8, s.SpaceOf(1));
  }

  lemma LenderBacked()
    ensures Backed(Lender())
  {
    hide Laid, Allocator.ClusterToAddress, Allocator.AllocSize, Allocator.WellFormed;
    var s := Lender();
    TwoBlocks(s.clusters, s.clusters[0], s.clusters[1]);
    OnlyTwoOwn(s);
  }

  lemma OnlyTwoOwn(s: System)
    requires s == Lender()
    ensures forall x :: Owns(s, x) ==> x == InMemory(0, 0) || x == InMemory(1, 0)
  {
  }

  lemma TwoBlocks(t: Clusters, a: nat, b: nat)
    requires t == [a, b] && a == Allocator.ClusterToAddress(0) && b == Allocator.ClusterToAddress(1)
    ensures Allocator.WellFormed(t) && Allocator.Used(a) && Allocator.Used(b) && a != b
    ensures Allocator.AllocSize(t, a) == PAGE_SIZE && Allocator.AllocSize(t, b) == PAGE_SIZE
  {
    Allocator.AddressRoundTrip(0);
    Allocator.AddressRoundTrip(1);
    assert Allocator.RunLength(t, 2, b) == 0 && Allocator.RunLength(t, 1, a) == 0;
    assert Allocator.InRun(t, 0) && Allocator.InRun(t, 1);
  }
}
