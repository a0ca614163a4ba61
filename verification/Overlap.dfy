/** A run of memory calls that ends with two mappings on one page (kernel/syscall/memory.rs): a mapping
    is shrunk in place, the next one is put right behind it, and then it grows back into the block it
    never gave up. */
module Overlap {
  import opened Common
  import opened AddressSpace
  import opened MemoryCalls
  import Allocator

  /** One context without a stack, on a machine of eight pages. */
  ghost predicate Alone(s: System, t: Clusters, ms: seq<Mapping>) {
    && s.stacks == [None] && s.uses == [0] && s.memories == [ms] && s.cur == 0
    && s.clusters == t && |s.pages| == 8 && Paged(s)
  }

  lemma AloneHere(s: System, t: Clusters, ms: seq<Mapping>)
    requires Alone(s, t, ms)
    ensures s.Shaped() && s.Here() == s.SpaceOf(0) == Space(None, ms) && Good(8, Space(None, ms))
  {
    hide Laid;
  }

  lemma DoAlloc(s: System, t: Clusters, ms: seq<Mapping>, size: nat, r: nat, u: Clusters) returns (z: System)
    requires Alone(s, t, ms) && Allocator.AllocStep(t, size, 1, r, u) && r > 0
    requires Mapping(r, NextMem(ms), size, true, true).PageEnd() <= 8 * PAGE_SIZE
    ensures s.Shaped() && RoomyStep(s, Alloc(size), z)
    ensures Alone(z, u, ms + [Mapping(r, NextMem(ms), size, true, true)])
  {
    hide Laid, Allocator.AllocStep, NextMem;
    AloneHere(s, t, ms);
    var m := NewMapping(s, r, size);
    z := s.With(ms + [m], MapOn(s.pages, m), u);
    assert Answered(s, Alloc(size), r, u, z);
    StepPages(s, Alloc(size), r, u, z);
  }

  lemma DoInplace(s: System, t: Clusters, ms: seq<Mapping>, k: nat, ptr: nat, size: nat) returns (z: System)
    requires Alone(s, t, ms) && Find(ms, ptr) == k < |ms| && 0 < size <= Allocator.AllocSize(t, ms[k].phys)
    ensures s.Shaped() && Answered(s, Inplace(ptr, size), size, t, z)
    ensures if Fits(8, Space(None, ms), k, ms[k].(size := size))
            then RoomyStep(s, Inplace(ptr, size), z) && Alone(z, t, ms[k := ms[k].(size := size)])
            else !Paged(z)
  {
    hide Laid, Good, Clean, CleanDrops, Patched, Fits, Allocator.AllocSize;
    AloneHere(s, t, ms);
    var m := ms[k].(size := size);
    z := Changed(s, k, m, t);
    assert Answered(s, Inplace(ptr, size), size, t, z);
    StepPages(s, Inplace(ptr, size), size, t, z);
    ChangedClean(ms, k, m, 8, Space(None, ms));
    AllSized(8, Space(None, ms));
    CleanIdle(t, ms[k := m]);
    assert FitsAll(s, k, m) <==> Fits(8, Space(None, ms), k, m) by { assert s.uses[s.cur] == s.uses[0]; }
  }

  function Block(k: nat): nat { Allocator.ClusterToAddress(k) }

  function Start(): (ms: seq<Mapping>) { [Mapping(Block(0), 0x1000, 0x1000, true, true)] }

  lemma Clusters4(a: nat, b: nat, c: nat)
    requires a == Block(0) && b == Block(1) && c == Block(3)
    ensures a % PAGE_SIZE == b % PAGE_SIZE == c % PAGE_SIZE == 0
    ensures a > 0 && b > 0 && c > 0 && a != b && b != c && a != c
    ensures Allocator.AddressToCluster(b) == 1 && Allocator.AddressToCluster(c) == 3
  {
  }

  /** Two clusters fit at 1 first, and after that one at 3. */
  lemma Allocations(a: nat, b: nat, c: nat)
    requires a == Block(0) && b == Block(1) && c == Block(3)
    ensures Allocator.AllocStep([a, 0, 0, 0], 0x2000, 1, b, [a, b, b, 0])
    ensures Allocator.AllocStep([a, b, b, 0], 0x1000, 1, c, [a, b, b, c])
  {
    hide Allocator.ClusterToAddress, Allocator.AddressToCluster;
    Clusters4(a, b, c);
    var t, u := [a, 0, 0, 0], [a, b, b, 0];
    assert !Allocator.FreeRun(t, 0, 2, 1) by { assert t[0] != 0; }
    assert Allocator.FreeRun(t, 1, 2, 1);
    assert Allocator.Claimed(t, 1, 2) == u;
    forall r: nat | r < 3
      ensures !Allocator.FreeRun(u, r, 1, 1)
    {
      assert u[r] != 0;
    }
    assert Allocator.FreeRun(u, 3, 1, 1);
    assert Allocator.Claimed(u, 3, 1) == [a, b, b, c];
  }

  lemma Held(t: Clusters, b: nat)
    requires |t| == 4 && b == Block(1) && t[1] == b && t[2] == b && t[3] != b
    ensures Allocator.AllocSize(t, b) == 0x2000
  {
    Allocator.AddressRoundTrip(1);
    assert Allocator.RunLength(t, 3, b) == 0;
    assert Allocator.RunLength(t, 2, b) == 1;
  }

  /** The calls before the last, which all have room. */
  lemma UpToLast(a: nat, b: nat, c: nat, own: Mapping, m2: Mapping, m3: Mapping)
    returns (s0: System, s1: System, s2: System, s3: System)
    requires a == Block(0) && b == Block(1) && c == Block(3) && own == Start()[0]
    requires m2 == Mapping(b, 0x2000, 0x1000, true, true) && m3 == Mapping(c, 0x3000, 0x1000, true, true)
    ensures Paged(s0) && s0.Shaped() && s1.Shaped() && s2.Shaped()
    ensures RoomyStep(s0, Alloc(0x2000), s1) && RoomyStep(s1, Inplace(0x2000, 0x1000), s2)
    ensures RoomyStep(s2, Alloc(0x1000), s3) && Alone(s3, [a, b, b, c], [own, m2, m3])
  {
    hide Laid, Paged, Good, Fits, Block, RoomyStep, Allocator.AllocStep, Allocator.AllocSize, NextMem, Find;
    Clusters4(a, b, c);
    Allocations(a, b, c);
    var m1 := Mapping(b, 0x2000, 0x2000, true, true);
    Addresses(own, m1, m2, m3);
    assert [own] + [m1] == [own, m1] && [own, m1][1 := m2] == [own, m2] && [own, m2] + [m3] == [own, m2, m3];
    s0 := StartSystem(a);
    s1 := DoAlloc(s0, [a, 0, 0, 0], [own], 0x2000, b, [a, b, b, 0]);
    Held([a, b, b, 0], b);
    s2 := DoInplace(s1, [a, b, b, 0], [own, m1], 1, 0x2000, 0x1000);
    s3 := DoAlloc(s2, [a, b, b, 0], [own, m2], 0x1000, c, [a, b, b, c]);
  }

  /** The run: every call but the last has room, and the last leaves two mappings on one page. */
  lemma OverlapReached()
    ensures exists states: seq<System>, calls: seq<Call>, z: System ::
              && IsRun(states, calls) && Paged(states[0]) && |calls| == 3 && states[3].Shaped()
              && Answered(states[3], Inplace(0x2000, 0x2000), 0x2000, states[3].clusters, z) && !Paged(z)
  {
    hide Laid, Paged, Good, Fits, Block, Answered, RoomyStep, System.Shaped, Allocator.AllocSize, NextMem, Find;
    var a, b, c := Block(0), Block(1), Block(3);
    Clusters4(a, b, c);
    var own, m2, m3 := Start()[0], Mapping(b, 0x2000, 0x1000, true, true), Mapping(c, 0x3000, 0x1000, true, true);
    var s0, s1, s2, s3 := UpToLast(a, b, c, own, m2, m3);
    Addresses(own, m2.(size := 0x2000), m2, m3);
    Held([a, b, b, c], b);
    var z := DoInplace(s3, [a, b, b, c], [own, m2, m3], 1, 0x2000, 0x2000);
    var states, calls := [s0, s1, s2, s3], [Alloc(0x2000), Inplace(0x2000, 0x1000), Alloc(0x1000)];
    assert IsRun(states, calls) && Paged(states[0]) && states[3] == s3;
  }

  lemma StartSystem(a: nat) returns (s: System)
    requires a == Block(0)
    ensures Alone(s, [a, 0, 0, 0], Start())
  {
    hide Laid;
    Clusters4(a, Block(1), Block(3));
    s := System([a, 0, 0, 0], Laid(8, Space(None, Start())), [None], [0], [Start()], 0);
    assert s.SpaceOf(0) == Space(None, Start()) && Good(8, Space(None, Start()));
  }

  lemma Addresses(own: Mapping, m1: Mapping, m2: Mapping, m3: Mapping)
    requires own == Start()[0] && m1.virt == 0x2000 && m1.size == 0x2000 && m1.phys % PAGE_SIZE == 0
    requires m2 == m1.(size := 0x1000) && m3.virt == 0x3000 && m3.size == 0x1000
    ensures NextMem([own]) == 0x2000 && NextMem([own, m2]) == 0x3000
    ensures Find([own, m1], 0x2000) == 1 && Find([own, m2, m3], 0x2000) == 1
    ensures m1.PageEnd() == 0x4000 && m2.PageEnd() == 0x3000 && m3.PageEnd() == 0x4000
    ensures Fits(8, Space(None, [own, m1]), 1, m2) && !Fits(8, Space(None, [own, m2, m3]), 1, m1)
  {
    assert [own][..0] == [] && [own, m2][..1] == [own];
    assert NextMem([own]) == 0x2000;
    assert [own, m1][1..] == [m1] && [own, m2, m3][1..] == [m2, m3];
  }
}
