/** The allocator's loops over the cluster table and over memory itself
    (kernel/arch/memory.rs, crates/system/externs.rs). */
module PhysicalMemory {
  import opened Common
  import opened Allocator

  /** `memmove`: the areas may overlap. */
  method Memmove(ram: array<Byte>, dest: nat, src: nat, n: nat)
    requires n > 0 ==> dest + n <= ram.Length && src + n <= ram.Length
    modifies ram
    ensures forall a :: dest <= a < dest + n ==> ram[a] == old(ram[src + (a - dest)])
    ensures forall a :: 0 <= a < ram.Length && !(dest <= a < dest + n) ==> ram[a] == old(ram[a])
  {
    if src < dest {
      var i := n;
      while i != 0
        invariant 0 <= i <= n
        invariant forall a :: dest + i <= a < dest + n ==> ram[a] == old(ram[src + (a - dest)])
        invariant forall a :: 0 <= a < ram.Length && !(dest + i <= a < dest + n) ==> ram[a] == old(ram[a])
      {
        i := i - 1;
        ram[dest + i] := ram[src + i];
      }
    } else {
      var i := 0;
      while i < n
        invariant 0 <= i <= n
        invariant forall a :: dest <= a < dest + i ==> ram[a] == old(ram[src + (a - dest)])
        invariant forall a :: 0 <= a < ram.Length && !(dest <= a < dest + i) ==> ram[a] == old(ram[a])
      {
        ram[dest + i] := ram[src + i];
        i := i + 1;
      }
    }
  }

  method Memset(ram: array<Byte>, s: nat, c: Byte, n: nat)
    requires s + n <= ram.Length
    modifies ram
    ensures forall a :: 0 <= a < ram.Length ==> ram[a] == if s <= a < s + n then c else old(ram[a])
  {
    var i := 0;
    while i < n
      invariant 0 <= i <= n
      invariant forall a :: 0 <= a < ram.Length ==> ram[a] == if s <= a < s + i then c else old(ram[a])
    {
      ram[s + i] := c;
      i := i + 1;
    }
  }

  /** The byte at an address lies in a cluster with this tag. */
  predicate Holds(t: seq<nat>, a: nat, p: nat) {
    a >= FIRST && AddressToCluster(a) < |t| && t[AddressToCluster(a)] == p
  }

  /** What fits of a block's bytes is at its new place. */
  ghost predicate BlockMoves(t: seq<nat>, from: nat, to: nat, size: nat, was: Bytes, now: Bytes) {
    forall a :: to <= a < to + size && a < to + AllocSize(t, from) ==>
      a < |now| && from + (a - to) < |was| && now[a] == was[from + (a - to)]
  }

  class Memory {
    const clusters: array<nat>
    const ram: array<Byte>

    ghost predicate Valid() {
      && clusters.Length == CLUSTER_COUNT
      && ram.Length == ClusterToAddress(CLUSTER_COUNT)
      && clusters as object != ram
    }

    ghost function Table(): seq<nat>
      reads clusters
    {
      clusters[..]
    }

    constructor (clusters: array<nat>, ram: array<Byte>)
      requires clusters.Length == CLUSTER_COUNT && ram.Length == ClusterToAddress(CLUSTER_COUNT)
      requires clusters as object != ram
      ensures Valid() && this.clusters == clusters && this.ram == ram
    {
      this.clusters, this.ram := clusters, ram;
    }

    /** Scan for the first aligned run of free clusters that holds `size` bytes. */
    method FindRun(size: nat, align: nat) returns (number: nat, count: nat)
      requires Valid() && size > 0 && align > 0
      ensures count * CLUSTER_SIZE >= size ==> count == Clusters(size) && FirstFreeRun(Table(), number, count, align)
      ensures count * CLUSTER_SIZE < size ==> NoFreeRun(Table(), Clusters(size), align)
    {
      number, count := 0, 0;
      var i := 0;
      while i < CLUSTER_COUNT
        invariant 0 <= i <= CLUSTER_COUNT && count <= i && count * CLUSTER_SIZE < size
        invariant count > 0 ==> number == i - count && FreeRun(Table(), number, count, align)
        invariant forall r: nat :: r < i - count ==> !FreeRun(Table(), r, Clusters(size), align)
      {
        if clusters[i] == 0 && (count > 0 || ClusterToAddress(i) % align == 0) {
          if count == 0 {
            number := i;
          }
          count := count + 1;
          if count * CLUSTER_SIZE >= size {
            break;
          }
        } else {
          ghost var was := i - count;
          forall r: nat | r <= i
            ensures !FreeRun(Table(), r, Clusters(size), align)
          {
            if was <= r && clusters[i] != 0 {
              assert Table()[i] != 0;
              assert r + Clusters(size) > i;
            }
          }
          count := 0;
        }
        i := i + 1;
      }
    }

    /** `alloc_aligned`; `alloc` is the case of alignment one. */
    method AllocAligned(size: nat, align: nat) returns (r: nat)
      requires Valid() && align > 0
      modifies clusters, ram
      ensures AllocStep(old(Table()), size, align, r, Table())
      ensures forall a :: 0 <= a < ram.Length ==>
                ram[a] == if r != 0 && r <= a < r + Clusters(size) * CLUSTER_SIZE then 0 else old(ram[a])
    {
      hide FirstFreeRun, NoFreeRun, Claimed;
      if size > 0 {
        var number, count := FindRun(size, align);
        if count * CLUSTER_SIZE >= size {
          RunFits(Table(), number, count, align);
          var address := ClusterToAddress(number);
          Memset(ram, address, 0, count * CLUSTER_SIZE);
          SetRun(number, count, address);
          r := address;
          NoneIfSome(old(Table()), number, count, align);
          return;
        }
      }
      return 0;
    }

    method SetRun(number: nat, count: nat, address: nat)
      requires Valid() && number + count <= CLUSTER_COUNT && address == ClusterToAddress(number)
      modifies clusters
      ensures Table() == Claimed(old(Table()), number, count)
    {
      for i := number to number + count
        invariant forall j :: 0 <= j < CLUSTER_COUNT ==>
                    clusters[j] == if number <= j < i then address else old(clusters[j])
      {
        clusters[i] := address;
      }
    }

    method SizeOf(ptr: nat) returns (size: nat)
      requires Valid()
      ensures size == AllocSize(Table(), ptr)
    {
      size := 0;
      if ptr > 0 {
        var i := AddressToCluster(ptr);
        ghost var k := i;
        while i < CLUSTER_COUNT
          invariant k <= i && (i <= CLUSTER_COUNT || i == k)
          invariant size + RunLength(Table(), i, ptr) * CLUSTER_SIZE == AllocSize(Table(), ptr)
          decreases CLUSTER_COUNT - i
        {
          if clusters[i] != ptr {
            break;
          }
          size := size + CLUSTER_SIZE;
          i := i + 1;
        }
      }
    }

    /** `unalloc`: free clusters from the pointer on, while they carry its tag. */
    method Free(ptr: nat)
      requires Valid()
      modifies clusters
      ensures Table() == Unalloced(old(Table()), ptr)
    {
      hide RunLength, AddressToCluster;
      if ptr > 0 {
        var i := AddressToCluster(ptr);
        ghost var k, n := i, RunLength(Table(), i, ptr);
        while i < CLUSTER_COUNT
          invariant k <= i <= k + n
          invariant forall j :: 0 <= j < CLUSTER_COUNT ==>
                      clusters[j] == if k <= j < i then 0 else old(clusters[j])
        {
          assert clusters[i] == old(Table())[i];
          if clusters[i] != ptr {
            break;
          }
          clusters[i] := 0;
          i := i + 1;
        }
      }
    }

    /** `realloc`: bytes of the old block move along; no other allocation's bytes change. */
    method Reallocate(ptr: nat, size: nat) returns (ret: nat)
      requires Valid() && WellFormed(Table()) && ptr != NOT_PRESENT
      modifies clusters, ram
      ensures ReallocStep(old(Table()), ptr, size, ret, Table())
      ensures WellFormed(Table()) && SameMarkers(old(Table()), Table())
      ensures ret > 0 ==> BlockMoves(old(Table()), ptr, ret, size, old(ram[..]), ram[..])
      ensures forall a, p: nat :: 0 <= a < ram.Length && Used(p) && Holds(old(Table()), a, p) ==> ram[a] == old(ram[a])
    {
      hide RunLength, AllocSize, FirstFreeRun, NoFreeRun, Claimed, Unalloced, WellFormed;
      ret := 0;
      ghost var t := Table();
      if size == 0 {
        if ptr > 0 {
          Free(ptr);
        } else {
          UnallocNull(t);
        }
        UnallocKeeps(t, ptr);
      } else {
        var oldSize := SizeOf(ptr);
        SizeInMemory(t, ptr);
        if size <= oldSize {
          ret := ptr;
        } else {
          ret := AllocAligned(size, 1);
          AllocKeeps(t, size, 1, ret, Table());
          AllocIsApart(t, size, ret, Table(), ptr);
          ghost var u := Table();
          if ptr > 0 {
            if ret > 0 {
              Memmove(ram, ret, ptr, if oldSize < size then oldSize else size);
            }
            Free(ptr);
          } else {
            UnallocNull(u);
          }
          UnallocKeeps(u, ptr);
        }
      }
    }

    method MemoryUsed() returns (ret: nat)
      requires Valid()
      ensures ret == UsedClusters(Table()) * CLUSTER_SIZE
    {
      ret := 0;
      var i := 0;
      while i < CLUSTER_COUNT
        invariant 0 <= i <= CLUSTER_COUNT && ret == UsedClusters(Table()[..i]) * CLUSTER_SIZE
      {
        assert Table()[..i + 1][..i] == Table()[..i];
        if clusters[i] != 0 && clusters[i] != NOT_PRESENT {
          ret := ret + CLUSTER_SIZE;
        }
        i := i + 1;
      }
      assert Table()[..i] == Table();
    }

    method MemoryFree() returns (ret: nat)
      requires Valid()
      ensures ret == FreeClusters(Table()) * CLUSTER_SIZE
    {
      ret := 0;
      var i := 0;
      while i < CLUSTER_COUNT
        invariant 0 <= i <= CLUSTER_COUNT && ret == FreeClusters(Table()[..i]) * CLUSTER_SIZE
      {
        assert Table()[..i + 1][..i] == Table()[..i];
        if clusters[i] == 0 {
          ret := ret + CLUSTER_SIZE;
        }
        i := i + 1;
      }
      assert Table()[..i] == Table();
    }
  }

  lemma NoneIfSome(t: seq<nat>, s: nat, n: nat, align: nat)
    requires align > 0 && FirstFreeRun(t, s, n, align)
    ensures !NoFreeRun(t, n, align)
  {
  }

  lemma UnallocNull(t: seq<nat>)
    ensures Unalloced(t, 0) == t
  {
  }

  lemma RunFits(t: seq<nat>, s: nat, n: nat, align: nat)
    requires align > 0 && FirstFreeRun(t, s, n, align)
    ensures s + n <= |t| && ClusterToAddress(s) + n * CLUSTER_SIZE == ClusterToAddress(s + n)
    ensures AddressToCluster(ClusterToAddress(s)) == s
  {
    AddressRoundTrip(s);
  }

  /** An allocation's bytes lie in memory, all in clusters it owns. */
  lemma SizeInMemory(t: seq<nat>, p: nat)
    requires WellFormed(t) && p != NOT_PRESENT
    ensures AllocSize(t, p) > 0 ==> p >= FIRST && p + AllocSize(t, p) <= ClusterToAddress(|t|)
    ensures forall a: nat :: p <= a < p + AllocSize(t, p) ==> Holds(t, a, p)
  {
    var b := AddressToCluster(p);
    if AllocSize(t, p) > 0 {
      assert InRun(t, b);
      assert p == ClusterToAddress(b);
      forall a: nat | p <= a < p + AllocSize(t, p)
        ensures Holds(t, a, p)
      {
        assert AddressToCluster(a) == b + (a - p) / CLUSTER_SIZE;
        assert (a - p) / CLUSTER_SIZE < RunLength(t, b, p);
      }
    }
  }

  /** New memory overlaps no allocation's bytes. */
  lemma AllocIsApart(t: seq<nat>, size: nat, r: nat, u: seq<nat>, ptr: nat)
    requires WellFormed(t) && AllocStep(t, size, 1, r, u) && size > 0 && ptr != NOT_PRESENT
    ensures r != 0 ==> r + Clusters(size) * CLUSTER_SIZE <= ClusterToAddress(|t|)
    ensures r != 0 ==>
              forall a: nat, p: nat :: Used(p) && Holds(t, a, p) ==> !(r <= a < r + Clusters(size) * CLUSTER_SIZE)
    ensures r != 0 && AllocSize(t, ptr) > 0 ==>
              r + Clusters(size) * CLUSTER_SIZE <= ptr || ptr + AllocSize(t, ptr) <= r
    ensures size <= Clusters(size) * CLUSTER_SIZE
  {
    if r != 0 {
      var end := r + Clusters(size) * CLUSTER_SIZE;
      forall a: nat, p: nat | Used(p) && Holds(t, a, p)
        ensures !(r <= a < end)
      {
        if r <= a < end {
          NewIsFree(t, size, r, u, a);
        }
      }
      if AllocSize(t, ptr) > 0 {
        SizeInMemory(t, ptr);
        var x := if r < ptr then ptr else r;
        assert x < ptr + AllocSize(t, ptr) ==> Holds(t, x, ptr);
      }
    }
  }

  lemma NewIsFree(t: seq<nat>, size: nat, r: nat, u: seq<nat>, a: nat)
    requires AllocStep(t, size, 1, r, u) && size > 0 && r != 0 && r <= a < r + Clusters(size) * CLUSTER_SIZE
    ensures Holds(t, a, 0)
  {
    var s := AddressToCluster(r);
    assert AddressToCluster(a) == s + (a - r) / CLUSTER_SIZE;
  }
}
