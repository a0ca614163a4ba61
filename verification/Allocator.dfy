/** The physical allocator (kernel/arch/memory.rs) and `memmove` (crates/system/externs.rs).

    Memory is handed out in clusters of 4 KiB.  A table holds one word a cluster: 0 when it is
    free, a marker when there is no memory behind it, and otherwise the address of the
    allocation it belongs to.  `WellFormed` says that these tags cut the used clusters into
    runs, each tagged with the address of its own first cluster. */
module Allocator {

  const PAGE_TABLE_SIZE := 1024
  const PAGE_ENTRY_SIZE := 4
  const PAGE_DIRECTORY := 0x200000
  const PAGE_TABLES := PAGE_DIRECTORY + PAGE_TABLE_SIZE * PAGE_ENTRY_SIZE
  const PAGE_END := PAGE_TABLES + PAGE_TABLE_SIZE * PAGE_TABLE_SIZE * PAGE_ENTRY_SIZE

  const CLUSTER_ADDRESS := PAGE_END
  const CLUSTER_COUNT := 1024 * 1024
  const CLUSTER_SIZE := 4096
  const WORD_SIZE := 4
  const NOT_PRESENT := 0xFFFFFFFF

  /** Where cluster 0 begins. */
  const FIRST := CLUSTER_ADDRESS + CLUSTER_COUNT * WORD_SIZE

  function AddressToCluster(address: nat): nat {
    if address >= FIRST then (address - FIRST) / CLUSTER_SIZE else 0
  }

  function ClusterToAddress(number: nat): nat {
    FIRST + number * CLUSTER_SIZE
  }

  lemma AddressRoundTrip(n: nat)
    ensures AddressToCluster(ClusterToAddress(n)) == n
    ensures ClusterToAddress(n) != 0 && ClusterToAddress(n) != NOT_PRESENT
  {
  }

  lemma AddressAligned(n: nat)
    ensures ClusterToAddress(n) % CLUSTER_SIZE == 0
  {
    if n > 0 {
      AddressAligned(n - 1);
    }
  }

  predicate Used(tag: nat) {
    tag != 0 && tag != NOT_PRESENT
  }

  /** Every used cluster belongs to a run that begins at the address it is tagged with. */
  predicate WellFormed(t: seq<nat>) {
    forall i :: 0 <= i < |t| && Used(t[i]) ==> InRun(t, i)
  }

  predicate InRun(t: seq<nat>, i: nat)
    requires i < |t|
  {
    var b := AddressToCluster(t[i]);
    t[i] == ClusterToAddress(b) && b <= i && forall j :: b <= j <= i ==> t[j] == t[i]
  }

  /** `n` free clusters from `s`, at an aligned address. */
  predicate FreeRun(t: seq<nat>, s: nat, n: nat, align: nat)
    requires align > 0
  {
    s + n <= |t| && ClusterToAddress(s) % align == 0 && forall j :: s <= j < s + n ==> t[j] == 0
  }

  /** The first aligned free run of `n` clusters is at `s`. */
  ghost predicate FirstFreeRun(t: seq<nat>, s: nat, n: nat, align: nat)
    requires align > 0
  {
    FreeRun(t, s, n, align) && forall r: nat :: r < s ==> !FreeRun(t, r, n, align)
  }

  ghost predicate NoFreeRun(t: seq<nat>, n: nat, align: nat)
    requires align > 0
  {
    forall r: nat :: !FreeRun(t, r, n, align)
  }

  /** Clusters a request takes. */
  function Clusters(size: nat): nat {
    (size + CLUSTER_SIZE - 1) / CLUSTER_SIZE
  }

  function Claimed(t: seq<nat>, s: nat, n: nat): (u: seq<nat>)
    requires s + n <= |t|
    ensures |u| == |t|
    ensures forall i :: 0 <= i < |t| ==> u[i] == if s <= i < s + n then ClusterToAddress(s) else t[i]
  {
    var a: nat := ClusterToAddress(s);
    t[..s] + seq(n, _ => a) + t[s + n..]
  }

  /** Everything tagged `p` freed. */
  function Freed(t: seq<nat>, p: nat): (u: seq<nat>)
    ensures |u| == |t|
  {
    seq(|t|, i requires 0 <= i < |t| => if t[i] == p then 0 else t[i])
  }

  /** The number of clusters tagged `p` from `k` on, up to the first other one. */
  function RunLength(t: seq<nat>, k: nat, p: nat): (n: nat)
    ensures k + n <= |t| || n == 0
    ensures forall j :: k <= j < k + n ==> t[j] == p
    ensures k + n < |t| ==> t[k + n] != p
    decreases |t| - k
  {
    if k < |t| && t[k] == p then 1 + RunLength(t, k + 1, p) else 0
  }

  /** `alloc_size`: what the scan from an address measures. */
  function AllocSize(t: seq<nat>, p: nat): nat {
    if p == 0 then 0 else RunLength(t, AddressToCluster(p), p) * CLUSTER_SIZE
  }

  /** The table after the scan of `unalloc`. */
  function Unalloced(t: seq<nat>, p: nat): (u: seq<nat>)
    ensures |u| == |t|
  {
    var k := AddressToCluster(p);
    var n := if p == 0 then 0 else RunLength(t, k, p);
    seq(|t|, i requires 0 <= i < |t| => if k <= i < k + n then 0 else t[i])
  }

  // ---------------------------------------------------------------- runs and tags

  /** `unalloc` frees exactly the run based at its pointer, or nothing. */
  lemma UnallocFrees(t: seq<nat>, p: nat)
    requires WellFormed(t) && p != NOT_PRESENT
    ensures Unalloced(t, p) == Freed(t, p)
  {
    var k := AddressToCluster(p);
    forall i | 0 <= i < |t|
      ensures Unalloced(t, p)[i] == Freed(t, p)[i]
    {
    }
  }

  /** With the marker as pointer it may not: absent clusters become free, and only then. */
  lemma UnallocMarker(t: seq<nat>)
    ensures Unalloced(t, NOT_PRESENT) == t
       <==> !(AddressToCluster(NOT_PRESENT) < |t| && t[AddressToCluster(NOT_PRESENT)] == NOT_PRESENT)
  {
    var k := AddressToCluster(NOT_PRESENT);
    if k < |t| && t[k] == NOT_PRESENT {
      assert Unalloced(t, NOT_PRESENT)[k] == 0;
    }
  }

  /** The cluster whose number the marker stands for is not there, all others are free: it becomes free. */
  lemma MarkerInput()
    ensures var t := seq(CLUSTER_COUNT, i => if i == AddressToCluster(NOT_PRESENT) then NOT_PRESENT else 0);
            WellFormed(t) && Unalloced(t, NOT_PRESENT) != t
  {
    UnallocMarker(seq(CLUSTER_COUNT, i => if i == AddressToCluster(NOT_PRESENT) then NOT_PRESENT else 0));
  }

  /** A free cluster's address tags nothing. */
  lemma FreeBaseUnused(t: seq<nat>, s: nat, i: nat)
    requires WellFormed(t) && s < |t| && t[s] == 0 && i < |t|
    ensures t[i] != ClusterToAddress(s)
  {
    AddressRoundTrip(s);
    assert Used(t[i]) ==> InRun(t, i);
  }

  lemma ClaimedWellFormed(t: seq<nat>, s: nat, n: nat)
    requires WellFormed(t) && s + n <= |t| && forall j :: s <= j < s + n ==> t[j] == 0
    ensures WellFormed(Claimed(t, s, n))
  {
    var u := Claimed(t, s, n);
    AddressRoundTrip(s);
    forall i | 0 <= i < |u| && Used(u[i])
      ensures InRun(u, i)
    {
      if !(s <= i < s + n) {
        assert InRun(t, i);
        forall j | AddressToCluster(t[i]) <= j <= i
          ensures u[j] == u[i]
        {
          assert t[j] == t[i];
        }
      }
    }
  }

  /** A fresh allocation measures its size rounded up, and no other run changes. */
  lemma ClaimedSizes(t: seq<nat>, s: nat, n: nat)
    requires WellFormed(t) && 0 < n && s + n <= |t| && forall j :: s <= j < s + n ==> t[j] == 0
    ensures AllocSize(Claimed(t, s, n), ClusterToAddress(s)) == n * CLUSTER_SIZE
    ensures forall p :: Used(p) && p != ClusterToAddress(s) ==> AllocSize(Claimed(t, s, n), p) == AllocSize(t, p)
  {
    var u, a := Claimed(t, s, n), ClusterToAddress(s);
    AddressRoundTrip(s);
    if s + n < |t| {
      FreeBaseUnused(t, s, s + n);
    }
    forall p | Used(p) && p != a
      ensures AllocSize(u, p) == AllocSize(t, p)
    {
      SameTagsSameRun(t, u, AddressToCluster(p), p);
    }
  }

  /** The scan depends only on which clusters carry the tag. */
  lemma {:induction false} SameTagsSameRun(t: seq<nat>, u: seq<nat>, k: nat, p: nat)
    requires |t| == |u| && forall i :: 0 <= i < |t| ==> (t[i] == p <==> u[i] == p)
    ensures RunLength(t, k, p) == RunLength(u, k, p)
    decreases |t| - k
  {
    if k < |t| && t[k] == p {
      SameTagsSameRun(t, u, k + 1, p);
    }
  }

  // ---------------------------------------------------------------- conservation

  function FreeClusters(t: seq<nat>): nat {
    if t == [] then 0 else FreeClusters(t[..|t| - 1]) + (if t[|t| - 1] == 0 then 1 else 0)
  }

  function UsedClusters(t: seq<nat>): nat {
    if t == [] then 0 else UsedClusters(t[..|t| - 1]) + (if Used(t[|t| - 1]) then 1 else 0)
  }

  predicate SameMarkers(t: seq<nat>, u: seq<nat>) {
    |t| == |u| && forall i :: 0 <= i < |t| ==> (t[i] == NOT_PRESENT <==> u[i] == NOT_PRESENT)
  }

  /** As long as the absent clusters stay absent, used plus free memory stays the same. */
  lemma {:induction false} Conserved(t: seq<nat>, u: seq<nat>)
    requires SameMarkers(t, u)
    ensures UsedClusters(t) + FreeClusters(t) == UsedClusters(u) + FreeClusters(u)
  {
    if t != [] {
      Conserved(t[..|t| - 1], u[..|u| - 1]);
    }
  }

  // ---------------------------------------------------------------- runs of requests

  datatype Request =
    | Alloc(size: nat, align: nat)
    | Unalloc(ptr: nat)
    | Realloc(ptr: nat, size: nat)
  {
    /** What the callers promise: a real alignment, and never the marker as a pointer. */
    predicate Proper() {
      match this
      case Alloc(_, align) => align > 0
      case Unalloc(ptr) => ptr != NOT_PRESENT
      case Realloc(ptr, _) => ptr != NOT_PRESENT
    }
  }

  /** What an aligned allocation does: the first fitting run, or 0 when none fits. */
  ghost predicate AllocStep(t: seq<nat>, size: nat, align: nat, r: nat, u: seq<nat>)
    requires align > 0
  {
    var n := Clusters(size);
    if size == 0 || NoFreeRun(t, n, align) then r == 0 && u == t
    else
      var s := AddressToCluster(r);
      r == ClusterToAddress(s) && FirstFreeRun(t, s, n, align) && u == Claimed(t, s, n)
  }

  /** `realloc` frees the old run whenever it has to move, even when there is nowhere to move to. */
  ghost predicate ReallocStep(t: seq<nat>, p: nat, size: nat, r: nat, u: seq<nat>) {
    if size == 0 then r == 0 && u == Unalloced(t, p)
    else if size <= AllocSize(t, p) then r == p && u == t
    else exists v :: AllocStep(t, size, 1, r, v) && u == Unalloced(v, p)
  }

  ghost predicate Step(t: seq<nat>, q: Request, r: nat, u: seq<nat>)
    requires q.Proper()
  {
    match q
    case Alloc(size, align) => AllocStep(t, size, align, r, u)
    case Unalloc(p) => r == 0 && u == Unalloced(t, p)
    case Realloc(p, size) => ReallocStep(t, p, size, r, u)
  }

  lemma AllocKeeps(t: seq<nat>, size: nat, align: nat, r: nat, u: seq<nat>)
    requires WellFormed(t) && align > 0 && AllocStep(t, size, align, r, u)
    ensures WellFormed(u) && SameMarkers(t, u)
    ensures forall i :: 0 <= i < |t| && Used(t[i]) ==> u[i] == t[i]
    ensures r != 0 ==> t[AddressToCluster(r)] == 0 && AllocSize(u, r) == Clusters(size) * CLUSTER_SIZE
  {
    if u != t {
      var s, n := AddressToCluster(r), Clusters(size);
      AddressRoundTrip(s);
      ClaimedWellFormed(t, s, n);
      ClaimedSizes(t, s, n);
    }
  }

  lemma UnallocKeeps(t: seq<nat>, p: nat)
    requires WellFormed(t) && p != NOT_PRESENT
    ensures WellFormed(Unalloced(t, p)) && SameMarkers(t, Unalloced(t, p))
    ensures Unalloced(t, p) == Freed(t, p)
  {
    UnallocFrees(t, p);
  }

  /** One request keeps the runs whole, the absent clusters absent, and everyone else's memory theirs. */
  lemma StepKeeps(t: seq<nat>, q: Request, r: nat, u: seq<nat>)
    requires WellFormed(t) && q.Proper() && Step(t, q, r, u)
    ensures WellFormed(u) && SameMarkers(t, u)
    ensures forall i :: 0 <= i < |t| && Used(t[i]) && (q.Alloc? || q.ptr != t[i]) ==> u[i] == t[i]
    ensures q.Realloc? && 0 < q.size && r == 0 && Used(q.ptr) ==> forall i :: 0 <= i < |u| ==> u[i] != q.ptr
  {
    hide RunLength, Claimed, Unalloced, FirstFreeRun, NoFreeRun, WellFormed;
    match q
    case Alloc(size, align) => AllocKeeps(t, size, align, r, u);
    case Unalloc(p) => UnallocKeeps(t, p);
    case Realloc(p, size) =>
      UnallocKeeps(t, p);
      if 0 < size && !(size <= AllocSize(t, p)) {
        var v :| AllocStep(t, size, 1, r, v) && u == Unalloced(v, p);
        AllocKeeps(t, size, 1, r, v);
        UnallocKeeps(v, p);
      }
  }

  ghost predicate IsRun(tables: seq<seq<nat>>, requests: seq<Request>, results: seq<nat>) {
    && |tables| == |requests| + 1 && |results| == |requests|
    && forall k :: 0 <= k < |requests| ==>
         requests[k].Proper() && Step(tables[k], requests[k], results[k], tables[k + 1])
  }

  /** Over every run the used clusters stay cut into tagged runs and no memory is gained or lost. */
  lemma {:induction false} RunKeeps(tables: seq<seq<nat>>, requests: seq<Request>, results: seq<nat>)
    requires IsRun(tables, requests, results) && WellFormed(tables[0])
    ensures WellFormed(tables[|requests|]) && SameMarkers(tables[0], tables[|requests|])
    ensures var last := tables[|requests|];
            UsedClusters(last) + FreeClusters(last) == UsedClusters(tables[0]) + FreeClusters(tables[0])
    decreases |requests|
  {
    hide Step, WellFormed, UsedClusters, FreeClusters, Request.Proper;
    if requests != [] {
      var n := |requests| - 1;
      RunKeeps(tables[..n + 1], requests[..n], results[..n]);
      StepKeeps(tables[n], requests[n], results[n], tables[n + 1]);
    }
    Conserved(tables[0], tables[|requests|]);
  }

  /** An allocation no request names stays exactly where it is, through any run. */
  lemma {:induction false} RunLeavesAlone(tables: seq<seq<nat>>, requests: seq<Request>, results: seq<nat>, i: nat)
    requires IsRun(tables, requests, results) && WellFormed(tables[0])
    requires i < |tables[0]| && Used(tables[0][i])
    requires forall k :: 0 <= k < |requests| && !requests[k].Alloc? ==> requests[k].ptr != tables[0][i]
    ensures |tables[|requests|]| == |tables[0]| && tables[|requests|][i] == tables[0][i]
    decreases |requests|
  {
    hide Step, WellFormed, UsedClusters, FreeClusters, Request.Proper;
    if requests != [] {
      var n := |requests| - 1;
      RunLeavesAlone(tables[..n + 1], requests[..n], results[..n], i);
      RunKeeps(tables[..n + 1], requests[..n], results[..n]);
      StepKeeps(tables[n], requests[n], results[n], tables[n + 1]);
    }
  }
}
