/** Writing a file's buffer to its extents and reading it back (kernel/schemes/file.rs, lines 102-163
    and 294-313).

    `sync` hands each extent the next part of the buffer, giving an empty extent room from the free
    space.  After each extent it cuts the buffer off behind the part just written, so all later
    extents receive zeros. */
module Extents {
  import opened Common

  const SECTOR := 512

  datatype Extent = Extent(block: nat, length: nat)
  {
    predicate Empty() { block == 0 || length == 0 }

    function Sectors(): nat { (length + 511) / SECTOR }

    function Capacity(): nat { Sectors() * SECTOR }

    function Start(): nat { block * SECTOR }

    /** The disk bytes the extent's sectors cover. */
    predicate Covers(a: int) { !Empty() && Start() <= a < Start() + Capacity() }
  }

  function Zeros(n: nat): (r: Bytes)
    ensures |r| == n && forall i :: 0 <= i < n ==> r[i] == 0
  {
    seq(n, _ => 0)
  }

  function Padded(v: Bytes, n: nat): (r: Bytes)
    ensures |r| == if |v| < n then n else |v|
    ensures forall i :: 0 <= i < |r| ==> r[i] == if i < |v| then v[i] else 0
  {
    if |v| < n then v + Zeros(n - |v|) else v
  }

  function WriteAt(disk: Bytes, start: nat, data: Bytes): (r: Bytes)
    requires start + |data| <= |disk|
    ensures |r| == |disk|
    ensures forall a :: 0 <= a < |disk| ==> r[a] == if start <= a < start + |data| then data[a - start] else disk[a]
  {
    disk[..start] + data + disk[start + |data|..]
  }

  // ---------------------------------------------------------------- one extent

  /** The variables of the loop in `sync`. */
  datatype Pass = Pass(disk: Bytes, free: Extent, vec: Bytes, pos: nat, remaining: nat, changed: bool)

  function Needed(remaining: nat): nat { (remaining + 511) / SECTOR }

  predicate Allocates(free: Extent, remaining: nat, e: Extent) {
    remaining > 0 && e.Empty() && free.length >= Needed(remaining) * SECTOR
  }

  function FreeAfter(free: Extent, remaining: nat, e: Extent): Extent {
    if Allocates(free, remaining, e)
    then Extent(free.block + Needed(remaining), free.length - Needed(remaining) * SECTOR) else free
  }

  function Given(free: Extent, remaining: nat, e: Extent): Extent {
    if Allocates(free, remaining, e) then Extent(free.block, remaining) else e
  }

  /** How much of the buffer goes to an extent. */
  function Share(e: Extent, remaining: nat): nat {
    if e.Empty() then 0 else Min(remaining, e.Capacity())
  }

  predicate Bounded(disk: Bytes, e: Extent) { e.Empty() || e.Start() + e.Capacity() <= |disk| }

  /** One turn of the loop, for an extent that has its room. */
  function Stored(p: Pass, e: Extent): Pass
    requires Bounded(p.disk, e)
  {
    if e.Empty() then p else
      var size := Share(e, p.remaining);
      var v := Padded(p.vec, p.pos + e.Capacity());
      Pass(WriteAt(p.disk, e.Start(), v[p.pos..p.pos + e.Capacity()]), p.free, v[..p.pos + size],
           p.pos + size, p.remaining - size, p.changed || size != e.length)
  }

  function Resized(e: Extent, remaining: nat): Extent {
    if e.Empty() then e else e.(length := Share(e, remaining))
  }

  function GiveRoom(p: Pass, e: Extent): Pass {
    p.(free := FreeAfter(p.free, p.remaining, e), changed := p.changed || Allocates(p.free, p.remaining, e))
  }

  predicate FreeBounded(disk: Bytes, free: Extent) {
    free.block > 0 && free.Start() + free.length <= |disk|
  }

  predicate AllBounded(disk: Bytes, es: seq<Extent>) {
    forall i :: 0 <= i < |es| ==> Bounded(disk, es[i])
  }

  lemma GivenBounded(disk: Bytes, free: Extent, remaining: nat, e: Extent)
    requires FreeBounded(disk, free) && Bounded(disk, e)
    ensures FreeBounded(disk, FreeAfter(free, remaining, e)) && Bounded(disk, Given(free, remaining, e))
  {
  }

  /** One whole turn. */
  function Turn(p: Pass, e: Extent): Pass
    requires FreeBounded(p.disk, p.free) && Bounded(p.disk, e)
  {
    GivenBounded(p.disk, p.free, p.remaining, e);
    Stored(GiveRoom(p, e), Given(p.free, p.remaining, e))
  }

  function Turned(p: Pass, e: Extent): Extent {
    Resized(Given(p.free, p.remaining, e), p.remaining)
  }

  lemma TurnBounded(p: Pass, e: Extent)
    requires FreeBounded(p.disk, p.free) && Bounded(p.disk, e)
    ensures |Turn(p, e).disk| == |p.disk| && FreeBounded(Turn(p, e).disk, Turn(p, e).free)
  {
    GivenBounded(p.disk, p.free, p.remaining, e);
  }

  function SyncPass(p: Pass, es: seq<Extent>): (r: Pass)
    requires FreeBounded(p.disk, p.free) && AllBounded(p.disk, es)
    ensures |r.disk| == |p.disk|
    decreases |es|
  {
    if es == [] then p else
      TurnBounded(p, es[0]);
      SyncPass(Turn(p, es[0]), es[1..])
  }

  function SyncExtents(p: Pass, es: seq<Extent>): (r: seq<Extent>)
    requires FreeBounded(p.disk, p.free) && AllBounded(p.disk, es)
    ensures |r| == |es|
    decreases |es|
  {
    if es == [] then [] else
      TurnBounded(p, es[0]);
      [Turned(p, es[0])] + SyncExtents(Turn(p, es[0]), es[1..])
  }

  // ---------------------------------------------------------------- reading back

  function ReadExtent(disk: Bytes, e: Extent): Bytes
    requires Bounded(disk, e)
  {
    if e.Empty() then [] else disk[e.Start()..e.Start() + e.length]
  }

  /** What `open` puts into the buffer. */
  function Contents(disk: Bytes, es: seq<Extent>): Bytes
    requires AllBounded(disk, es)
  {
    if es == [] then [] else ReadExtent(disk, es[0]) + Contents(disk, es[1..])
  }

  // ---------------------------------------------------------------- what may be overwritten

  /** No two extents share a byte, and none lies in the free space. */
  ghost predicate Apart(free: Extent, es: seq<Extent>) {
    && (forall i, j, a :: 0 <= i < j < |es| && es[i].Covers(a) ==> !es[j].Covers(a))
    && (forall i, a :: 0 <= i < |es| && es[i].Covers(a) ==> !InFree(free, a))
  }

  predicate InFree(free: Extent, a: int) { free.Start() <= a < free.Start() + free.length }

  predicate CoveredBy(es: seq<Extent>, a: int) { exists i :: 0 <= i < |es| && es[i].Covers(a) }

  /** Room comes from the front of the free space. */
  lemma GivenFromFree(free: Extent, remaining: nat, e: Extent, a: int)
    ensures Given(free, remaining, e).Covers(a) ==>
              e.Covers(a) || (InFree(free, a) && !InFree(FreeAfter(free, remaining, e), a))
    ensures InFree(FreeAfter(free, remaining, e), a) ==> InFree(free, a)
  {
  }

  lemma ResizedCovers(e: Extent, remaining: nat, a: int)
    ensures Resized(e, remaining).Covers(a) ==> e.Covers(a)
    ensures Resized(e, remaining).Sectors() <= e.Sectors()
  {
  }

  /** One turn writes only into its extent or the free space it took. */
  lemma TurnFrame(p: Pass, e: Extent, a: int)
    requires FreeBounded(p.disk, p.free) && Bounded(p.disk, e) && 0 <= a < |p.disk|
    ensures |Turn(p, e).disk| == |p.disk|
    ensures Turn(p, e).disk[a] != p.disk[a] ==> Given(p.free, p.remaining, e).Covers(a)
  {
    GivenBounded(p.disk, p.free, p.remaining, e);
  }

  lemma ApartAfter(p: Pass, es: seq<Extent>)
    requires es != [] && FreeBounded(p.disk, p.free) && AllBounded(p.disk, es) && Apart(p.free, es)
    ensures Apart(Turn(p, es[0]).free, es[1..])
  {
    hide WriteAt, Padded, Extent.Covers, InFree;
    var q := Turn(p, es[0]);
    forall i, a | 0 <= i < |es[1..]| && es[1..][i].Covers(a)
      ensures !InFree(q.free, a)
    {
      GivenFromFree(p.free, p.remaining, es[0], a);
      assert es[i + 1].Covers(a);
    }
  }

  /** A pass writes nothing outside the file's extents and the free space. */
  lemma {:induction false} PassFrame(p: Pass, es: seq<Extent>, a: int)
    requires FreeBounded(p.disk, p.free) && AllBounded(p.disk, es) && 0 <= a < |p.disk|
    ensures |SyncPass(p, es).disk| == |p.disk| && FreeBounded(SyncPass(p, es).disk, SyncPass(p, es).free)
    ensures !CoveredBy(es, a) && !InFree(p.free, a) ==> SyncPass(p, es).disk[a] == p.disk[a]
    decreases |es|
  {
    hide Turn, Extent.Covers, InFree, FreeBounded;
    if es != [] {
      TurnBounded(p, es[0]);
      TurnFrame(p, es[0], a);
      GivenFromFree(p.free, p.remaining, es[0], a);
      FreeOfTurn(p, es[0]);
      PassFrame(Turn(p, es[0]), es[1..], a);
      if !CoveredBy(es, a) {
        assert !es[0].Covers(a);
        assert forall i :: 0 <= i < |es[1..]| ==> es[1..][i] == es[i + 1];
      }
    }
  }

  lemma FreeOfTurn(p: Pass, e: Extent)
    requires FreeBounded(p.disk, p.free) && Bounded(p.disk, e)
    ensures Turn(p, e).free == FreeAfter(p.free, p.remaining, e)
  {
  }

  // ---------------------------------------------------------------- what a pass leaves to be read

  lemma SyncBounded(p: Pass, es: seq<Extent>)
    requires FreeBounded(p.disk, p.free) && AllBounded(p.disk, es)
    ensures AllBounded(SyncPass(p, es).disk, SyncExtents(p, es))
    ensures |SyncPass(p, es).disk| == |p.disk|
    decreases |es|
  {
    hide Turn, FreeBounded;
    if es != [] {
      TurnBounded(p, es[0]);
      TurnedBounded(p, es[0]);
      SyncBounded(Turn(p, es[0]), es[1..]);
    }
  }

  lemma TurnedBounded(p: Pass, e: Extent)
    requires FreeBounded(p.disk, p.free) && Bounded(p.disk, e)
    ensures Bounded(p.disk, Turned(p, e))
  {
    GivenBounded(p.disk, p.free, p.remaining, e);
  }

  lemma WrittenReads(disk: Bytes, start: nat, v: Bytes, pos: nat, cap: nat, size: nat)
    requires start + cap <= |disk| && pos + cap <= |v| && size <= cap
    ensures WriteAt(disk, start, v[pos..pos + cap])[start..start + size] == v[pos..pos + size]
  {
    var data := v[pos..pos + cap];
    var w := WriteAt(disk, start, data);
    assert w[start..start + cap] == data;
    assert w[start..start + size] == w[start..start + cap][..size];
  }

  /** A turn's part of the buffer is what its extent now reads as. */
  lemma TurnReads(p: Pass, e: Extent)
    requires FreeBounded(p.disk, p.free) && Bounded(p.disk, e) && p.pos <= |p.vec|
    ensures var q, t := Turn(p, e), Turned(p, e);
            && |q.disk| == |p.disk| && Bounded(q.disk, t)
            && p.pos <= q.pos <= |q.vec| && q.pos - p.pos == p.remaining - q.remaining
            && ReadExtent(q.disk, t) == q.vec[p.pos..q.pos]
  {
    hide Stored, Given, FreeBounded, FreeAfter, Resized, ReadExtent;
    TurnedBounded(p, e);
    GivenBounded(p.disk, p.free, p.remaining, e);
    StoredReads(GiveRoom(p, e), Given(p.free, p.remaining, e));
  }

  lemma StoredReads(p: Pass, g: Extent)
    requires Bounded(p.disk, g) && p.pos <= |p.vec|
    ensures var q, t := Stored(p, g), Resized(g, p.remaining);
            && |q.disk| == |p.disk| && Bounded(q.disk, t)
            && p.pos <= q.pos <= |q.vec| && q.pos - p.pos == p.remaining - q.remaining
            && ReadExtent(q.disk, t) == q.vec[p.pos..q.pos]
  {
    if !g.Empty() {
      var size, v := Share(g, p.remaining), Padded(p.vec, p.pos + g.Capacity());
      WrittenReads(p.disk, g.Start(), v, p.pos, g.Capacity(), size);
      hide WriteAt, Padded;
      assert Stored(p, g).vec[p.pos..p.pos + size] == v[p.pos..p.pos + size];
    }
  }

  /** Reading an extent sees none of the turns for the others. */
  lemma ReadSurvives(p: Pass, es: seq<Extent>)
    requires es != [] && FreeBounded(p.disk, p.free) && AllBounded(p.disk, es) && Apart(p.free, es)
    requires p.pos <= |p.vec|
    ensures var q := Turn(p, es[0]);
            && FreeBounded(q.disk, q.free) && AllBounded(q.disk, es[1..]) && |q.disk| == |p.disk|
            && Bounded(q.disk, Turned(p, es[0])) && Bounded(SyncPass(q, es[1..]).disk, Turned(p, es[0]))
            && ReadExtent(SyncPass(q, es[1..]).disk, Turned(p, es[0])) == ReadExtent(q.disk, Turned(p, es[0]))
  {
    hide Turn, FreeBounded, SyncPass, Apart, InFree, Given, FreeAfter;
    var q, t := Turn(p, es[0]), Turned(p, es[0]);
    TurnBounded(p, es[0]);
    TurnReads(p, es[0]);
    SyncBounded(q, es[1..]);
    forall a | 0 <= a < |q.disk| && t.Covers(a)
      ensures SyncPass(q, es[1..]).disk[a] == q.disk[a]
    {
      TurnedAside(p, es, a);
      PassFrame(q, es[1..], a);
    }
    if !t.Empty() {
      ReadIs(q.disk, SyncPass(q, es[1..]).disk, t);
    }
  }

  lemma ReadIs(d: Bytes, f: Bytes, e: Extent)
    requires |d| == |f| && Bounded(d, e) && forall a :: 0 <= a < |d| && e.Covers(a) ==> f[a] == d[a]
    ensures ReadExtent(f, e) == ReadExtent(d, e)
  {
  }

  /** The room of a turn lies aside of everything the later turns may write. */
  lemma TurnedAside(p: Pass, es: seq<Extent>, a: int)
    requires es != [] && FreeBounded(p.disk, p.free) && AllBounded(p.disk, es) && Apart(p.free, es)
    requires Turned(p, es[0]).Covers(a)
    ensures !CoveredBy(es[1..], a) && !InFree(Turn(p, es[0]).free, a)
  {
    hide Turn, FreeBounded, InFree, Extent.Covers, Given, FreeAfter;
    ResizedCovers(Given(p.free, p.remaining, es[0]), p.remaining, a);
    GivenFromFree(p.free, p.remaining, es[0], a);
    FreeOfTurn(p, es[0]);
    if es[0].Covers(a) {
      assert !InFree(p.free, a);
    }
    forall i | 0 <= i < |es[1..]|
      ensures !es[1..][i].Covers(a)
    {
      assert es[1..][i] == es[i + 1];
    }
  }

  /** Once the buffer ends where the next part begins, the rest of the pass writes zeros. */
  lemma {:induction false} TailIsZero(p: Pass, es: seq<Extent>)
    requires FreeBounded(p.disk, p.free) && AllBounded(p.disk, es) && Apart(p.free, es) && |p.vec| == p.pos
    ensures var q := SyncPass(p, es);
            && AllBounded(q.disk, SyncExtents(p, es)) && q.remaining <= p.remaining
            && Contents(q.disk, SyncExtents(p, es)) == Zeros(p.remaining - q.remaining)
            && q.vec == p.vec + Zeros(p.remaining - q.remaining)
    decreases |es|
  {
    hide Turn, Turned, FreeBounded, Apart, ReadExtent, Zeros;
    SyncBounded(p, es);
    if es != [] {
      var q := Turn(p, es[0]);
      TurnReads(p, es[0]);
      TurnPads(p, es[0]);
      ReadSurvives(p, es);
      ApartAfter(p, es);
      TailIsZero(q, es[1..]);
      ZerosAdd(p.remaining - q.remaining, q.remaining - SyncPass(p, es).remaining);
      ContentsCons(SyncPass(p, es).disk, SyncExtents(p, es));
    } else {
      NoZeros();
    }
  }

  lemma NoZeros()
    ensures Zeros(0) == []
  {
  }

  lemma ZerosAdd(m: nat, n: nat)
    ensures Zeros(m) + Zeros(n) == Zeros(m + n)
  {
  }

  lemma ContentsCons(disk: Bytes, es: seq<Extent>)
    requires es != [] && AllBounded(disk, es)
    ensures Bounded(disk, es[0]) && AllBounded(disk, es[1..])
    ensures Contents(disk, es) == ReadExtent(disk, es[0]) + Contents(disk, es[1..])
  {
  }

  lemma TurnPads(p: Pass, e: Extent)
    requires FreeBounded(p.disk, p.free) && Bounded(p.disk, e) && |p.vec| == p.pos
    ensures var q := Turn(p, e);
            && |q.vec| == q.pos && q.remaining <= p.remaining
            && q.vec == p.vec + Zeros(p.remaining - q.remaining)
            && q.vec[p.pos..q.pos] == Zeros(p.remaining - q.remaining)
  {
    GivenBounded(p.disk, p.free, p.remaining, e);
  }

  // ---------------------------------------------------------------- the round trip

  /** How much of the buffer the first extent that can take any takes. */
  function FirstShare(free: Extent, remaining: nat, es: seq<Extent>): (k: nat)
    ensures k <= remaining
    decreases |es|
  {
    if es == [] then 0
    else if Given(free, remaining, es[0]).Empty() then FirstShare(free, remaining, es[1..])
    else Share(Given(free, remaining, es[0]), remaining)
  }

  /** How much of the buffer finds no room at all. */
  function LeftOver(free: Extent, remaining: nat, es: seq<Extent>): (n: nat)
    ensures n <= remaining
    decreases |es|
  {
    if es == [] then remaining
    else LeftOver(FreeAfter(free, remaining, es[0]),
                  remaining - Share(Given(free, remaining, es[0]), remaining), es[1..])
  }

  lemma {:induction false} PassLeaves(p: Pass, es: seq<Extent>)
    requires FreeBounded(p.disk, p.free) && AllBounded(p.disk, es)
    ensures SyncPass(p, es).remaining == LeftOver(p.free, p.remaining, es)
    decreases |es|
  {
    hide FreeBounded, Given, FreeAfter, Share;
    if es != [] {
      TurnBounded(p, es[0]);
      TurnLeaves(p, es[0]);
      PassLeaves(Turn(p, es[0]), es[1..]);
    }
  }

  lemma TurnLeaves(p: Pass, e: Extent)
    requires FreeBounded(p.disk, p.free) && Bounded(p.disk, e)
    ensures Turn(p, e).remaining == p.remaining - Share(Given(p.free, p.remaining, e), p.remaining)
    ensures Turn(p, e).free == FreeAfter(p.free, p.remaining, e)
    ensures Given(p.free, p.remaining, e).Empty() ==> Turn(p, e) == p && Turned(p, e) == e && e.Empty()
  {
    GivenBounded(p.disk, p.free, p.remaining, e);
  }

  ghost predicate Whole(p: Pass) { p.pos == 0 && |p.vec| == p.remaining }

  /** After a pass over a whole buffer, the file reads as the first share followed by zeros. */
  lemma {:induction false} PassReads(p: Pass, es: seq<Extent>)
    requires FreeBounded(p.disk, p.free) && AllBounded(p.disk, es) && Apart(p.free, es) && Whole(p)
    ensures var q, k, left := SyncPass(p, es), FirstShare(p.free, |p.vec|, es), LeftOver(p.free, |p.vec|, es);
            && AllBounded(q.disk, SyncExtents(p, es)) && q.remaining == left && k + left <= |p.vec|
            && Contents(q.disk, SyncExtents(p, es)) == p.vec[..k] + Zeros(|p.vec| - k - left)
            && q.vec == if left == |p.vec| then p.vec else Contents(q.disk, SyncExtents(p, es))
    decreases |es|
  {
    hide Turn, Turned, FreeBounded, Apart, ReadExtent, Zeros, Given, FreeAfter, Share;
    SyncBounded(p, es);
    PassLeaves(p, es);
    if es == [] {
      NoZeros();
    } else {
      var q, g := Turn(p, es[0]), Given(p.free, p.remaining, es[0]);
      TurnLeaves(p, es[0]);
      ReadSurvives(p, es);
      ApartAfter(p, es);
      ContentsCons(SyncPass(p, es).disk, SyncExtents(p, es));
      if g.Empty() {
        PassReads(q, es[1..]);
        EmptyReads(SyncPass(p, es).disk, es[0]);
      } else {
        FirstTurn(p, es[0]);
        TurnReads(p, es[0]);
        TailIsZero(q, es[1..]);
        NoZeros();
      }
    }
  }

  lemma EmptyReads(disk: Bytes, e: Extent)
    requires e.Empty()
    ensures Bounded(disk, e) && ReadExtent(disk, e) == []
  {
  }

  /** The first turn that stores anything keeps the beginning of the buffer. */
  lemma FirstTurn(p: Pass, e: Extent)
    requires FreeBounded(p.disk, p.free) && Bounded(p.disk, e) && Whole(p)
    requires !Given(p.free, p.remaining, e).Empty()
    ensures var k := Share(Given(p.free, p.remaining, e), p.remaining);
            && Turn(p, e).pos == k == |Turn(p, e).vec| && Turn(p, e).vec == p.vec[..k]
            && (|p.vec| > 0 ==> k > 0)
  {
    GivenBounded(p.disk, p.free, p.remaining, e);
  }

  function Begun(disk: Bytes, free: Extent, vec: Bytes): Pass {
    Pass(disk, free, vec, 0, |vec|, false)
  }

  /** Syncing and reading back gives the buffer exactly when there is room for all of it and nothing
      but zeros behind what the first extent takes. */
  lemma RoundTrip(disk: Bytes, free: Extent, vec: Bytes, es: seq<Extent>)
    requires FreeBounded(disk, free) && AllBounded(disk, es) && Apart(free, es)
    ensures var p := Begun(disk, free, vec);
            && AllBounded(SyncPass(p, es).disk, SyncExtents(p, es))
            && (Contents(SyncPass(p, es).disk, SyncExtents(p, es)) == vec
                <==> LeftOver(free, |vec|, es) == 0
                     && forall i :: FirstShare(free, |vec|, es) <= i < |vec| ==> vec[i] == 0)
  {
    hide FreeBounded, AllBounded, Apart, SyncPass, SyncExtents, Contents, LeftOver, FirstShare;
    var p := Begun(disk, free, vec);
    PassReads(p, es);
    var k, left := FirstShare(free, |vec|, es), LeftOver(free, |vec|, es);
    var r := vec[..k] + Zeros(|vec| - k - left);
    if r == vec {
      forall i | k <= i < |vec|
        ensures vec[i] == 0
      {
        assert r[i] == 0;
      }
    }
  }

  /** In particular when the first extent has room for everything. */
  lemma FitsFirst(free: Extent, vec: Bytes, es: seq<Extent>)
    requires es != [] && free.block > 0
    requires if es[0].Empty() then free.length >= Needed(|vec|) * SECTOR else |vec| <= es[0].Capacity()
    ensures LeftOver(free, |vec|, es) == 0 && FirstShare(free, |vec|, es) == |vec|
  {
    if |vec| == 0 {
      NothingLeft(free, es);
    } else {
      var g := Given(free, |vec|, es[0]);
      assert Share(g, |vec|) == |vec|;
      NothingLeft(FreeAfter(free, |vec|, es[0]), es[1..]);
    }
  }

  lemma {:induction false} NothingLeft(free: Extent, es: seq<Extent>)
    ensures LeftOver(free, 0, es) == 0
    decreases |es|
  {
    if es != [] {
      NothingLeft(free, es[1..]);
    }
  }

  /** Free space only moves its start: no byte of it is counted twice or lost. */
  lemma {:induction false} FreeConserved(p: Pass, es: seq<Extent>)
    requires FreeBounded(p.disk, p.free) && AllBounded(p.disk, es)
    ensures var f := SyncPass(p, es).free;
            f.block >= p.free.block && f.Start() + f.length == p.free.Start() + p.free.length
    decreases |es|
  {
    hide FreeBounded;
    if es != [] {
      TurnBounded(p, es[0]);
      FreeOfTurn(p, es[0]);
      FreeConserved(Turn(p, es[0]), es[1..]);
    }
  }

  /** A buffer one byte longer than the one sector a file has, and no free space: the byte is lost. */
  lemma RoundTripFails()
    ensures exists disk: Bytes, free: Extent, vec: Bytes, es: seq<Extent> ::
              && FreeBounded(disk, free) && AllBounded(disk, es) && Apart(free, es)
              && AllBounded(SyncPass(Begun(disk, free, vec), es).disk, SyncExtents(Begun(disk, free, vec), es))
              && Contents(SyncPass(Begun(disk, free, vec), es).disk, SyncExtents(Begun(disk, free, vec), es)) != vec
  {
    hide SyncPass, SyncExtents, Contents;
    var disk, free, vec, es := Zeros(3 * SECTOR), Extent(2, 0), seq(SECTOR + 1, _ => 1), [Extent(1, SECTOR)];
    assert LeftOver(free, 1, es[1..]) == 1;
    assert LeftOver(free, |vec|, es) == 1;
    RoundTrip(disk, free, vec, es);
  }
}
