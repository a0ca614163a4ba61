/** Which buffers a handle saves, and which handles save every buffer of a length (kernel/schemes/file.rs,
    lines 102-199, 294-322).

    A single buffer may come back by luck: bytes that find no room may be zeros, and a handle whose
    extents are not the listed ones may happen to leave the right bytes where the listed ones read.
    For all buffers of a length together there is no luck. */
module EveryBuffer {
  import opened Common
  import opened Extents
  import opened FileStore
  import opened FileRuns

  /** The disk addresses that reading the extents visits, in order. */
  function Places(es: seq<Extent>): seq<int> {
    if es == [] then []
    else PlacesOf(es[0]) + Places(es[1..])
  }

  function PlacesOf(e: Extent): seq<int> {
    if e.Empty() then [] else seq(e.length, j => e.Start() + j)
  }

  lemma ReadAtPlaces(disk: Bytes, e: Extent)
    requires Bounded(disk, e)
    ensures |ReadExtent(disk, e)| == |PlacesOf(e)|
    ensures forall i :: 0 <= i < |PlacesOf(e)| ==>
              0 <= PlacesOf(e)[i] < |disk| && ReadExtent(disk, e)[i] == disk[PlacesOf(e)[i]]
  {
  }

  lemma {:induction false} ContentsAtPlaces(disk: Bytes, es: seq<Extent>)
    requires AllBounded(disk, es)
    ensures |Contents(disk, es)| == |Places(es)|
    ensures forall i :: 0 <= i < |Places(es)| ==>
              0 <= Places(es)[i] < |disk| && Contents(disk, es)[i] == disk[Places(es)[i]]
  {
    hide ReadExtent, PlacesOf;
    if es != [] {
      ContentsAtPlaces(disk, es[1..]);
      ContentsCons(disk, es);
      ReadAtPlaces(disk, es[0]);
    }
  }

  // ---------------------------------------------------------------- the disk after a pass

  /** Where the first extent that can take any of the buffer begins. */
  function FirstStart(free: Extent, remaining: nat, es: seq<Extent>): nat
    decreases |es|
  {
    if es == [] then 0
    else if Given(free, remaining, es[0]).Empty() then FirstStart(free, remaining, es[1..])
    else Given(free, remaining, es[0]).Start()
  }

  predicate InFirst(free: Extent, remaining: nat, es: seq<Extent>, a: int) {
    FirstStart(free, remaining, es) <= a < FirstStart(free, remaining, es) + FirstShare(free, remaining, es)
  }

  /** Some turn of the pass writes the sector of `a`. */
  predicate Writes(free: Extent, remaining: nat, es: seq<Extent>, a: int)
    decreases |es|
  {
    es != []
    && (Given(free, remaining, es[0]).Covers(a)
        || Writes(FreeAfter(free, remaining, es[0]),
                  remaining - Share(Given(free, remaining, es[0]), remaining), es[1..], a))
  }

  /** What a pass leaves at `a`: the buffer's byte in the first share, elsewhere zero or what was there. */
  function ByteAfter(disk: Bytes, free: Extent, v: Bytes, es: seq<Extent>, a: int): Byte
    requires 0 <= a < |disk|
  {
    if InFirst(free, |v|, es, a) then v[a - FirstStart(free, |v|, es)]
    else if Writes(free, |v|, es, a) then 0 else disk[a]
  }

  /** One turn behind the end of the buffer writes zeros. */
  lemma TailTurn(p: Pass, e: Extent, a: int)
    requires FreeBounded(p.disk, p.free) && Bounded(p.disk, e) && |p.vec| == p.pos && 0 <= a < |p.disk|
    ensures |Turn(p, e).vec| == Turn(p, e).pos && |Turn(p, e).disk| == |p.disk|
    ensures Turn(p, e).disk[a] == if Given(p.free, p.remaining, e).Covers(a) then 0 else p.disk[a]
  {
    GivenBounded(p.disk, p.free, p.remaining, e);
  }

  lemma {:induction false} TailBytes(p: Pass, es: seq<Extent>, a: int)
    requires FreeBounded(p.disk, p.free) && AllBounded(p.disk, es) && |p.vec| == p.pos && 0 <= a < |p.disk|
    ensures SyncPass(p, es).disk[a] == if Writes(p.free, p.remaining, es, a) then 0 else p.disk[a]
    decreases |es|
  {
    hide Turn, FreeBounded, Given, FreeAfter, Share, Extent.Covers;
    if es != [] {
      TurnBounded(p, es[0]);
      TurnLeaves(p, es[0]);
      TailTurn(p, es[0], a);
      TailBytes(Turn(p, es[0]), es[1..], a);
    }
  }

  /** The first turn that stores anything, byte by byte. */
  lemma FirstTurnAt(p: Pass, e: Extent, a: int)
    requires FreeBounded(p.disk, p.free) && Bounded(p.disk, e) && Whole(p) && 0 <= a < |p.disk|
    requires !Given(p.free, p.remaining, e).Empty()
    ensures var g := Given(p.free, p.remaining, e);
            var k := Share(g, p.remaining);
            && |Turn(p, e).disk| == |p.disk| && k <= |p.vec|
            && Turn(p, e).disk[a] == (if g.Start() <= a < g.Start() + k then p.vec[a - g.Start()]
                                      else if g.Covers(a) then 0 else p.disk[a])
            && (g.Start() <= a < g.Start() + k ==> Turned(p, e).Covers(a))
  {
    GivenBounded(p.disk, p.free, p.remaining, e);
  }

  /** The whole disk after a pass over a whole buffer, byte by byte. */
  lemma {:induction false} PassBytes(p: Pass, es: seq<Extent>, a: int)
    requires FreeBounded(p.disk, p.free) && AllBounded(p.disk, es) && Apart(p.free, es) && Whole(p) && 0 <= a < |p.disk|
    ensures SyncPass(p, es).disk[a] == ByteAfter(p.disk, p.free, p.vec, es, a)
    decreases |es|
  {
    hide Turn, Turned, FreeBounded, Apart, Given, FreeAfter, Share, InFree;
    if es != [] {
      var e, g := es[0], Given(p.free, p.remaining, es[0]);
      TurnLeaves(p, e);
      TurnBounded(p, e);
      ApartAfter(p, es);
      if g.Empty() {
        PassBytes(Turn(p, e), es[1..], a);
      } else {
        FirstTurn(p, e);
        FirstTurnAt(p, e, a);
        TailBytes(Turn(p, e), es[1..], a);
        if g.Start() <= a < g.Start() + Share(g, p.remaining) {
          TurnedAside(p, es, a);
          PassFrame(Turn(p, e), es[1..], a);
        }
      }
    }
  }

  // ---------------------------------------------------------------- two buffers of one length

  /** Two passes over equal layouts, with buffers of one length. */
  predicate Alike(p: Pass, q: Pass) {
    && |p.disk| == |q.disk| && p.free == q.free && |p.vec| == |q.vec|
    && p.pos == q.pos && p.remaining == q.remaining && p.changed == q.changed
  }

  lemma TurnAlike(p: Pass, q: Pass, e: Extent)
    requires FreeBounded(p.disk, p.free) && Bounded(p.disk, e) && Alike(p, q)
    ensures FreeBounded(q.disk, q.free) && Bounded(q.disk, e)
    ensures Alike(Turn(p, e), Turn(q, e)) && Turned(p, e) == Turned(q, e)
  {
    GivenBounded(p.disk, p.free, p.remaining, e);
  }

  lemma {:induction false} PassAlike(p: Pass, q: Pass, es: seq<Extent>)
    requires FreeBounded(p.disk, p.free) && AllBounded(p.disk, es) && Alike(p, q)
    ensures FreeBounded(q.disk, q.free) && AllBounded(q.disk, es)
    ensures Alike(SyncPass(p, es), SyncPass(q, es)) && SyncExtents(p, es) == SyncExtents(q, es)
    decreases |es|
  {
    hide Turn, Turned, FreeBounded;
    if es != [] {
      TurnAlike(p, q, es[0]);
      TurnBounded(p, es[0]);
      TurnBounded(q, es[0]);
      PassAlike(Turn(p, es[0]), Turn(q, es[0]), es[1..]);
    } else {
      assert FreeBounded(q.disk, q.free) by { BoundedAlike(p, q); }
    }
  }

  lemma BoundedAlike(p: Pass, q: Pass)
    requires FreeBounded(p.disk, p.free) && Alike(p, q)
    ensures FreeBounded(q.disk, q.free)
  {
  }

  // ---------------------------------------------------------------- extents a pass leaves alone

  /** With nothing left to store, a pass that leaves the extents alone found them all empty. */
  lemma {:induction false} NothingRead(p: Pass, es: seq<Extent>)
    requires FreeBounded(p.disk, p.free) && AllBounded(p.disk, es) && p.remaining == 0 && SyncExtents(p, es) == es
    ensures Places(es) == []
    decreases |es|
  {
    hide Turn, FreeBounded;
    if es != [] {
      TurnBounded(p, es[0]);
      TurnLeaves(p, es[0]);
      ExtentsSplit(p, es);
      NothingRead(Turn(p, es[0]), es[1..]);
    }
  }

  lemma ExtentsSplit(p: Pass, es: seq<Extent>)
    requires es != [] && FreeBounded(p.disk, p.free) && AllBounded(p.disk, es) && SyncExtents(p, es) == es
    ensures Turned(p, es[0]) == es[0]
    ensures FreeBounded(Turn(p, es[0]).disk, Turn(p, es[0]).free) && AllBounded(Turn(p, es[0]).disk, es[1..])
    ensures SyncExtents(Turn(p, es[0]), es[1..]) == es[1..]
  {
    hide Turn, Turned, FreeBounded;
    TurnBounded(p, es[0]);
    var rest := SyncExtents(Turn(p, es[0]), es[1..]);
    assert SyncExtents(p, es) == [Turned(p, es[0])] + rest;
    assert ([Turned(p, es[0])] + rest)[1..] == rest;
  }

  /** If the first share is everything and the pass leaves the extents alone, they read one stretch. */
  lemma {:induction false} OneStretch(p: Pass, es: seq<Extent>)
    requires FreeBounded(p.disk, p.free) && AllBounded(p.disk, es) && SyncExtents(p, es) == es
    requires FirstShare(p.free, p.remaining, es) == p.remaining
    ensures Places(es) == seq(p.remaining, j => FirstStart(p.free, p.remaining, es) + j)
    ensures LeftOver(p.free, p.remaining, es) == 0
    decreases |es|
  {
    hide Turn, FreeBounded;
    if p.remaining == 0 {
      NothingRead(p, es);
      NothingLeft(p.free, es);
    } else if es != [] {
      var g := Given(p.free, p.remaining, es[0]);
      TurnBounded(p, es[0]);
      TurnLeaves(p, es[0]);
      ExtentsSplit(p, es);
      if g.Empty() {
        OneStretch(p, es[1..]);
      } else {
        assert g == es[0] && g.length == p.remaining;
        NothingRead(Turn(p, es[0]), es[1..]);
        NothingLeft(p.free, es[1..]);
      }
    }
  }

  // ---------------------------------------------------------------- one buffer

  function Listed(s: Store, h: nat, path: Bytes): seq<Extent>
    requires h in s.handles && Names(s, path, s.handles[h].node.block)
  {
    s.nodes[FirstNamed(s.nodes, path)].extents
  }

  predicate OnDisk(disk: Bytes, places: seq<int>) {
    forall i :: 0 <= i < |places| ==> 0 <= places[i] < |disk|
  }

  /** After the pass the places read as the buffer. */
  predicate ReadsBack(disk: Bytes, free: Extent, v: Bytes, es: seq<Extent>, places: seq<int>) {
    && |places| == |v| && OnDisk(disk, places)
    && forall i :: 0 <= i < |v| ==> ByteAfter(disk, free, v, es, places[i]) == v[i]
  }

  /** The buffer has room, and only zeros behind the first share. */
  predicate Fits(free: Extent, v: Bytes, es: seq<Extent>) {
    LeftOver(free, |v|, es) == 0 && forall i :: FirstShare(free, |v|, es) <= i < |v| ==> v[i] == 0
  }

  lemma StaleDisk(s: Store, h: nat)
    requires Sound(s) && h in s.handles && s.handles[h].dirty && !Relists(s, h)
    ensures var p, es := Begun(s.disk, s.free, s.handles[h].vec), s.handles[h].node.extents;
            && FreeBounded(s.disk, s.free) && AllBounded(s.disk, es) && Apart(s.free, es)
            && Synced(s, h).disk == SyncPass(p, es).disk && SyncExtents(p, es) == es
  {
    hide SyncPass, SyncExtents, AllBounded, FreeBounded, Apart, OwnersSound, NodeSound;
    SoundHandle(s, h);
    UnchangedExtents(Begun(s.disk, s.free, s.handles[h].vec), s.handles[h].node.extents);
  }

  /** Whatever the handle: sync and reopen give the buffer exactly when, if the sync lists the handle's
      extents, the buffer fits, and otherwise the places of the listed ones read back what they should. */
  lemma SavedIff(s: Store, h: nat, path: Bytes)
    requires Sound(s) && h in s.handles && s.handles[h].dirty && Names(s, path, s.handles[h].node.block)
    ensures var v, es := s.handles[h].vec, s.handles[h].node.extents;
            && Sound(Synced(s, h))
            && (Reopen(Synced(s, h), path) == File(v)
                <==> if Relists(s, h) then Fits(s.free, v, es)
                     else ReadsBack(s.disk, s.free, v, es, Places(Listed(s, h, path))))
  {
    hide Sound, Reopen, Synced, Relists, Children, FirstNamed, LeftOver, FirstShare, ByteAfter, Places, SyncPass;
    hide SyncExtents;
    hide FreeBounded, AllBounded, Apart, Contents;
    if Relists(s, h) {
      SyncRoundTrip(s, h, path);
    } else {
      var v, es, ls := s.handles[h].vec, s.handles[h].node.extents, Listed(s, h, path);
      StaleDisk(s, h);
      SyncReads(s, h, path);
      var p, disk := Begun(s.disk, s.free, v), Synced(s, h).disk;
      SyncBounded(p, es);
      ContentsAtPlaces(disk, ls);
      forall i | 0 <= i < |Places(ls)|
        ensures disk[Places(ls)[i]] == ByteAfter(s.disk, s.free, v, es, Places(ls)[i])
      {
        PassBytes(p, es, Places(ls)[i]);
      }
    }
  }

  // ---------------------------------------------------------------- every buffer of a length

  function WithBuffer(s: Store, h: nat, v: Bytes): Store
    requires h in s.handles
  {
    s.(handles := s.handles[h := s.handles[h].(vec := v)])
  }

  lemma BufferSound(s: Store, h: nat, v: Bytes)
    requires Sound(s) && h in s.handles
    ensures Sound(WithBuffer(s, h, v))
  {
    hide Sound;
    assert Held(s, s.handles[h].node);
    HandleChange(s, h, s.handles[h].(vec := v));
  }

  /** With `v` in the buffer, sync and reopen give `v`. */
  ghost predicate Saves(s: Store, h: nat, path: Bytes, v: Bytes)
    requires Sound(s) && h in s.handles
  {
    BufferSound(s, h, v);
    SyncKeeps(WithBuffer(s, h, v), h);
    Reopen(Synced(WithBuffer(s, h, v), h), path) == File(v)
  }

  ghost predicate SavesAll(s: Store, h: nat, path: Bytes, n: nat)
    requires Sound(s) && h in s.handles
  {
    forall v: Bytes :: |v| == n ==> Saves(s, h, path, v)
  }

  lemma RelistsAlike(s: Store, h: nat, v: Bytes)
    requires Sound(s) && h in s.handles && |v| == |s.handles[h].vec|
    ensures Sound(WithBuffer(s, h, v)) && (Relists(WithBuffer(s, h, v), h) <==> Relists(s, h))
  {
    hide SyncPass, SyncExtents, FreeBounded, AllBounded, Apart, OwnersSound, NodeSound;
    BufferSound(s, h, v);
    SoundHandle(s, h);
    PassAlike(Begun(s.disk, s.free, s.handles[h].vec), Begun(s.disk, s.free, v), s.handles[h].node.extents);
  }

  lemma SavesIff(s: Store, h: nat, path: Bytes, v: Bytes)
    requires Sound(s) && h in s.handles && s.handles[h].dirty && Names(s, path, s.handles[h].node.block)
    requires |v| == |s.handles[h].vec|
    ensures var es := s.handles[h].node.extents;
            Saves(s, h, path, v) <==> if Relists(s, h) then Fits(s.free, v, es)
                                      else ReadsBack(s.disk, s.free, v, es, Places(Listed(s, h, path)))
  {
    hide Sound, Reopen, Synced, Relists, Children, FirstNamed, Places, Fits, ReadsBack;
    RelistsAlike(s, h, v);
    SavedIff(WithBuffer(s, h, v), h, path);
  }

  lemma OnesNotZero(k: nat, n: nat)
    requires k < n
    ensures var ones: Bytes := seq(n, _ => 1); exists i :: k <= i < n && ones[i] != 0
  {
    var ones: Bytes := seq(n, _ => 1);
    assert ones[k] != 0;
  }

  lemma RelistedAll(s: Store, h: nat, path: Bytes)
    requires Sound(s) && h in s.handles && s.handles[h].dirty && Names(s, path, s.handles[h].node.block)
             && Relists(s, h)
    ensures var n, es := |s.handles[h].vec|, s.handles[h].node.extents;
            SavesAll(s, h, path, n) <==> LeftOver(s.free, n, es) == 0 && FirstShare(s.free, n, es) == n
  {
    hide Sound, Saves, Relists, LeftOver, FirstShare, Names;
    var n, es := |s.handles[h].vec|, s.handles[h].node.extents;
    if SavesAll(s, h, path, n) {
      var ones: Bytes := seq(n, _ => 1);
      if FirstShare(s.free, n, es) < n {
        OnesNotZero(FirstShare(s.free, n, es), n);
      }
      assert Saves(s, h, path, ones);
      SavesIff(s, h, path, ones);
    }
    if LeftOver(s.free, n, es) == 0 && FirstShare(s.free, n, es) == n {
      forall v: Bytes | |v| == n
        ensures Saves(s, h, path, v)
      {
        SavesIff(s, h, path, v);
      }
    }
  }

  /** Places that read back both zeros and a single one have that at its place in the first share. */
  lemma UnitPlace(disk: Bytes, free: Extent, n: nat, i: nat, es: seq<Extent>, places: seq<int>)
    requires i < n && ReadsBack(disk, free, Zeros(n), es, places) && ReadsBack(disk, free, Zeros(n)[i := 1], es, places)
    ensures i < FirstShare(free, n, es) && |places| == n && places[i] == FirstStart(free, n, es) + i
  {
    hide FirstShare, FirstStart, Writes;
    var a := places[i];
    assert ByteAfter(disk, free, Zeros(n), es, a) == 0 && ByteAfter(disk, free, Zeros(n)[i := 1], es, a) == 1;
  }

  lemma ZerosPlaces(disk: Bytes, free: Extent, n: nat, es: seq<Extent>, places: seq<int>)
    requires ReadsBack(disk, free, Zeros(n), es, places)
    ensures |places| == n
  {
  }

  /** The places of the first share read back whatever it holds. */
  lemma StretchReads(disk: Bytes, free: Extent, v: Bytes, es: seq<Extent>, places: seq<int>)
    requires FirstShare(free, |v|, es) == |v| && places == seq(|v|, j => FirstStart(free, |v|, es) + j)
    requires OnDisk(disk, places)
    ensures ReadsBack(disk, free, v, es, places)
  {
    hide FirstShare, FirstStart, Writes;
  }

  lemma ListedPlaces(s: Store, h: nat, path: Bytes)
    requires Sound(s) && h in s.handles && Names(s, path, s.handles[h].node.block)
    ensures OnDisk(s.disk, Places(Listed(s, h, path)))
  {
    hide Sound, FirstNamed, Children, Places;
    ListedFits(s, FirstNamed(s.nodes, path));
    ContentsAtPlaces(s.disk, Listed(s, h, path));
  }

  lemma StaleAll(s: Store, h: nat, path: Bytes)
    requires Sound(s) && h in s.handles && s.handles[h].dirty && Names(s, path, s.handles[h].node.block)
             && !Relists(s, h)
    ensures var n, es := |s.handles[h].vec|, s.handles[h].node.extents;
            SavesAll(s, h, path, n) <==>
              LeftOver(s.free, n, es) == 0 && FirstShare(s.free, n, es) == n && Places(Listed(s, h, path)) == Places(es)
  {
    hide Sound, Relists, Names, Saves, SyncPass, SyncExtents, AllBounded, FreeBounded, Apart;
    hide ReadsBack, OnDisk, Places, FirstStart, FirstShare, LeftOver;
    var n, es, places := |s.handles[h].vec|, s.handles[h].node.extents, Places(Listed(s, h, path));
    StaleDisk(s, h);
    if FirstShare(s.free, n, es) == n {
      OneStretch(Begun(s.disk, s.free, s.handles[h].vec), es);
    }
    if SavesAll(s, h, path, n) {
      assert Saves(s, h, path, Zeros(n));
      SavesIff(s, h, path, Zeros(n));
      ZerosPlaces(s.disk, s.free, n, es, places);
      forall i | 0 <= i < n
        ensures i < FirstShare(s.free, n, es) && places[i] == FirstStart(s.free, n, es) + i
      {
        assert Saves(s, h, path, Zeros(n)[i := 1]);
        SavesIff(s, h, path, Zeros(n)[i := 1]);
        UnitPlace(s.disk, s.free, n, i, es, places);
      }
      assert n > 0 ==> places[n - 1] == FirstStart(s.free, n, es) + (n - 1);
      OneStretch(Begun(s.disk, s.free, s.handles[h].vec), es);
    }
    if FirstShare(s.free, n, es) == n && places == Places(es) {
      ListedPlaces(s, h, path);
      forall v: Bytes | |v| == n
        ensures Saves(s, h, path, v)
      {
        StretchReads(s.disk, s.free, v, es, places);
        SavesIff(s, h, path, v);
      }
    }
  }

  /** A handle saves every buffer of its buffer's length exactly when the first extent that can take any of
      it takes all, and the sync lists the handle's extents or the listed ones read the same places. */
  lemma SavesAllIff(s: Store, h: nat, path: Bytes)
    requires Sound(s) && h in s.handles && s.handles[h].dirty && Names(s, path, s.handles[h].node.block)
    ensures var n, es := |s.handles[h].vec|, s.handles[h].node.extents;
            SavesAll(s, h, path, n) <==>
              && LeftOver(s.free, n, es) == 0 && FirstShare(s.free, n, es) == n
              && (Relists(s, h) || Places(Listed(s, h, path)) == Places(es))
  {
    hide Sound, Relists, Names, SavesAll, Places, FirstShare, LeftOver;
    if Relists(s, h) {
      RelistedAll(s, h, path);
    } else {
      StaleAll(s, h, path);
    }
  }
}
