/** Two handles on one file (kernel/schemes/file.rs, lines 102-199, 294-322).  Each has its own copy of the
    node; the one that syncs without changing its node is not listed again, and what it wrote is not
    what opening the file reads. */
module StaleHandles {
  import opened Common
  import opened Extents
  import opened Nodes
  import opened FileStore
  import opened FileRuns

  /** Only the first extent is in use. */
  function OneExtent(block: nat, length: nat): (es: seq<Extent>)
    ensures |es| == EXTENT_COUNT && es[0] == Extent(block, length) && AllEmpty(es[1..])
  {
    NoExtents()[0 := Extent(block, length)]
  }

  lemma {:induction false} RestIdle(p: Pass, es: seq<Extent>)
    requires FreeBounded(p.disk, p.free) && AllBounded(p.disk, es) && AllEmpty(es) && p.remaining == 0
    ensures SyncPass(p, es) == p && SyncExtents(p, es) == es
    decreases |es|
  {
    if es != [] {
      RestIdle(p, es[1..]);
    }
  }

  /** A short buffer takes one sector for a file that has none, and fits the one a file has. */
  lemma ShortPass(disk: Bytes, free: Extent, vec: Bytes, es: seq<Extent>)
    requires FreeBounded(disk, free) && AllBounded(disk, es) && 0 < |vec| <= SECTOR && free.length >= SECTOR
    requires es == NoExtents()
             || (es != [] && !es[0].Empty() && es == OneExtent(es[0].block, es[0].length) && es[0].length == |vec|)
    ensures var q := SyncPass(Begun(disk, free, vec), es);
            && q.vec == vec && q.changed == (es == NoExtents())
            && q.free == (if es == NoExtents() then Extent(free.block + 1, free.length - SECTOR) else free)
            && SyncExtents(Begun(disk, free, vec), es)
               == (if es == NoExtents() then OneExtent(free.block, |vec|) else es)
  {
    hide Turn, Turned, FreeBounded, OneExtent, NoExtents;
    var p := Begun(disk, free, vec);
    EmptyRest(es);
    TurnBounded(p, es[0]);
    ShortTurn(p, es[0]);
    RestIdle(Turn(p, es[0]), es[1..]);
    if es == NoExtents() {
      FirstChanged(es, Extent(free.block, |vec|));
    }
    assert [es[0]] + es[1..] == es;
  }

  lemma EmptyRest(es: seq<Extent>)
    requires es == NoExtents() || (es != [] && es == OneExtent(es[0].block, es[0].length))
    ensures es != [] && AllEmpty(es[1..]) && (es == NoExtents() <==> es[0] == Extent(0, 0))
  {
    assert NoExtents()[0 := Extent(0, 0)] == NoExtents();
  }

  lemma FirstChanged(es: seq<Extent>, e: Extent)
    requires es == NoExtents()
    ensures [e] + es[1..] == OneExtent(e.block, e.length)
  {
  }

  lemma ShortTurn(p: Pass, e: Extent)
    requires FreeBounded(p.disk, p.free) && Bounded(p.disk, e) && Whole(p) && 0 < |p.vec| <= SECTOR
             && p.free.length >= SECTOR
    requires !p.changed && (e == Extent(0, 0) || (!e.Empty() && e.length == |p.vec|))
    ensures var q := Turn(p, e);
            && q.remaining == 0 && q.vec == p.vec && q.changed == (e == Extent(0, 0))
            && q.free == (if e == Extent(0, 0) then Extent(p.free.block + 1, p.free.length - SECTOR) else p.free)
            && Turned(p, e) == if e == Extent(0, 0) then Extent(p.free.block, |p.vec|) else e
  {
    GivenBounded(p.disk, p.free, p.remaining, e);
  }

  /** A handle on the new file `n`, with something short to save. */
  ghost predicate Pending(s: Store, h: nat, n: Node, vec: Bytes) {
    && h in s.handles && s.handles[h].node == n && s.handles[h].dirty && s.handles[h].vec == vec
    && 0 < |vec| <= SECTOR
  }

  /** The first sync of a handle on a new file. */
  lemma SyncFresh(s: Store, h: nat, n: Node, vec: Bytes)
    requires Sound(s) && Pending(s, h, n, vec) && n.extents == NoExtents() && n.block > 0 && s.free.length >= SECTOR
    ensures Relists(s, h)
    ensures var z, now := Synced(s, h), n.(extents := OneExtent(s.free.block, |vec|));
            && z.handles == s.handles[h := Handle(now, vec, s.handles[h].seek, false)]
            && z.nodes == Replaced(s.nodes, now)
            && z.free == Extent(s.free.block + 1, s.free.length - SECTOR)
  {
    hide SyncPass, SyncExtents, AllBounded, Apart, OwnersSound, NodeSound, OneExtent, NoExtents;
    SoundHandle(s, h);
    ShortPass(s.disk, s.free, vec, n.extents);
  }

  /** A later sync of as many bytes. */
  lemma SyncAgain(s: Store, h: nat, n: Node, block: nat, vec: Bytes)
    requires Sound(s) && Pending(s, h, n, vec) && s.free.length >= SECTOR
    requires block > 0 && n.extents == OneExtent(block, |vec|)
    ensures !Relists(s, h) && Synced(s, h).handles[h].vec == vec
  {
    hide SyncPass, SyncExtents, AllBounded, Apart, OwnersSound, NodeSound, OneExtent;
    SoundHandle(s, h);
    ShortPass(s.disk, s.free, vec, n.extents);
  }

  lemma OneExtentCovers(block: nat, length: nat, a: int)
    requires block > 0 && 0 < length <= SECTOR && CoveredBy(OneExtent(block, length), a)
    ensures block * SECTOR <= a < (block + 1) * SECTOR
  {
    var es := OneExtent(block, length);
    assert forall i :: 0 < i < |es| ==> es[i] == es[1..][i - 1];
  }

  lemma SyncNames(s: Store, h: nat, path: Bytes, block: nat)
    requires Sound(s) && h in s.handles && Names(s, path, block)
    ensures Names(Synced(s, h), path, block) && FirstNamed(Synced(s, h).nodes, path) == FirstNamed(s.nodes, path)
  {
    hide Synced, FirstNamed, Children, Sound, Foreign;
    SyncedNodes(s, h);
    SameNamesSameFirst(s.nodes, Synced(s, h).nodes, path);
    SameNamesSameChildren(s.nodes, Synced(s, h).nodes, path);
  }

  /** The first sync of a handle lists its node, and opening the file then reads what it had. */
  lemma FreshRoundTrip(s: Store, h: nat, n: Node, vec: Bytes, path: Bytes)
    requires Sound(s) && Pending(s, h, n, vec) && n.extents == NoExtents() && n.block > 0 && s.free.length >= SECTOR
    requires Names(s, path, n.block)
    ensures Sound(Synced(s, h)) && Reopen(Synced(s, h), path) == File(vec) && Names(Synced(s, h), path, n.block)
    ensures var z := Synced(s, h); z.nodes[FirstNamed(z.nodes, path)].extents == OneExtent(s.free.block, |vec|)
  {
    hide Synced, FirstNamed, Children, Sound, Relists, OneExtent, NoExtents, LeftOver, FirstShare, Reopen;
    SyncFresh(s, h, n, vec);
    SyncKeeps(s, h);
    SyncNames(s, h, path, n.block);
    FirstEmpty(n.extents);
    FreeStart(s);
    FitsFirst(s.free, vec, n.extents);
    assert Current(s, h, path);
    SyncRoundTrip(s, h, path);
  }

  lemma FirstEmpty(es: seq<Extent>)
    requires es == NoExtents()
    ensures es != [] && es[0].Empty()
  {
  }

  lemma FreeStart(s: Store)
    requires Sound(s)
    ensures s.free.block > 0
  {
  }

  /** `a` and `b` are opened on a new file, and both save; then `a` overwrites what it had and saves again.
      Opening the file still reads what `b` saved. */
  lemma TwoHandles(s: Store, a: nat, b: nat, n: Node, v: Bytes, w: Bytes, x: Bytes, path: Bytes)
    requires Sound(s) && a != b && Pending(s, a, n, v) && Pending(s, b, n, w) && |v| == |w| == |x|
    requires n.extents == NoExtents() && n.block > 0 && s.free.length >= 3 * SECTOR && Names(s, path, n.block)
    ensures Sound(s) && Sound(Apply(s, Sync(a)))
    ensures var t := Apply(Apply(s, Sync(a)), Sync(b));
            && Sound(t) && Sound(Rewritten(t, a, x)) && Sound(Apply(Rewritten(t, a, x), Sync(a)))
            && Reopen(Apply(Rewritten(t, a, x), Sync(a)), path) == File(w)
            && Apply(Rewritten(t, a, x), Sync(a)).handles[a].vec == x
  {
    hide Synced, FirstNamed, Children, Sound, Relists, OneExtent, NoExtents, Reopen, CoveredBy;
    SyncFresh(s, a, n, v);
    SyncKeeps(s, a);
    SyncNames(s, a, path, n.block);
    var s1 := Synced(s, a);
    FreshRoundTrip(s1, b, n, w, path);
    SyncFresh(s1, b, n, w);
    var t := Synced(s1, b);
    var u := Rewritten(t, a, x);
    RewrittenReads(t, a, x, path);
    var na := n.(extents := OneExtent(s.free.block, |v|));
    FreeStart(s);
    SyncAgain(u, a, na, s.free.block, x);
    forall c | CoveredBy(t.nodes[FirstNamed(t.nodes, path)].extents, c)
      ensures !CoveredBy(na.extents, c)
    {
      OneExtentCovers(s.free.block + 1, |w|, c);
      if CoveredBy(na.extents, c) {
        OneExtentCovers(s.free.block, |v|, c);
      }
    }
    StaleInvisible(u, a, path);
  }

  /** Seek to the start and write. */
  ghost function Rewritten(s: Store, h: nat, x: Bytes): Store
    requires Sound(s) && h in s.handles
  {
    StepSound(s, Seek(h, 0));
    Apply(Apply(s, Seek(h, 0)), Write(h, x))
  }

  lemma RewrittenReads(s: Store, h: nat, x: Bytes, path: Bytes)
    requires Sound(s) && h in s.handles && |x| == |s.handles[h].vec| > 0
    ensures var u := Rewritten(s, h, x);
            && Sound(u) && Reopen(u, path) == Reopen(s, path)
            && u == s.(handles := u.handles) && u.handles.Keys == s.handles.Keys
            && u.handles[h] == Handle(s.handles[h].node, x, |x|, true)
  {
    hide Sound, Reopen;
    StepSound(s, Seek(h, 0));
    var t := Apply(s, Seek(h, 0));
    StepSound(t, Write(h, x));
    SameReading(s, t, path);
    SameReading(t, Apply(t, Write(h, x)), path);
  }

  // ---------------------------------------------------------------- an input

  /** A file `A` without contents, and two handles that each want to save one byte. */
  function TwoOpen(): Store {
    var n := Node(1, [0x41], NoExtents());
    Store(Zeros(5 * SECTOR), Extent(2, 3 * SECTOR), [n],
          map[0 := Handle(n, [1], 1, true), 1 := Handle(n, [2], 1, true)], map[1 := NodeOf(1)])
  }

  lemma TwoOpenSound()
    ensures Sound(TwoOpen()) && Names(TwoOpen(), [0x41], 1)
  {
    hide NoExtents, Zeros;
    var s, n := TwoOpen(), Node(1, [0x41], NoExtents());
    assert forall m :: Held(s, m) ==> m == n;
    NothingOwned(s.owners, n);
  }

  /** So the round trip fails: `a` has three, and opening reads two. */
  lemma StaleSyncLost()
    ensures exists s: Store, a: nat, path: Bytes ::
              Sound(s) && a in s.handles && s.handles[a].dirty && Names(s, path, s.handles[a].node.block)
              && Sound(Synced(s, a)) && |s.handles[a].vec| == 1 && Reopen(Synced(s, a), path) == File([2])
              && s.handles[a].vec == [3]
  {
    hide Synced, Sound, Reopen, NoExtents, FirstNamed, Children, Relists;
    var s, n: Node := TwoOpen(), Node(1, [0x41], NoExtents());
    TwoOpenSound();
    TwoHandles(s, 0, 1, n, [1], [2], [3], [0x41]);
    SyncFresh(s, 0, n, [1]);
    SyncNames(s, 0, [0x41], 1);
    SyncKeeps(s, 0);
    var s1 := Synced(s, 0);
    SyncFresh(s1, 1, n, [2]);
    SyncNames(s1, 1, [0x41], 1);
    SyncKeeps(s1, 1);
    RewrittenReads(Synced(s1, 1), 0, [3], [0x41]);
  }

  // ---------------------------------------------------------------- too much for one handle

  /** A file with one sector, no free space, and a buffer of one byte more than a sector. */
  function TooLong(): Store {
    var n := Node(1, [0x41], OneExtent(2, SECTOR));
    Store(Zeros(5 * SECTOR), Extent(4, 0), [n], map[0 := Handle(n, seq(SECTOR + 1, _ => 1), 0, true)],
          map[1 := NodeOf(1), 2 := DataOf(1)])
  }

  lemma TooLongSound()
    ensures Sound(TooLong()) && Current(TooLong(), 0, [0x41])
  {
    hide OneExtent, Zeros;
    var s, n: Node := TooLong(), Node(1, [0x41], OneExtent(2, SECTOR));
    assert forall m :: Held(s, m) ==> m == n;
    OneExtentOwned(s.owners, n);
    assert NodeSound(s, n);
  }

  lemma OneExtentOwned(owners: map<nat, Owner>, n: Node)
    requires n.extents == OneExtent(2, SECTOR) && 2 in owners && owners[2] == DataOf(n.block)
    ensures Disjoint(n.extents) && Owned(owners, n.extents, n.block)
  {
    hide OneExtent;
    assert forall i :: 0 < i < |n.extents| ==> n.extents[i] == n.extents[1..][i - 1];
  }

  lemma {:induction false} NoRoomLeft(free: Extent, remaining: nat, es: seq<Extent>)
    requires AllEmpty(es) && free.length == 0
    ensures LeftOver(free, remaining, es) == remaining
    decreases |es|
  {
    if es != [] {
      NoRoomLeft(free, remaining, es[1..]);
    }
  }

  /** The last byte finds no room: a current handle does not get back what it saved. */
  lemma TooLongLost()
    ensures Sound(TooLong()) && Current(TooLong(), 0, [0x41]) && Sound(Synced(TooLong(), 0))
    ensures Reopen(Synced(TooLong(), 0), [0x41]) != File(TooLong().handles[0].vec)
  {
    hide Synced, Sound, Reopen, Current, OneExtent, Zeros;
    TooLongSound();
    var s := TooLong();
    var es := s.handles[0].node.extents;
    NoRoomLeft(s.free, 1, es[1..]);
    assert LeftOver(s.free, SECTOR + 1, es) == LeftOver(s.free, 1, es[1..]);
    SyncRoundTrip(s, 0, [0x41]);
  }
}
