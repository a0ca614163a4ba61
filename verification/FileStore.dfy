/** The file scheme (kernel/schemes/file.rs): files on a disk, handles on files, and whose sectors are
    whose.

    New files and new extents take sectors from the front of one free run and never give any back.
    `owners` is bookkeeping of the model alone: for every sector in use, the file it belongs to. */
module FileStore {
  import opened Common
  import opened Extents
  import opened Nodes

  /** A sector holds a file's node or a part of its data; a file is known by its node's block. */
  datatype Owner = NodeOf(file: nat) | DataOf(file: nat)

  datatype Handle = Handle(node: Node, vec: Bytes, seek: nat, dirty: bool)

  datatype Store = Store(disk: Bytes, free: Extent, nodes: seq<Node>, handles: map<nat, Handle>,
                         owners: map<nat, Owner>)

  // ---------------------------------------------------------------- soundness

  ghost predicate Disjoint(es: seq<Extent>) {
    forall i, j, a :: 0 <= i < j < |es| && es[i].Covers(a) ==> !es[j].Covers(a)
  }

  /** The sectors of an extent list all belong to one file's data. */
  ghost predicate Owned(owners: map<nat, Owner>, es: seq<Extent>, file: nat) {
    forall i, a :: 0 <= i < |es| && es[i].Covers(a) ==> a / SECTOR in owners && owners[a / SECTOR] == DataOf(file)
  }

  predicate AllEmpty(es: seq<Extent>) { forall i :: 0 <= i < |es| ==> es[i].Empty() }

  ghost predicate NodeSound(s: Store, n: Node) {
    && |n.extents| == EXTENT_COUNT
    && Disjoint(n.extents)
    && Owned(s.owners, n.extents, n.block)
    && (if n.block > 0 then n.block in s.owners && s.owners[n.block] == NodeOf(n.block)
        else AllEmpty(n.extents) && s.free.length < SECTOR)
  }

  /** Sectors in use lie on the disk and outside the free run. */
  ghost predicate OwnersSound(s: Store) {
    forall x :: x in s.owners ==>
        x * SECTOR + SECTOR <= |s.disk| && (x < s.free.block || x * SECTOR >= s.free.Start() + s.free.length)
  }

  predicate Held(s: Store, n: Node) {
    n in s.nodes || exists h :: h in s.handles && s.handles[h].node == n
  }

  ghost predicate Sound(s: Store) {
    && FreeBounded(s.disk, s.free)
    && OwnersSound(s)
    && (forall n :: Held(s, n) ==> NodeSound(s, n))
    && (forall m, n :: Held(s, m) && Held(s, n) && m.block == n.block && m.block > 0 ==> m.name == n.name)
  }

  /** A sound node's extents are on the disk, apart from each other and from the free space. */
  lemma SoundNodeFits(s: Store, n: Node)
    requires FreeBounded(s.disk, s.free) && OwnersSound(s) && NodeSound(s, n)
    ensures AllBounded(s.disk, n.extents) && Apart(s.free, n.extents)
  {
    forall i | 0 <= i < |n.extents|
      ensures Bounded(s.disk, n.extents[i])
    {
      var e := n.extents[i];
      if !e.Empty() {
        var a := e.Start() + e.Capacity() - 1;
        assert n.extents[i].Covers(a);
        assert a / SECTOR in s.owners;
      }
    }
    forall i, a | 0 <= i < |n.extents| && n.extents[i].Covers(a)
      ensures !InFree(s.free, a)
    {
      assert a / SECTOR in s.owners;
    }
  }

  lemma ListedFits(s: Store, k: nat)
    requires Sound(s) && k < |s.nodes|
    ensures NodeSound(s, s.nodes[k]) && AllBounded(s.disk, s.nodes[k].extents) && Apart(s.free, s.nodes[k].extents)
  {
    assert Held(s, s.nodes[k]);
    SoundNodeFits(s, s.nodes[k]);
  }

  // ---------------------------------------------------------------- names

  /** `FileSystem::node`: the first node of that name, or the length of the list. */
  function FirstNamed(nodes: seq<Node>, name: Bytes): (k: nat)
    ensures k <= |nodes| && (k < |nodes| ==> nodes[k].name == name)
  {
    if nodes == [] || nodes[0].name == name then 0 else 1 + FirstNamed(nodes[1..], name)
  }

  predicate StartsWith(name: Bytes, prefix: Bytes) { |prefix| <= |name| && name[..|prefix|] == prefix }

  /** `FileSystem::list`: what follows the directory in the names that begin with it. */
  function Children(nodes: seq<Node>, path: Bytes): seq<Bytes> {
    if nodes == [] then []
    else
      (if StartsWith(nodes[0].name, Directory(path)) then [nodes[0].name[|Directory(path)|..]] else [])
      + Children(nodes[1..], path)
  }

  function Directory(path: Bytes): Bytes { if path == [] then [] else path + [SLASH] }

  const SLASH: Byte := 0x2F

  // ---------------------------------------------------------------- the calls

  /** A listing is written out from the names below the path. */
  datatype Reading = Listing(names: seq<Bytes>) | Missing | File(contents: Bytes)

  /** What opening a path gives to read. */
  ghost function Reopen(s: Store, path: Bytes): Reading
    requires Sound(s)
  {
    var k := FirstNamed(s.nodes, path);
    if Children(s.nodes, path) != [] then Listing(Children(s.nodes, path))
    else if k == |s.nodes| then Missing
    else
      ListedFits(s, k);
      File(Contents(s.disk, s.nodes[k].extents))
  }

  function Truncated(h: Handle, len: nat): Handle {
    h.(vec := Padded(h.vec, len)[..len], seek := Min(h.seek, len), dirty := true)
  }

  /** Bytes up to the end of the buffer are overwritten, the rest appended. */
  function WrittenTo(h: Handle, data: Bytes): Handle {
    var over := Min(|data|, if h.seek < |h.vec| then |h.vec| - h.seek else 0);
    h.(vec := (if over > 0 then h.vec[..h.seek] + data[..over] + h.vec[h.seek + over..] else h.vec) + data[over..],
       seek := h.seek + |data|, dirty := h.dirty || |data| > 0)
  }

  /** Seeking past the end pads the buffer, but does not mark it dirty. */
  function Sought(h: Handle, seek: nat): Handle {
    h.(vec := Padded(h.vec, seek), seek := seek)
  }

  function NoExtents(): (es: seq<Extent>)
    ensures |es| == EXTENT_COUNT && AllEmpty(es)
  {
    seq(EXTENT_COUNT, _ => Extent(0, 0))
  }

  /** A new file takes one sector for its node, if there is one. */
  function Created(s: Store, h: nat, path: Bytes): Store {
    if s.free.length >= SECTOR then
      var n := Node(s.free.block, path, NoExtents());
      s.(free := Extent(s.free.block + 1, s.free.length - SECTOR), nodes := s.nodes + [n],
         handles := s.handles[h := Handle(n, [], 0, false)], owners := s.owners[n.block := NodeOf(n.block)])
    else
      var n := Node(0, path, NoExtents());
      s.(nodes := s.nodes + [n], handles := s.handles[h := Handle(n, [], 0, false)])
  }

  function Opened(s: Store, h: nat, n: Node, truncate: bool): Store
    requires AllBounded(s.disk, n.extents)
  {
    var r := Handle(n, Contents(s.disk, n.extents), 0, false);
    s.(handles := s.handles[h := if truncate then Truncated(r, 0) else r])
  }

  function Replaced(nodes: seq<Node>, n: Node): (r: seq<Node>)
    ensures |r| == |nodes|
    ensures forall i :: 0 <= i < |nodes| ==> r[i] == if nodes[i].block == n.block then n else nodes[i]
  {
    seq(|nodes|, i requires 0 <= i < |nodes| => if nodes[i].block == n.block then n else nodes[i])
  }

  function Handed(owners: map<nat, Owner>, lo: nat, hi: nat, file: nat): (r: map<nat, Owner>)
    ensures forall x :: x in r <==> x in owners || lo <= x < hi
    ensures forall x :: x in r ==> r[x] == if lo <= x < hi then DataOf(file) else owners[x]
    decreases hi - lo
  {
    if lo < hi then Handed(owners[lo := DataOf(file)], lo + 1, hi, file) else owners
  }

  /** `sync`. */
  ghost function Synced(s: Store, h: nat): Store
    requires Sound(s) && h in s.handles
  {
    var r := s.handles[h];
    if !r.dirty then s else
      SoundHandle(s, h);
      var p := SyncPass(Begun(s.disk, s.free, r.vec), r.node.extents);
      var n := r.node.(extents := SyncExtents(Begun(s.disk, s.free, r.vec), r.node.extents));
      var z := s.(free := p.free, owners := Handed(s.owners, s.free.block, p.free.block, n.block),
                  handles := s.handles[h := Handle(n, p.vec, r.seek, false)]);
      if p.changed && n.block > 0
      then z.(disk := WriteAt(p.disk, n.block * SECTOR, Sector(n)), nodes := Replaced(s.nodes, n))
      else z.(disk := p.disk)
  }

  lemma SoundHandle(s: Store, h: nat)
    requires Sound(s) && h in s.handles
    ensures var r := s.handles[h];
            && NodeSound(s, r.node) && AllBounded(s.disk, r.node.extents) && Apart(s.free, r.node.extents)
            && |SyncPass(Begun(s.disk, s.free, r.vec), r.node.extents).disk| == |s.disk|
            && (r.node.block > 0 ==> r.node.block * SECTOR + SECTOR <= |s.disk|)
  {
    hide AllBounded, Apart, FreeBounded, SyncPass;
    assert Held(s, s.handles[h].node);
    SoundNodeFits(s, s.handles[h].node);
    SyncBounded(Begun(s.disk, s.free, s.handles[h].vec), s.handles[h].node.extents);
  }

  // ---------------------------------------------------------------- what a pass leaves of the extents

  /** An extent after a pass covers what it covered, or what the pass took from the free space. */
  lemma {:induction false} CoversAfter(p: Pass, es: seq<Extent>, i: nat, a: int)
    requires FreeBounded(p.disk, p.free) && AllBounded(p.disk, es) && i < |es| && SyncExtents(p, es)[i].Covers(a)
    ensures es[i].Covers(a) || (InFree(p.free, a) && !InFree(SyncPass(p, es).free, a))
    decreases |es|
  {
    hide Turn, FreeBounded, InFree, Extent.Covers, Given, FreeAfter;
    var q := Turn(p, es[0]);
    TurnBounded(p, es[0]);
    FreeOfTurn(p, es[0]);
    GivenFromFree(p.free, p.remaining, es[0], a);
    if i == 0 {
      ResizedCovers(Given(p.free, p.remaining, es[0]), p.remaining, a);
      FreeShrinks(q, es[1..], a);
    } else {
      CoversAfter(q, es[1..], i - 1, a);
    }
  }

  lemma FreeShrinks(p: Pass, es: seq<Extent>, a: int)
    requires FreeBounded(p.disk, p.free) && AllBounded(p.disk, es)
    ensures InFree(SyncPass(p, es).free, a) ==> InFree(p.free, a)
  {
    hide SyncPass, FreeBounded;
    FreeConserved(p, es);
  }

  lemma {:induction false} DisjointAfter(p: Pass, es: seq<Extent>)
    requires FreeBounded(p.disk, p.free) && AllBounded(p.disk, es) && Apart(p.free, es)
    ensures Disjoint(SyncExtents(p, es))
    decreases |es|
  {
    hide Turn, FreeBounded, InFree, Extent.Covers, Apart, Turned;
    if es != [] {
      var q, r := Turn(p, es[0]), SyncExtents(p, es);
      TurnBounded(p, es[0]);
      ApartAfter(p, es);
      DisjointAfter(q, es[1..]);
      forall i, j, a | 0 <= i < j < |r| && r[i].Covers(a)
        ensures !r[j].Covers(a)
      {
        if i == 0 {
          TurnedAside(p, es, a);
          if r[j].Covers(a) {
            CoversAfter(q, es[1..], j - 1, a);
          }
        } else {
          assert r[i] == SyncExtents(q, es[1..])[i - 1] && r[j] == SyncExtents(q, es[1..])[j - 1];
        }
      }
    }
  }

  /** Without room and without free space a pass does nothing. */
  lemma {:induction false} PassIdle(p: Pass, es: seq<Extent>)
    requires FreeBounded(p.disk, p.free) && AllBounded(p.disk, es) && AllEmpty(es) && p.free.length < SECTOR
    ensures SyncPass(p, es) == p && SyncExtents(p, es) == es
    decreases |es|
  {
    if es != [] {
      PassIdle(p, es[1..]);
    }
  }

  lemma NewSector(free: Extent, now: Extent, a: int)
    requires now.block >= free.block && now.Start() + now.length == free.Start() + free.length
    requires InFree(free, a) && !InFree(now, a)
    ensures a >= 0 && free.block <= a / SECTOR < now.block
  {
  }

  // ---------------------------------------------------------------- sync keeps the store sound

  /** The free space after a sync. */
  lemma SyncedFree(s: Store, h: nat)
    requires Sound(s) && h in s.handles
    ensures var z := Synced(s, h);
            && |z.disk| == |s.disk| && FreeBounded(z.disk, z.free)
            && z.free.block >= s.free.block && z.free.Start() + z.free.length == s.free.Start() + s.free.length
  {
    hide SyncPass, SyncExtents, AllBounded, Apart, OwnersSound, NodeSound;
    var r := s.handles[h];
    SoundHandle(s, h);
    if r.dirty {
      FreeConserved(Begun(s.disk, s.free, r.vec), r.node.extents);
      PassBounded(Begun(s.disk, s.free, r.vec), r.node.extents);
    }
  }

  lemma PassBounded(p: Pass, es: seq<Extent>)
    requires FreeBounded(p.disk, p.free) && AllBounded(p.disk, es)
    ensures FreeBounded(SyncPass(p, es).disk, SyncPass(p, es).free)
  {
    hide SyncPass;
    FreeConserved(p, es);
    SyncBounded(p, es);
  }

  /** Sectors in use keep their owner. */
  ghost predicate Keeps(owners: map<nat, Owner>, now: map<nat, Owner>) {
    forall x :: x in owners ==> x in now && now[x] == owners[x]
  }

  lemma SyncedOwners(s: Store, h: nat)
    requires Sound(s) && h in s.handles
    ensures Keeps(s.owners, Synced(s, h).owners) && OwnersSound(Synced(s, h))
  {
    hide SyncPass, SyncExtents, AllBounded, Apart, NodeSound;
    SyncedFree(s, h);
    SoundHandle(s, h);
  }

  lemma OthersStaySound(s: Store, z: Store, m: Node)
    requires NodeSound(s, m) && Keeps(s.owners, z.owners) && z.free.length <= s.free.length
    ensures NodeSound(z, m)
  {
  }

  function SyncedNode(s: Store, h: nat): Node
    requires h in s.handles && FreeBounded(s.disk, s.free) && AllBounded(s.disk, s.handles[h].node.extents)
  {
    var r := s.handles[h];
    r.node.(extents := SyncExtents(Begun(s.disk, s.free, r.vec), r.node.extents))
  }

  lemma SyncedNodeSound(s: Store, h: nat)
    requires Sound(s) && h in s.handles && s.handles[h].dirty
    requires AllBounded(s.disk, s.handles[h].node.extents)
    ensures NodeSound(Synced(s, h), SyncedNode(s, h))
  {
    hide SyncPass, SyncExtents, AllBounded, FreeBounded, OwnersSound, InFree;
    var r, z, n := s.handles[h], Synced(s, h), SyncedNode(s, h);
    var p := Begun(s.disk, s.free, r.vec);
    SoundHandle(s, h);
    SyncedOwners(s, h);
    SyncedFree(s, h);
    DisjointAfter(p, r.node.extents);
    forall i, a | 0 <= i < |n.extents| && n.extents[i].Covers(a)
      ensures a / SECTOR in z.owners && z.owners[a / SECTOR] == DataOf(n.block)
    {
      CoversAfter(p, r.node.extents, i, a);
      if !r.node.extents[i].Covers(a) {
        NewSector(s.free, z.free, a);
      }
    }
    if n.block == 0 {
      PassIdle(p, r.node.extents);
    }
  }

  lemma SyncKeeps(s: Store, h: nat)
    requires Sound(s) && h in s.handles
    ensures Sound(Synced(s, h))
  {
    hide SyncPass, SyncExtents, AllBounded, Apart, FreeBounded, OwnersSound, NodeSound, Keeps;
    if s.handles[h].dirty {
      var z := Synced(s, h);
      SoundHandle(s, h);
      SyncedFree(s, h);
      SyncedOwners(s, h);
      SyncedNodeSound(s, h);
      var n := SyncedNode(s, h);
      assert Held(s, s.handles[h].node);
      forall m | Held(z, m)
        ensures m == n || Held(s, m)
      {
      }
      forall m | Held(z, m)
        ensures NodeSound(z, m)
      {
        if m != n {
          OthersStaySound(s, z, m);
        }
      }
    }
  }

  // ---------------------------------------------------------------- isolation

  lemma {:induction false} SameBytesSameContents(d: Bytes, f: Bytes, es: seq<Extent>)
    requires |d| == |f| && AllBounded(d, es)
    requires forall a :: 0 <= a < |d| && CoveredBy(es, a) ==> f[a] == d[a]
    ensures AllBounded(f, es) && Contents(f, es) == Contents(d, es)
  {
    hide Extent.Covers, ReadExtent;
    if es != [] {
      assert forall a: int :: es[0].Covers(a) ==> CoveredBy(es, a);
      forall a: int | CoveredBy(es[1..], a)
        ensures CoveredBy(es, a)
      {
        var i :| 0 <= i < |es[1..]| && es[1..][i].Covers(a);
        assert es[i + 1].Covers(a);
      }
      ReadIs(d, f, es[0]);
      SameBytesSameContents(d, f, es[1..]);
    }
  }

  /** Everything a sync writes is its own file's, or was free. */
  lemma SyncWrites(s: Store, h: nat, a: int)
    requires Sound(s) && h in s.handles && 0 <= a < |s.disk|
    requires a / SECTOR in s.owners
    requires var file := s.handles[h].node.block;
             s.owners[a / SECTOR] != NodeOf(file) && s.owners[a / SECTOR] != DataOf(file)
    ensures |Synced(s, h).disk| == |s.disk| && Synced(s, h).disk[a] == s.disk[a]
  {
    hide SyncPass, SyncExtents, AllBounded, Apart, FreeBounded, Sector;
    var r := s.handles[h];
    SyncedFree(s, h);
    SoundHandle(s, h);
    if r.dirty {
      PassFrame(Begun(s.disk, s.free, r.vec), r.node.extents, a);
      assert !InFree(s.free, a);
    }
  }

  /** The file a node belongs to is another than that of the handle; files without a node sector
      have nothing on the disk. */
  predicate Foreign(s: Store, h: nat, n: Node)
    requires h in s.handles
  {
    n.block != s.handles[h].node.block || n.block == 0
  }

  lemma SyncSparesContents(s: Store, h: nat, n: Node)
    requires Sound(s) && h in s.handles && NodeSound(s, n) && Foreign(s, h, n) && AllBounded(s.disk, n.extents)
    ensures |Synced(s, h).disk| == |s.disk| && AllBounded(Synced(s, h).disk, n.extents)
    ensures Contents(Synced(s, h).disk, n.extents) == Contents(s.disk, n.extents)
  {
    hide Synced, FreeBounded, OwnersSound, Apart, AllBounded;
    SyncedFree(s, h);
    var z := Synced(s, h);
    forall a | 0 <= a < |s.disk| && CoveredBy(n.extents, a)
      ensures z.disk[a] == s.disk[a]
    {
      SyncWrites(s, h, a);
    }
    SameBytesSameContents(s.disk, z.disk, n.extents);
  }

  lemma {:induction false} SameNamesSameFirst(u: seq<Node>, v: seq<Node>, name: Bytes)
    requires |u| == |v| && forall i :: 0 <= i < |u| ==> u[i].name == v[i].name
    ensures FirstNamed(u, name) == FirstNamed(v, name)
  {
    if u != [] {
      SameNamesSameFirst(u[1..], v[1..], name);
    }
  }

  /** A sync changes no name, and only nodes of its own file. */
  lemma SyncedNodes(s: Store, h: nat)
    requires Sound(s) && h in s.handles
    ensures var z := Synced(s, h);
            && |z.nodes| == |s.nodes|
            && forall i :: 0 <= i < |s.nodes| ==>
                 && z.nodes[i].name == s.nodes[i].name && z.nodes[i].block == s.nodes[i].block
                 && (Foreign(s, h, s.nodes[i]) ==> z.nodes[i] == s.nodes[i])
  {
    hide SyncPass, SyncExtents, AllBounded, Apart, FreeBounded, OwnersSound, NodeSound;
    SoundHandle(s, h);
    assert Held(s, s.handles[h].node);
    assert forall i :: 0 <= i < |s.nodes| ==> Held(s, s.nodes[i]);
  }

  /** Syncing one file never changes what reopening another reads. */
  lemma SyncIsolated(s: Store, h: nat, path: Bytes)
    requires Sound(s) && h in s.handles
    requires FirstNamed(s.nodes, path) < |s.nodes| ==> Foreign(s, h, s.nodes[FirstNamed(s.nodes, path)])
    ensures Sound(Synced(s, h)) && Reopen(Synced(s, h), path) == Reopen(s, path)
  {
    hide Synced, Sound, FirstNamed, AllBounded, Contents, Foreign;
    SyncKeeps(s, h);
    SyncedNodes(s, h);
    var z, k := Synced(s, h), FirstNamed(s.nodes, path);
    SameNamesSameFirst(s.nodes, z.nodes, path);
    SameNamesSameChildren(s.nodes, z.nodes, path);
    if k < |s.nodes| {
      ListedFits(s, k);
      SyncSparesContents(s, h, s.nodes[k]);
    }
  }

  lemma {:induction false} SameNamesSameChildren(u: seq<Node>, v: seq<Node>, path: Bytes)
    requires |u| == |v| && forall i :: 0 <= i < |u| ==> u[i].name == v[i].name
    ensures Children(u, path) == Children(v, path)
  {
    if u != [] {
      SameNamesSameChildren(u[1..], v[1..], path);
    }
  }

  /** Nor does it touch another file's node sector, which the next boot reads. */
  lemma SyncSparesNodes(s: Store, h: nat, file: nat)
    requires Sound(s) && h in s.handles && file in s.owners && s.owners[file] == NodeOf(file)
             && file != s.handles[h].node.block
    ensures |Synced(s, h).disk| == |s.disk| && (file + 1) * SECTOR <= |s.disk|
    ensures Synced(s, h).disk[file * SECTOR..(file + 1) * SECTOR] == s.disk[file * SECTOR..(file + 1) * SECTOR]
  {
    hide Synced, FreeBounded, Apart, AllBounded;
    SyncedFree(s, h);
    forall a | file * SECTOR <= a < (file + 1) * SECTOR
      ensures Synced(s, h).disk[a] == s.disk[a]
    {
      SyncWrites(s, h, a);
    }
  }

  // ---------------------------------------------------------------- the round trip through the store

  /** The path names the file and nothing lies below it. */
  predicate Names(s: Store, path: Bytes, block: nat) {
    var k := FirstNamed(s.nodes, path);
    Children(s.nodes, path) == [] && k < |s.nodes| && s.nodes[k].block == block
  }

  /** The path names the handle's file, which is listed with the extents the handle has, unless the sync
      will list it anew. */
  ghost predicate Current(s: Store, h: nat, path: Bytes)
    requires Sound(s) && h in s.handles
  {
    && Names(s, path, s.handles[h].node.block)
    && (s.nodes[FirstNamed(s.nodes, path)].extents == s.handles[h].node.extents || Relists(s, h))
  }

  /** The sync will give or take room, and so write the node and list it. */
  ghost predicate Relists(s: Store, h: nat)
    requires Sound(s) && h in s.handles
  {
    SoundHandle(s, h);
    SyncPass(Begun(s.disk, s.free, s.handles[h].vec), s.handles[h].node.extents).changed
  }

  /** After any sync of the file a path names, opening the path reads the handle's new extents if the sync
      lists them, and otherwise the listed ones, from the disk as the sync leaves it. */
  lemma SyncReads(s: Store, h: nat, path: Bytes)
    requires Sound(s) && h in s.handles && s.handles[h].dirty && Names(s, path, s.handles[h].node.block)
    requires AllBounded(s.disk, s.handles[h].node.extents)
    ensures var z := Synced(s, h);
            var es := if Relists(s, h) then SyncedNode(s, h).extents else s.nodes[FirstNamed(s.nodes, path)].extents;
            Sound(z) && AllBounded(z.disk, es) && Reopen(z, path) == File(Contents(z.disk, es))
  {
    hide SyncPass, SyncExtents, AllBounded, FreeBounded, Apart, FirstNamed, Contents, NodeSound, OwnersSound, Children;
    var z := Synced(s, h);
    SoundHandle(s, h);
    SyncKeeps(s, h);
    SyncedNodes(s, h);
    SameNamesSameFirst(s.nodes, z.nodes, path);
    SameNamesSameChildren(s.nodes, z.nodes, path);
    if s.handles[h].node.block == 0 {
      NoBlockNoChange(s, h);
    }
    ListedFits(z, FirstNamed(s.nodes, path));
  }

  /** `write`, `sync`, reopen: the same bytes come back exactly when there is room for all of them and
      only zeros lie behind the first extent's share. */
  lemma SyncRoundTrip(s: Store, h: nat, path: Bytes)
    requires Sound(s) && h in s.handles && s.handles[h].dirty && Current(s, h, path)
    ensures Sound(Synced(s, h))
    ensures var r := s.handles[h];
            Reopen(Synced(s, h), path) == File(r.vec)
            <==> LeftOver(s.free, |r.vec|, r.node.extents) == 0
                 && forall i :: FirstShare(s.free, |r.vec|, r.node.extents) <= i < |r.vec| ==> r.vec[i] == 0
  {
    hide SyncPass, SyncExtents, AllBounded, FreeBounded, Apart, FirstNamed, Contents, NodeSound, OwnersSound;
    hide LeftOver, FirstShare, Children;
    var r, z := s.handles[h], Synced(s, h);
    SoundHandle(s, h);
    SyncKeeps(s, h);
    SyncedNodes(s, h);
    SameNamesSameFirst(s.nodes, z.nodes, path);
    SameNamesSameChildren(s.nodes, z.nodes, path);
    var k, p := FirstNamed(s.nodes, path), Begun(s.disk, s.free, r.vec);
    RoundTrip(s.disk, s.free, r.vec, r.node.extents);
    UnchangedExtents(p, r.node.extents);
    if r.node.block == 0 {
      NoBlockNoChange(s, h);
    }
    assert z.nodes[k].extents == SyncExtents(p, r.node.extents);
    ListedFits(z, k);
    SyncedContents(s, h);
  }

  /** A file without a node sector has no room and gets none. */
  lemma NoBlockNoChange(s: Store, h: nat)
    requires Sound(s) && h in s.handles && s.handles[h].node.block == 0
    ensures !Relists(s, h)
  {
    hide SyncPass, SyncExtents, AllBounded, FreeBounded, Apart, OwnersSound, Disjoint;
    SoundHandle(s, h);
    PassIdle(Begun(s.disk, s.free, s.handles[h].vec), s.handles[h].node.extents);
  }

  /** A sync by a handle whose node is out of date, and which does not list it anew, is invisible where the
      listed extents share no sector with the handle's. */
  lemma StaleInvisible(s: Store, h: nat, path: Bytes)
    requires Sound(s) && h in s.handles && !Relists(s, h)
    requires var k := FirstNamed(s.nodes, path);
             k < |s.nodes| ==> forall a :: CoveredBy(s.nodes[k].extents, a) ==> !CoveredBy(s.handles[h].node.extents, a)
    ensures Sound(Synced(s, h)) && Reopen(Synced(s, h), path) == Reopen(s, path)
  {
    hide SyncPass, SyncExtents, AllBounded, FreeBounded, Apart, FirstNamed, Contents, NodeSound, CoveredBy, Children;
    SoundHandle(s, h);
    SyncKeeps(s, h);
    var r, z, k := s.handles[h], Synced(s, h), FirstNamed(s.nodes, path);
    if k < |s.nodes| && r.dirty {
      ListedFits(s, k);
      var p := SyncPass(Begun(s.disk, s.free, r.vec), r.node.extents);
      forall a | 0 <= a < |s.disk| && CoveredBy(s.nodes[k].extents, a)
        ensures z.disk[a] == s.disk[a]
      {
        PassFrame(Begun(s.disk, s.free, r.vec), r.node.extents, a);
        CoveredNotFree(s.free, s.nodes[k].extents, a);
      }
      SameBytesSameContents(s.disk, z.disk, s.nodes[k].extents);
    }
  }

  lemma CoveredNotFree(free: Extent, es: seq<Extent>, a: int)
    requires Apart(free, es) && CoveredBy(es, a)
    ensures !InFree(free, a)
  {
  }

  /** The node sector written last lies outside the data. */
  lemma SyncedContents(s: Store, h: nat)
    requires Sound(s) && h in s.handles && s.handles[h].dirty
    ensures var r, p := s.handles[h], Begun(s.disk, s.free, s.handles[h].vec);
            && FreeBounded(s.disk, s.free) && AllBounded(s.disk, r.node.extents)
            && AllBounded(Synced(s, h).disk, SyncExtents(p, r.node.extents))
            && AllBounded(SyncPass(p, r.node.extents).disk, SyncExtents(p, r.node.extents))
            && Contents(Synced(s, h).disk, SyncExtents(p, r.node.extents))
               == Contents(SyncPass(p, r.node.extents).disk, SyncExtents(p, r.node.extents))
  {
    hide SyncPass, SyncExtents, AllBounded, FreeBounded, Apart, Contents, OwnersSound, Disjoint;
    var r, z, p := s.handles[h], Synced(s, h), Begun(s.disk, s.free, s.handles[h].vec);
    SoundHandle(s, h);
    SyncBounded(p, r.node.extents);
    SyncedNodeSound(s, h);
    var n := SyncedNode(s, h);
    forall a | 0 <= a < |s.disk| && CoveredBy(n.extents, a)
      ensures z.disk[a] == SyncPass(p, r.node.extents).disk[a]
    {
      assert z.owners[a / SECTOR] == DataOf(n.block);
    }
    SameBytesSameContents(SyncPass(p, r.node.extents).disk, z.disk, n.extents);
  }

  /** A pass that marks nothing changed leaves the extents as they were. */
  lemma {:induction false} UnchangedExtents(p: Pass, es: seq<Extent>)
    requires FreeBounded(p.disk, p.free) && AllBounded(p.disk, es)
    ensures !SyncPass(p, es).changed ==> !p.changed && SyncExtents(p, es) == es
    decreases |es|
  {
    hide Turn, Turned, FreeBounded;
    if es != [] {
      TurnBounded(p, es[0]);
      TurnUnchanged(p, es[0]);
      UnchangedExtents(Turn(p, es[0]), es[1..]);
    }
  }

  lemma TurnUnchanged(p: Pass, e: Extent)
    requires FreeBounded(p.disk, p.free) && Bounded(p.disk, e)
    ensures !Turn(p, e).changed ==> !p.changed && Turned(p, e) == e
  {
    GivenBounded(p.disk, p.free, p.remaining, e);
  }
}
