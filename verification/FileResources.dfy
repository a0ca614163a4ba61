/** File handles as they run (kernel/schemes/file.rs, lines 60-211): loops over the buffer, the extents
    and the node list, with the disk an array that is written in place. */
module FileResources {
  import opened Common
  import opened Extents
  import opened Nodes
  import opened FileStore
  import opened FileRuns

  class FileScheme {
    const disk: array<Byte>
    var free: Extent
    var nodes: seq<Node>

    constructor (disk: array<Byte>, free: Extent, nodes: seq<Node>)
      ensures this.disk == disk && this.free == free && this.nodes == nodes
    {
      this.disk, this.free, this.nodes := disk, free, nodes;
    }

    method WriteDisk(block: nat, data: Bytes)
      requires block * SECTOR + |data| <= disk.Length
      modifies disk
      ensures disk[..] == WriteAt(old(disk[..]), block * SECTOR, data)
    {
      var start := block * SECTOR;
      for i := 0 to |data|
        invariant forall a :: 0 <= a < disk.Length ==>
                    disk[a] == if start <= a < start + i then data[a - start] else old(disk[a])
      {
        disk[start + i] := data[i];
      }
    }

    /** `FileSystem::node`. */
    method Find(name: Bytes) returns (k: nat)
      ensures k == FirstNamed(nodes, name)
    {
      k := 0;
      while k < |nodes|
        invariant k <= |nodes| && k + FirstNamed(nodes[k..], name) == FirstNamed(nodes, name)
      {
        if nodes[k].name == name {
          return;
        }
        assert nodes[k..][1..] == nodes[k + 1..];
        k := k + 1;
      }
    }

    /** Every listed node of this block is replaced. */
    method Renode(n: Node)
      modifies this`nodes
      ensures nodes == Replaced(old(nodes), n)
    {
      for i := 0 to |nodes|
        invariant |nodes| == |old(nodes)|
        invariant forall j :: 0 <= j < |nodes| ==>
                    nodes[j] == if j < i && old(nodes)[j].block == n.block then n else old(nodes)[j]
      {
        if nodes[i].block == n.block {
          nodes := nodes[i := n];
        }
      }
    }

    /** `unlink`: remove every node of that name; false is the error that there was none. */
    method Unlink(path: Bytes) returns (found: bool)
      modifies this`nodes
      ensures nodes == Unlinked(old(nodes), path)
      ensures found <==> exists n :: n in old(nodes) && n.name == path
    {
      hide Unlinked;
      found := false;
      var i := 0;
      ghost var all, seen := nodes, 0;
      while i < |nodes|
        invariant i <= |nodes| && seen <= |all| && nodes[i..] == all[seen..]
        invariant nodes[..i] + Unlinked(all[seen..], path) == Unlinked(all, path)
        invariant found <==> exists k :: 0 <= k < seen && all[k].name == path
        decreases |nodes| - i
      {
        UnlinkStep(nodes, i, all, seen, path);
        if nodes[i].name == path {
          nodes := Without(nodes, i);
          found := true;
        } else {
          i := i + 1;
        }
        seen := seen + 1;
      }
      UnlinkedNone(all[seen..], path);
      assert nodes[..i] == nodes;
    }

    /** The buffer `open` fills from the extents. */
    method ReadAll(es: seq<Extent>) returns (vec: Bytes)
      requires AllBounded(disk[..], es)
      ensures vec == Contents(disk[..], es)
    {
      hide Contents, AllBounded;
      vec := [];
      ContentsEnd(disk[..], es[..0]);
      for i := 0 to |es|
        invariant AllBounded(disk[..], es[..i]) && vec == Contents(disk[..], es[..i])
      {
        ContentsStep(disk[..], es, i);
        if es[i].block > 0 && es[i].length > 0 {
          var size := Min(es[i].length, es[i].Capacity());
          var start := es[i].block * SECTOR;
          var sectors := disk[start..start + es[i].Capacity()];
          var pos := |vec|;
          vec := vec + sectors;
          vec := vec[..pos + size];
          assert sectors[..size] == ReadExtent(disk[..], es[i]);
        }
      }
      assert es[..|es|] == es;
    }
  }

  class FileResource {
    const scheme: FileScheme
    var node: Node
    var vec: Bytes
    var seek: nat
    var dirty: bool

    ghost function State(): Handle
      reads this
    {
      Handle(node, vec, seek, dirty)
    }

    constructor (scheme: FileScheme, node: Node, vec: Bytes)
      ensures State() == Handle(node, vec, 0, false) && this.scheme == scheme
    {
      this.scheme, this.node, this.vec, this.seek, this.dirty := scheme, node, vec, 0, false;
    }

    /** `read` into `size` bytes. */
    method Read(size: nat) returns (got: Bytes)
      modifies this`seek
      ensures State() == ReadFrom(old(State()), size)
      ensures got == if old(seek) <= |vec| then vec[old(seek)..seek] else []
    {
      got := [];
      var i := 0;
      while i < size && seek < |vec|
        invariant i == |got| == seek - old(seek) <= size
        invariant old(seek) < |vec| ==> seek <= |vec| && got == vec[old(seek)..seek]
        invariant old(seek) >= |vec| ==> i == 0
      {
        got := got + [vec[seek]];
        seek := seek + 1;
        i := i + 1;
      }
    }

    /** Overwrite what is already in the buffer, as far as it goes. */
    method Overwrite(data: Bytes) returns (i: nat)
      modifies this`vec, this`seek
      ensures i == Min(|data|, if old(seek) < |old(vec)| then |old(vec)| - old(seek) else 0) && seek == old(seek) + i
      ensures vec == if i > 0 then old(vec)[..old(seek)] + data[..i] + old(vec)[old(seek) + i..] else old(vec)
    {
      i := 0;
      while i < |data| && seek < |vec|
        invariant 0 <= i <= |data| && seek == old(seek) + i && |vec| == |old(vec)|
        invariant i > 0 ==> seek <= |vec|
        invariant vec == if i > 0 then old(vec)[..old(seek)] + data[..i] + old(vec)[old(seek) + i..] else old(vec)
      {
        vec := vec[seek := data[i]];
        seek := seek + 1;
        i := i + 1;
      }
    }

    /** Append the rest. */
    method Append(data: Bytes, over: nat) returns (i: nat)
      requires over <= |data|
      modifies this`vec, this`seek
      ensures i == |data| && seek == old(seek) + |data| - over && vec == old(vec) + data[over..]
    {
      i := over;
      while i < |data|
        invariant over <= i <= |data| && seek == old(seek) + i - over
        invariant vec == old(vec) + data[over..i]
      {
        assert data[over..i + 1] == data[over..i] + [data[i]];
        vec := vec + [data[i]];
        seek := seek + 1;
        i := i + 1;
      }
    }

    method Write(data: Bytes) returns (count: nat)
      modifies this
      ensures State() == WrittenTo(old(State()), data) && count == |data|
    {
      var over := Overwrite(data);
      var i := Append(data, over);
      if i > 0 {
        dirty := true;
      }
      return i;
    }

    /** Extend the buffer with zeros. */
    method Pad(n: nat)
      modifies this`vec
      ensures vec == Padded(old(vec), n)
    {
      while |vec| < n
        invariant |old(vec)| <= |vec| && (|vec| <= n || vec == old(vec)) && vec == Padded(old(vec), |vec|)
      {
        vec := vec + [0];
      }
    }

    /** `seek`, from the start, the present place or the end; never to before the start. */
    method SeekTo(from: nat, offset: int) returns (place: nat)
      modifies this
      ensures place == (if from + offset < 0 then 0 else from + offset)
      ensures State() == Sought(old(State()), place)
    {
      seek := if from + offset < 0 then 0 else from + offset;
      Pad(seek);
      return seek;
    }

    method Truncate(len: nat)
      modifies this
      ensures State() == Truncated(old(State()), len)
    {
      Pad(len);
      vec := vec[..len];
      seek := Min(seek, |vec|);
      dirty := true;
    }

    /** `sync`: one pass over the extents, then the node's sector and the node list if it changed.
        False is the error that some of the buffer found no room. */
    method Sync() returns (ok: bool)
      requires dirty ==>
                 && |node.extents| == EXTENT_COUNT && FreeBounded(scheme.disk[..], scheme.free)
                 && AllBounded(scheme.disk[..], node.extents)
      requires (node.block + 1) * SECTOR <= scheme.disk.Length
      modifies this, scheme, scheme.disk
      ensures !old(dirty) ==>
                && ok && State() == old(State()) && scheme.free == old(scheme.free)
                && scheme.nodes == old(scheme.nodes) && scheme.disk[..] == old(scheme.disk[..])
      ensures old(dirty) ==>
                var p := Begun(old(scheme.disk[..]), old(scheme.free), old(vec));
                var q := SyncPass(p, old(node.extents));
                && State() == Handle(old(node).(extents := SyncExtents(p, old(node.extents))), q.vec, old(seek), false)
                && scheme.free == q.free
                && (ok <==> LeftOver(old(scheme.free), |old(vec)|, old(node.extents)) == 0)
                && (if q.changed && node.block > 0
                    then scheme.nodes == Replaced(old(scheme.nodes), node)
                      && scheme.disk[..] == WriteAt(q.disk, node.block * SECTOR, Sector(node))
                    else scheme.nodes == old(scheme.nodes) && scheme.disk[..] == q.disk)
    {
      if !dirty {
        return true;
      }
      hide Sector, FreeBounded, AllBounded, SyncPass, SyncExtents, LeftOver, WriteAt, Replaced;
      PassLeaves(Begun(scheme.disk[..], scheme.free, vec), node.extents);
      var changed, remaining := SyncAll();
      if changed {
        if node.block > 0 {
          scheme.WriteDisk(node.block, Sector(node));
          scheme.Renode(node);
        }
      }
      dirty := false;
      return remaining == 0;
    }

    /** The loop over the extents. */
    method SyncAll() returns (changed: bool, remaining: nat)
      requires |node.extents| == EXTENT_COUNT && FreeBounded(scheme.disk[..], scheme.free)
               && AllBounded(scheme.disk[..], node.extents)
      modifies this`node, this`vec, scheme`free, scheme.disk
      ensures var p, es := Begun(old(scheme.disk[..]), old(scheme.free), old(vec)), old(node.extents);
              && SyncPass(p, es) == Pass(scheme.disk[..], scheme.free, vec, SyncPass(p, es).pos, remaining, changed)
              && node == old(node).(extents := SyncExtents(p, es))
    {
      hide Turn, Turned, FreeBounded, SyncPass, SyncExtents;
      ghost var es, p := node.extents, Begun(scheme.disk[..], scheme.free, vec);
      ghost var q := p;
      changed, remaining := false, |vec|;
      var pos: nat := 0;
      var i := 0;
      while i < EXTENT_COUNT
        invariant 0 <= i <= EXTENT_COUNT && |node.extents| == EXTENT_COUNT && node.extents[i..] == es[i..]
        invariant node == old(node).(extents := node.extents)
        invariant q == Pass(scheme.disk[..], scheme.free, vec, pos, remaining, changed) && pos <= |vec|
        invariant FreeBounded(q.disk, q.free) && AllBounded(q.disk, es[i..])
        invariant SyncPass(q, es[i..]) == SyncPass(p, es)
        invariant node.extents[..i] + SyncExtents(q, es[i..]) == SyncExtents(p, es)
      {
        PassStep(q, es[i..]);
        assert es[i..][1..] == es[i + 1..] && es[i..][0] == es[i] == node.extents[i];
        ghost var was, t := node.extents, Turned(q, es[i]);
        q := Turn(q, es[i]);
        changed, pos, remaining := SyncExtent(i, changed, pos, remaining);
        i := i + 1;
      }
      PassEnd(q, es[i..]);
      assert node.extents[..i] == node.extents;
    }

    /** One turn of the loop over the extents. */
    method SyncExtent(i: nat, wasChanged: bool, start: nat, left: nat) returns (changed: bool, pos: nat, remaining: nat)
      requires i < |node.extents| && FreeBounded(scheme.disk[..], scheme.free)
               && Bounded(scheme.disk[..], node.extents[i])
      requires start <= |vec|
      modifies this`node, this`vec, scheme`free, scheme.disk
      ensures var p := Pass(old(scheme.disk[..]), old(scheme.free), old(vec), start, left, wasChanged);
              && Turn(p, old(node).extents[i]) == Pass(scheme.disk[..], scheme.free, vec, pos, remaining, changed)
              && node == old(node).(extents := old(node).extents[i := Turned(p, old(node).extents[i])])
              && pos <= |vec|
    {
      hide FreeBounded, FreeAfter, Given, Allocates, Bounded, Resized, Stored;
      GivenBounded(scheme.disk[..], scheme.free, left, node.extents[i]);
      changed := Allocate(i, wasChanged, left);
      changed, pos, remaining := Store(i, changed, start, left);
    }

    /** Give an empty extent room for all that is left, if there is enough. */
    method Allocate(i: nat, wasChanged: bool, remaining: nat) returns (changed: bool)
      requires i < |node.extents|
      modifies this`node, scheme`free
      ensures var e := old(node).extents[i];
              && scheme.free == FreeAfter(old(scheme.free), remaining, e)
              && node == old(node).(extents := old(node).extents[i := Given(old(scheme.free), remaining, e)])
              && changed == (wasChanged || Allocates(old(scheme.free), remaining, e))
    {
      changed := wasChanged;
      if remaining > 0 && node.extents[i].Empty() {
        var sectors := (remaining + 511) / 512;
        if scheme.free.length >= sectors * 512 {
          node := node.(extents := node.extents[i := Extent(scheme.free.block, remaining)]);
          scheme.free := Extent(scheme.free.block + sectors, scheme.free.length - sectors * 512);
          changed := true;
        }
      }
    }

    /** Write an extent's part of the buffer, and cut the buffer off behind it. */
    method Store(i: nat, wasChanged: bool, start: nat, left: nat) returns (changed: bool, pos: nat, remaining: nat)
      requires i < |node.extents| && Bounded(scheme.disk[..], node.extents[i]) && start <= |vec|
      modifies this`node, this`vec, scheme.disk
      ensures var e := old(node).extents[i];
              && Stored(Pass(old(scheme.disk[..]), scheme.free, old(vec), start, left, wasChanged), e)
                 == Pass(scheme.disk[..], scheme.free, vec, pos, remaining, changed)
              && node == old(node).(extents := old(node).extents[i := Resized(e, left)])
              && pos <= |vec|
    {
      hide WriteAt, Padded, Stored, Extent.Capacity;
      changed, pos, remaining := wasChanged, start, left;
      var extent := node.extents[i];
      StoredIs(Pass(scheme.disk[..], scheme.free, vec, start, left, wasChanged), extent);
      if !extent.Empty() {
        var maxSize := MaxSize(extent);
        var size := Min(remaining, maxSize);
        if size != extent.length {
          node := node.(extents := node.extents[i := extent.(length := size)]);
          changed := true;
        }
        StoreBytes(extent, pos, size);
        pos := pos + size;
        remaining := remaining - size;
      }
    }

    method MaxSize(extent: Extent) returns (n: nat)
      ensures n == extent.Capacity()
    {
      return (extent.length + 511) / 512 * 512;
    }

    method StoreBytes(extent: Extent, pos: nat, size: nat)
      requires !extent.Empty() && Bounded(scheme.disk[..], extent) && pos <= |vec| && size <= extent.Capacity()
      modifies this`vec, scheme.disk
      ensures var v := Padded(old(vec), pos + extent.Capacity());
              && scheme.disk[..] == WriteAt(old(scheme.disk[..]), extent.Start(), v[pos..pos + extent.Capacity()])
              && vec == v[..pos + size]
    {
      hide WriteAt, Padded, Extent.Capacity;
      var maxSize := MaxSize(extent);
      Pad(pos + maxSize);
      scheme.WriteDisk(extent.block, vec[pos..pos + maxSize]);
      vec := vec[..pos + size];
    }
  }

  lemma StoredIs(p: Pass, e: Extent)
    requires Bounded(p.disk, e) && p.pos <= |p.vec|
    ensures e.Empty() ==> Stored(p, e) == p
    ensures !e.Empty() ==>
              var size, v := Min(p.remaining, e.Capacity()), Padded(p.vec, p.pos + e.Capacity());
              Stored(p, e) == Pass(WriteAt(p.disk, e.Start(), v[p.pos..p.pos + e.Capacity()]), p.free,
                                   v[..p.pos + size],
                                   p.pos + size, p.remaining - size, p.changed || size != e.length)
  {
  }

  lemma WithoutAt(nodes: seq<Node>, i: nat)
    requires i < |nodes|
    ensures var r := Without(nodes, i); r[..i] == nodes[..i] && r[i..] == nodes[i + 1..]
    ensures nodes[i..][0] == nodes[i] && nodes[i..][1..] == nodes[i + 1..]
    ensures nodes[..i + 1] == nodes[..i] + [nodes[i]]
  {
  }

  /** One turn of `unlink`: the node at `i` goes, or is passed. */
  lemma UnlinkStep(nodes: seq<Node>, i: nat, all: seq<Node>, seen: nat, path: Bytes)
    requires i < |nodes| && seen <= |all| && nodes[i..] == all[seen..]
    requires nodes[..i] + Unlinked(all[seen..], path) == Unlinked(all, path)
    ensures seen < |all| && nodes[i] == all[seen]
    ensures nodes[i].name == path ==>
              var r := Without(nodes, i);
              r[i..] == all[seen + 1..] && r[..i] + Unlinked(all[seen + 1..], path) == Unlinked(all, path)
    ensures nodes[i].name != path ==>
              nodes[i + 1..] == all[seen + 1..]
                && nodes[..i + 1] + Unlinked(all[seen + 1..], path) == Unlinked(all, path)
  {
    hide Unlinked;
    assert nodes[i] == nodes[i..][0] == all[seen..][0];
    UnlinkedStep(all, seen, path);
    WithoutAt(nodes, i);
    assert all[seen..][1..] == all[seen + 1..];
  }

  lemma UnlinkedStep(nodes: seq<Node>, k: nat, path: Bytes)
    requires k < |nodes|
    ensures Unlinked(nodes[k..], path)
            == (if nodes[k].name == path then [] else [nodes[k]]) + Unlinked(nodes[k + 1..], path)
  {
    assert nodes[k..][1..] == nodes[k + 1..];
  }

  lemma UnlinkedNone(nodes: seq<Node>, path: Bytes)
    requires nodes == []
    ensures Unlinked(nodes, path) == []
  {
  }

  lemma ContentsEnd(disk: Bytes, es: seq<Extent>)
    requires es == []
    ensures AllBounded(disk, es) && Contents(disk, es) == []
  {
  }

  lemma {:induction false} ContentsStep(disk: Bytes, es: seq<Extent>, i: nat)
    requires AllBounded(disk, es) && i < |es|
    ensures AllBounded(disk, es[..i]) && AllBounded(disk, es[..i + 1]) && Bounded(disk, es[i])
    ensures Contents(disk, es[..i + 1]) == Contents(disk, es[..i]) + ReadExtent(disk, es[i])
    decreases i
  {
    hide ReadExtent;
    if i > 0 {
      ContentsStep(disk, es[1..], i - 1);
      assert es[..i + 1][1..] == es[1..][..i] && es[..i][1..] == es[1..][..i - 1];
    } else {
      assert es[..1][1..] == [];
    }
  }

  lemma PassStep(p: Pass, es: seq<Extent>)
    requires es != [] && FreeBounded(p.disk, p.free) && AllBounded(p.disk, es)
    ensures FreeBounded(Turn(p, es[0]).disk, Turn(p, es[0]).free) && AllBounded(Turn(p, es[0]).disk, es[1..])
    ensures |Turn(p, es[0]).disk| == |p.disk|
    ensures SyncPass(p, es) == SyncPass(Turn(p, es[0]), es[1..])
    ensures SyncExtents(p, es) == [Turned(p, es[0])] + SyncExtents(Turn(p, es[0]), es[1..])
  {
    TurnBounded(p, es[0]);
  }

  lemma PassEnd(p: Pass, es: seq<Extent>)
    requires es == [] && FreeBounded(p.disk, p.free) && AllBounded(p.disk, es)
    ensures SyncPass(p, es) == p && SyncExtents(p, es) == []
  {
  }
}
