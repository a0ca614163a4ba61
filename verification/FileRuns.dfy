/** Whole runs of file calls (kernel/schemes/file.rs): no sector ever changes owner, free space only
    moves its start, and a file reads the same until one of the calls that are about it. */
module FileRuns {
  import opened Common
  import opened Extents
  import opened Nodes
  import opened FileStore

  datatype Op =
    | Open(h: nat, path: Bytes, create: bool, truncate: bool)
    | Dup(h: nat, copy: nat)
    | Read(h: nat, count: nat)
    | Write(h: nat, data: Bytes)
    | Seek(h: nat, seek: nat)
    | Truncate(h: nat, len: nat)
    | Sync(h: nat)
    | Close(h: nat)
    | Unlink(path: Bytes)

  predicate Enabled(s: Store, op: Op) {
    match op
    case Open(h, _, _, _) => h !in s.handles
    case Dup(h, copy) => h in s.handles && copy !in s.handles
    case Unlink(_) => true
    case Read(h, _) => h in s.handles
    case Write(h, _) => h in s.handles
    case Seek(h, _) => h in s.handles
    case Truncate(h, _) => h in s.handles
    case Sync(h) => h in s.handles
    case Close(h) => h in s.handles
  }

  /** Opening creates a file when nothing has the name. */
  predicate Creates(s: Store, path: Bytes, create: bool) {
    create && Children(s.nodes, path) == [] && FirstNamed(s.nodes, path) == |s.nodes|
  }

  function Unlinked(nodes: seq<Node>, path: Bytes): seq<Node> {
    if nodes == [] then [] else (if nodes[0].name == path then [] else [nodes[0]]) + Unlinked(nodes[1..], path)
  }

  function ReadFrom(r: Handle, count: nat): Handle {
    r.(seek := r.seek + Min(count, if r.seek < |r.vec| then |r.vec| - r.seek else 0))
  }

  ghost function Apply(s: Store, op: Op): Store
    requires Sound(s) && Enabled(s, op)
  {
    match op
    case Open(h, path, create, truncate) =>
      var k := FirstNamed(s.nodes, path);
      if Children(s.nodes, path) != [] then s
      else if k < |s.nodes| then
        ListedFits(s, k);
        Opened(s, h, s.nodes[k], truncate)
      else if create then Created(s, h, path) else s
    case Dup(h, copy) => s.(handles := s.handles[copy := s.handles[h]])
    case Read(h, count) => s.(handles := s.handles[h := ReadFrom(s.handles[h], count)])
    case Write(h, data) => s.(handles := s.handles[h := WrittenTo(s.handles[h], data)])
    case Seek(h, seek) => s.(handles := s.handles[h := Sought(s.handles[h], seek)])
    case Truncate(h, len) => s.(handles := s.handles[h := Truncated(s.handles[h], len)])
    case Sync(h) => Synced(s, h)
    case Close(h) => var z := Synced(s, h); z.(handles := z.handles - {h})
    case Unlink(path) => s.(nodes := Unlinked(s.nodes, path))
  }

  // ---------------------------------------------------------------- every step is sound

  /** Fewer or other buffers and names do no harm: only the nodes held and the disk matter. */
  lemma StaysSound(s: Store, z: Store)
    requires Sound(s) && z.disk == s.disk && z.free == s.free && z.owners == s.owners
    requires forall n :: Held(z, n) ==> Held(s, n)
    ensures Sound(z)
  {
    hide Held, FreeBounded, OwnersSound, Disjoint, Owned, AllEmpty;
    assert forall n :: NodeSound(s, n) ==> NodeSound(z, n);
    assert OwnersSound(z) by { SameOwners(s, z); }
  }

  lemma SameOwners(s: Store, z: Store)
    requires OwnersSound(s) && z.disk == s.disk && z.free == s.free && z.owners == s.owners
    ensures OwnersSound(z)
  {
  }

  lemma HandleChange(s: Store, h: nat, r: Handle)
    requires Sound(s) && Held(s, r.node)
    ensures Sound(s.(handles := s.handles[h := r]))
  {
    hide Sound;
    var z := s.(handles := s.handles[h := r]);
    forall n | Held(z, n)
      ensures Held(s, n)
    {
      if n !in s.nodes {
        var k :| k in z.handles && z.handles[k].node == n;
        assert k != h ==> k in s.handles && s.handles[k].node == n;
      }
    }
    StaysSound(s, z);
  }

  lemma HandleGone(s: Store, h: nat)
    requires Sound(s)
    ensures Sound(s.(handles := s.handles - {h}))
  {
    hide Sound;
    var z := s.(handles := s.handles - {h});
    forall n | Held(z, n)
      ensures Held(s, n)
    {
      if n !in s.nodes {
        var k :| k in z.handles && z.handles[k].node == n;
        assert k in s.handles && s.handles[k].node == n;
      }
    }
    StaysSound(s, z);
  }

  lemma {:induction false} UnlinkedSubset(nodes: seq<Node>, path: Bytes, n: Node)
    ensures n in Unlinked(nodes, path) <==> n in nodes && n.name != path
  {
    if nodes != [] {
      UnlinkedSubset(nodes[1..], path, n);
    }
  }

  lemma UnlinkSound(s: Store, path: Bytes)
    requires Sound(s)
    ensures Sound(s.(nodes := Unlinked(s.nodes, path)))
  {
    hide Sound, Unlinked;
    var z := s.(nodes := Unlinked(s.nodes, path));
    forall n | Held(z, n)
      ensures Held(s, n)
    {
      UnlinkedSubset(s.nodes, path, n);
      if n !in s.nodes {
        var k :| k in z.handles && z.handles[k].node == n;
        assert k in s.handles && s.handles[k].node == n;
      }
    }
    StaysSound(s, z);
  }

  lemma CreateHolds(s: Store, h: nat, path: Bytes, m: Node)
    requires h !in s.handles && Held(Created(s, h, path), m)
    ensures Held(s, m) || m == Created(s, h, path).handles[h].node
  {
    var z := Created(s, h, path);
    if m !in z.nodes {
      var k :| k in z.handles && z.handles[k].node == m;
      assert k != h ==> k in s.handles && s.handles[k].node == m;
    }
  }

  /** A new file's node sector was free. */
  lemma CreateSound(s: Store, h: nat, path: Bytes)
    requires Sound(s) && h !in s.handles
    ensures Sound(Created(s, h, path)) && Keeps(s.owners, Created(s, h, path).owners)
  {
    hide Owned, Disjoint, Held;
    var z := Created(s, h, path);
    var n := z.handles[h].node;
    assert NodeSound(z, n) by { NothingOwned(z.owners, n); }
    forall m | Held(z, m)
      ensures m == n || Held(s, m)
    {
      CreateHolds(s, h, path, m);
    }
    forall m | Held(z, m)
      ensures NodeSound(z, m) && (m.block == n.block && m.block > 0 ==> m.name == n.name)
    {
      if m != n {
        OthersStaySound(s, z, m);
      }
    }
  }

  lemma NothingOwned(owners: map<nat, Owner>, n: Node)
    requires AllEmpty(n.extents)
    ensures Disjoint(n.extents) && Owned(owners, n.extents, n.block)
  {
  }

  lemma StepSound(s: Store, op: Op)
    requires Sound(s) && Enabled(s, op)
    ensures var z := Apply(s, op);
            && Sound(z) && Keeps(s.owners, z.owners)
            && z.free.block >= s.free.block && z.free.Start() + z.free.length == s.free.Start() + s.free.length
  {
    hide Sound, Synced, FirstNamed, Children, Unlinked, AllBounded, Contents;
    match op
    case Open(h, path, create, truncate) =>
      var k := FirstNamed(s.nodes, path);
      if k < |s.nodes| {
        ListedFits(s, k);
        assert Held(s, s.nodes[k]);
        var r := Handle(s.nodes[k], Contents(s.disk, s.nodes[k].extents), 0, false);
        HandleChange(s, h, r);
        HandleChange(s, h, Truncated(r, 0));
      }
      CreateSound(s, h, path);
    case Dup(h, copy) => HandleChange(s, copy, s.handles[h]);
    case Read(h, count) => HandleChange(s, h, ReadFrom(s.handles[h], count));
    case Write(h, data) => HandleChange(s, h, WrittenTo(s.handles[h], data));
    case Seek(h, seek) => HandleChange(s, h, Sought(s.handles[h], seek));
    case Truncate(h, len) => HandleChange(s, h, Truncated(s.handles[h], len));
    case Sync(h) =>
      SyncKeeps(s, h);
      SyncedFree(s, h);
      SyncedOwners(s, h);
    case Close(h) =>
      SyncKeeps(s, h);
      SyncedFree(s, h);
      SyncedOwners(s, h);
      HandleGone(Synced(s, h), h);
    case Unlink(path) => UnlinkSound(s, path);
  }

  // ---------------------------------------------------------------- every step leaves other files alone

  /** The calls that may change what a path reads as: a sync of that very file, and making or removing
      the file or something below it. */
  predicate About(s: Store, op: Op, path: Bytes)
    requires Enabled(s, op)
  {
    var k := FirstNamed(s.nodes, path);
    match op
    case Open(_, p, create, _) => Creates(s, p, create) && (p == path || StartsWith(p, Directory(path)))
    case Unlink(p) => p == path || StartsWith(p, Directory(path))
    case Sync(h) => k < |s.nodes| && !Foreign(s, h, s.nodes[k])
    case Close(h) => k < |s.nodes| && !Foreign(s, h, s.nodes[k])
    case Dup(_, _) => false
    case Read(_, _) => false
    case Write(_, _) => false
    case Seek(_, _) => false
    case Truncate(_, _) => false
  }

  lemma SameReading(s: Store, z: Store, path: Bytes)
    requires Sound(s) && Sound(z) && z.disk == s.disk && z.nodes == s.nodes
    ensures Reopen(z, path) == Reopen(s, path)
  {
  }

  lemma {:induction false} FirstNamedAppend(nodes: seq<Node>, n: Node, path: Bytes)
    requires n.name != path
    ensures var k := FirstNamed(nodes, path);
            FirstNamed(nodes + [n], path) == if k < |nodes| then k else |nodes| + 1
  {
    if nodes == [] {
      assert (nodes + [n])[1..] == [];
    } else if nodes[0].name != path {
      assert (nodes + [n])[1..] == nodes[1..] + [n];
      FirstNamedAppend(nodes[1..], n, path);
    }
  }

  lemma {:induction false} ChildrenAppend(nodes: seq<Node>, n: Node, path: Bytes)
    requires !StartsWith(n.name, Directory(path))
    ensures Children(nodes + [n], path) == Children(nodes, path)
  {
    if nodes == [] {
      assert (nodes + [n])[1..] == [];
    } else {
      assert (nodes + [n])[1..] == nodes[1..] + [n];
      ChildrenAppend(nodes[1..], n, path);
    }
  }

  lemma CreateIsolated(s: Store, h: nat, p: Bytes, path: Bytes)
    requires Sound(s) && h !in s.handles && p != path && !StartsWith(p, Directory(path))
    ensures Sound(Created(s, h, p)) && Reopen(Created(s, h, p), path) == Reopen(s, path)
  {
    hide Sound, FirstNamed, Children, AllBounded, Contents, StartsWith;
    CreateSound(s, h, p);
    var n := Created(s, h, p).handles[h].node;
    FirstNamedAppend(s.nodes, n, path);
    ChildrenAppend(s.nodes, n, path);
    var k := FirstNamed(s.nodes, path);
    if k < |s.nodes| {
      ListedFits(s, k);
      ListedFits(Created(s, h, p), k);
    }
  }

  lemma {:induction false} FirstNamedUnlinked(nodes: seq<Node>, p: Bytes, path: Bytes)
    requires p != path
    ensures var k, j := FirstNamed(nodes, path), FirstNamed(Unlinked(nodes, p), path);
            (k < |nodes| <==> j < |Unlinked(nodes, p)|) && (k < |nodes| ==> nodes[k] == Unlinked(nodes, p)[j])
  {
    if nodes != [] {
      FirstNamedUnlinked(nodes[1..], p, path);
      var rest, u := Unlinked(nodes[1..], p), Unlinked(nodes, p);
      if nodes[0].name == p {
        assert u == rest;
      } else {
        assert u == [nodes[0]] + rest;
        assert u[1..] == rest && u[0] == nodes[0];
      }
    }
  }

  lemma {:induction false} ChildrenUnlinked(nodes: seq<Node>, p: Bytes, path: Bytes)
    requires !StartsWith(p, Directory(path))
    ensures Children(Unlinked(nodes, p), path) == Children(nodes, path)
  {
    if nodes != [] {
      ChildrenUnlinked(nodes[1..], p, path);
      var rest := Unlinked(nodes[1..], p);
      if nodes[0].name != p {
        assert Unlinked(nodes, p) == [nodes[0]] + rest;
        assert Unlinked(nodes, p)[1..] == rest;
      } else {
        assert Unlinked(nodes, p) == rest;
      }
    }
  }

  lemma UnlinkIsolated(s: Store, p: Bytes, path: Bytes)
    requires Sound(s) && p != path && !StartsWith(p, Directory(path))
    ensures var z := s.(nodes := Unlinked(s.nodes, p)); Sound(z) && Reopen(z, path) == Reopen(s, path)
  {
    hide Sound, FirstNamed, Children, AllBounded, Contents, Unlinked, StartsWith;
    UnlinkSound(s, p);
    FirstNamedUnlinked(s.nodes, p, path);
    ChildrenUnlinked(s.nodes, p, path);
  }

  /** A call that is not about a path leaves alone what the path reads as. */
  lemma StepIsolated(s: Store, op: Op, path: Bytes)
    requires Sound(s) && Enabled(s, op) && !About(s, op, path)
    ensures Sound(Apply(s, op)) && Reopen(Apply(s, op), path) == Reopen(s, path)
  {
    hide Sound, Synced, FirstNamed, Children, Unlinked, Reopen, Foreign, StartsWith, Contents, AllBounded;
    StepSound(s, op);
    match op
    case Sync(h) => SyncIsolated(s, h, path);
    case Close(h) =>
      SyncIsolated(s, h, path);
      SameReading(Synced(s, h), Apply(s, op), path);
    case Unlink(p) => UnlinkIsolated(s, p, path);
    case Open(h, p, create, _) =>
      if Creates(s, p, create) {
        CreateIsolated(s, h, p, path);
      } else {
        SameReading(s, Apply(s, op), path);
      }
    case Dup(_, _) => SameReading(s, Apply(s, op), path);
    case Read(_, _) => SameReading(s, Apply(s, op), path);
    case Write(_, _) => SameReading(s, Apply(s, op), path);
    case Seek(_, _) => SameReading(s, Apply(s, op), path);
    case Truncate(_, _) => SameReading(s, Apply(s, op), path);
  }

  // ---------------------------------------------------------------- runs

  ghost predicate IsRun(states: seq<Store>, ops: seq<Op>) {
    && |states| == |ops| + 1
    && forall k :: 0 <= k < |ops| ==> Steps(states[k], ops[k], states[k + 1])
  }

  /** What a call does is only spelt out for sound stores; `RunSound` shows that there are no others. */
  ghost predicate Steps(s: Store, op: Op, z: Store) {
    Enabled(s, op) && (Sound(s) ==> z == Apply(s, op))
  }

  /** Over any run the store stays sound; a sector once handed out belongs to the same file for good,
      so none is handed out twice; free start plus length never changes. */
  lemma {:induction false} RunSound(states: seq<Store>, ops: seq<Op>)
    requires IsRun(states, ops) && Sound(states[0])
    ensures var z := states[|ops|];
            && Sound(z) && Keeps(states[0].owners, z.owners)
            && z.free.Start() + z.free.length == states[0].free.Start() + states[0].free.length
    decreases |ops|
  {
    hide Sound, Apply, Enabled;
    if ops != [] {
      var n := |ops| - 1;
      RunSound(states[..n + 1], ops[..n]);
      assert Steps(states[n], ops[n], states[n + 1]);
      StepSound(states[n], ops[n]);
    }
  }

  /** A path reads the same over any run without a call about it. */
  lemma {:induction false} RunIsolated(states: seq<Store>, ops: seq<Op>, path: Bytes)
    requires IsRun(states, ops) && Sound(states[0])
    requires forall k :: 0 <= k < |ops| ==> Enabled(states[k], ops[k]) && !About(states[k], ops[k], path)
    ensures Sound(states[|ops|]) && Reopen(states[|ops|], path) == Reopen(states[0], path)
    decreases |ops|
  {
    hide Sound, Apply, Enabled, About, Reopen;
    if ops != [] {
      var n := |ops| - 1;
      RunIsolated(states[..n + 1], ops[..n], path);
      assert Steps(states[n], ops[n], states[n + 1]);
      StepIsolated(states[n], ops[n], path);
    }
  }

  /** Seeking past the end lengthens the buffer, but the zeros are never saved on their own. */
  lemma SeekNotSaved(s: Store, h: nat, path: Bytes, seek: nat)
    requires Sound(s) && h in s.handles && !s.handles[h].dirty && seek > |s.handles[h].vec|
    requires Reopen(s, path) == File(s.handles[h].vec)
    ensures var t := Apply(s, Seek(h, seek));
            && Sound(t) && Sound(Apply(t, Sync(h)))
            && |t.handles[h].vec| == seek
            && Reopen(Apply(t, Sync(h)), path) == File(s.handles[h].vec) != File(t.handles[h].vec)
  {
    hide Sound, Reopen;
    StepSound(s, Seek(h, seek));
    var t := Apply(s, Seek(h, seek));
    StepSound(t, Sync(h));
    SameReading(s, t, path);
  }

  /** After a seek past the end, sync and reopen give the lengthened buffer exactly when something else was
      waiting to be saved, and what then counts is the round trip of any sync. */
  lemma SeekSavedIff(s: Store, h: nat, path: Bytes, seek: nat)
    requires Sound(s) && h in s.handles && seek > |s.handles[h].vec|
    requires if s.handles[h].dirty then Sound(Apply(s, Seek(h, seek))) && Current(Apply(s, Seek(h, seek)), h, path)
             else Reopen(s, path) == File(s.handles[h].vec)
    ensures var t := Apply(s, Seek(h, seek));
            var r := t.handles[h];
            && Sound(t) && Sound(Apply(t, Sync(h)))
            && (Reopen(Apply(t, Sync(h)), path) == File(r.vec)
                <==> s.handles[h].dirty && LeftOver(t.free, |r.vec|, r.node.extents) == 0
                     && forall i :: FirstShare(t.free, |r.vec|, r.node.extents) <= i < |r.vec| ==> r.vec[i] == 0)
  {
    hide Sound, Reopen, Current, LeftOver, FirstShare;
    StepSound(s, Seek(h, seek));
    var t := Apply(s, Seek(h, seek));
    StepSound(t, Sync(h));
    if s.handles[h].dirty {
      SyncRoundTrip(t, h, path);
    } else {
      SeekNotSaved(s, h, path, seek);
    }
  }

  /** A handle that was just opened on a file has nothing to save, and its seek is such a one. */
  lemma JustOpened(s: Store, h: nat, path: Bytes, create: bool)
    requires Sound(s) && h !in s.handles && Children(s.nodes, path) == [] && FirstNamed(s.nodes, path) < |s.nodes|
    ensures var t := Apply(s, Open(h, path, create, false));
            && Sound(t) && h in t.handles && !t.handles[h].dirty
            && Reopen(t, path) == File(t.handles[h].vec) && Current(t, h, path)
  {
    hide Sound, FirstNamed, Children, Contents, AllBounded;
    StepSound(s, Open(h, path, create, false));
    ListedFits(s, FirstNamed(s.nodes, path));
  }
}
