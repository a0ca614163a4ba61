/** Parents, children and exit statuses over whole runs (kernel/syscall/process.rs:33-112,
    kernel/arch/context.rs:211-213, 472-499).

    A history remembers who created whom, which status each exited context passed to `exit` and
    which statuses were collected.  It is bookkeeping of this model; pids are taken not to be
    reused while it lasts. */
module ProcessTree {
  import opened Common
  import opened Scheduler
  import opened Kernel

  datatype History = History(parent: map<Pid, Pid>, born: map<Pid, nat>, status: map<Pid, int>, collected: set<Pid>)
  {
    /** Parents were created before their children. */
    predicate Valid() {
      && 0 !in parent && born.Keys == parent.Keys && collected <= status.Keys <= parent.Keys
      && (forall p :: p in born ==> born[p] < |parent|)
      && (forall p :: p in parent && parent[p] != 0 ==> parent[p] in parent && born[parent[p]] < born[p])
    }
  }

  function Newborn(h: History, n: Pid, parent: Pid): History {
    h.(parent := h.parent[n := parent], born := h.born[n := |h.parent|])
  }

  /** The nearest live context up the line of creation, 0 when there is none. */
  function NearestLive(alive: set<Pid>, h: History, p: Pid): (a: Pid)
    requires h.Valid() && p in h.parent
    ensures a != 0 ==> a in alive && a in h.parent && h.born[a] < h.born[p]
    decreases h.born[p]
  {
    var a := h.parent[p];
    if a == 0 then 0 else if a in alive then a else NearestLive(alive, h, a)
  }

  /** The part of a kernel state that matters here: the parents of live contexts, and everyone's
      mailbox of statuses. */
  datatype Tree = Tree(ppid: map<Pid, Pid>, boxes: map<Pid, map<nat, int>>)

  function Project(k: State): Tree {
    Tree(map p | p in k.Ctx() && !k.Ctx()[p].exited :: k.Ctx()[p].ppid,
         map p | p in k.Ctx() :: k.Ctx()[p].statuses.inner)
  }

  /** Everyone's nearest live ancestor. */
  function Near(alive: set<Pid>, h: History): map<Pid, Pid>
    requires h.Valid()
  {
    map p | p in h.parent :: NearestLive(alive, h, p)
  }

  /** Live contexts hang below their nearest live ancestor, and each uncollected status of a context
      with one is in that ancestor's mailbox, and in no other. */
  ghost predicate TreeInv(t: Tree, h: History) {
    h.Valid() && TreeOk(t, h.status, h.collected, Near(t.ppid.Keys, h))
  }

  ghost predicate TreeOk(t: Tree, status: map<Pid, int>, collected: set<Pid>, near: map<Pid, Pid>) {
    && Shaped(t, status, near)
    && (forall p :: p in status && p !in collected ==> p in near && Kept(t, near[p], p, status[p]))
    && (forall a, p :: a in t.boxes && p in t.boxes[a] ==> Owned(t, status, collected, near, a, p))
  }

  ghost predicate Shaped(t: Tree, status: map<Pid, int>, near: map<Pid, Pid>) {
    && 0 !in near && t.ppid.Keys <= t.boxes.Keys <= near.Keys
    && (forall p :: p in near ==> (p in t.ppid <==> p !in status))
    && (forall p :: p in near && near[p] != 0 ==> near[p] in t.ppid)
    && (forall p :: p in t.ppid ==> p in near && t.ppid[p] == near[p])
  }

  /** The status is with the nearest live ancestor, if there is one. */
  predicate Kept(t: Tree, a: Pid, p: Pid, status: int) {
    a != 0 ==> a in t.boxes && p in t.boxes[a] && t.boxes[a][p] == status
  }

  predicate Owned(t: Tree, status: map<Pid, int>, collected: set<Pid>, near: map<Pid, Pid>, a: Pid, p: Pid) {
    a in t.ppid && p in status && p !in collected && p in near && near[p] == a
  }

  // ---------------------------------------------------------------- the nearest live ancestor

  /** Only older contexts matter. */
  lemma {:induction false} OlderDecide(alive: set<Pid>, also: set<Pid>, h: History, p: Pid)
    requires h.Valid() && p in h.parent
    requires forall a :: a in h.parent && h.born[a] < h.born[p] ==> (a in alive <==> a in also)
    ensures NearestLive(alive, h, p) == NearestLive(also, h, p)
    decreases h.born[p]
  {
    var a := h.parent[p];
    if a != 0 && a !in alive {
      OlderDecide(alive, also, h, a);
    }
  }

  /** When a context dies, those it was nearest to move on to its own nearest. */
  lemma {:induction false} DeathMovesUp(alive: set<Pid>, h: History, d: Pid, p: Pid)
    requires h.Valid() && p in h.parent && d in alive && d in h.parent
    ensures NearestLive(alive - {d}, h, p) ==
            if NearestLive(alive, h, p) == d then NearestLive(alive, h, d) else NearestLive(alive, h, p)
    decreases h.born[p]
  {
    var a := h.parent[p];
    if a == d {
      OlderDecide(alive, alive - {d}, h, d);
    } else if a != 0 && a !in alive {
      DeathMovesUp(alive, h, d, a);
    }
  }

  /** A new context changes nobody's ancestors. */
  lemma {:induction false} BirthChangesNone(alive: set<Pid>, h: History, n: Pid, parent: Pid, p: Pid)
    requires h.Valid() && Newborn(h, n, parent).Valid() && n !in h.parent && p in h.parent
    ensures NearestLive(alive + {n}, Newborn(h, n, parent), p) == NearestLive(alive, h, p)
    decreases h.born[p]
  {
    var a := h.parent[p];
    if a != 0 && a !in alive {
      BirthChangesNone(alive, h, n, parent, a);
    }
  }

  /** Statuses and collections do not matter to the line of creation. */
  lemma {:induction false} SameLineAt(alive: set<Pid>, h: History, g: History, p: Pid)
    requires h.Valid() && g.Valid() && g.parent == h.parent && g.born == h.born && p in h.parent
    ensures NearestLive(alive, g, p) == NearestLive(alive, h, p)
    decreases h.born[p]
  {
    var a := h.parent[p];
    if a != 0 && a !in alive {
      SameLineAt(alive, h, g, a);
    }
  }

  // ---------------------------------------------------------------- what happens to a tree

  function Collected(t: Tree, a: Pid, child: Pid): Tree
    requires a in t.boxes
  {
    t.(boxes := t.boxes[a := t.boxes[a] - {child}])
  }

  function Grown(t: Tree, n: Pid, ppid: Pid): Tree {
    Tree(t.ppid[n := ppid], t.boxes[n := map[]])
  }

  /** The parent takes the status and what the dead one had not collected; children move up. */
  function Died(t: Tree, d: Pid, status: int): Tree
    requires d in t.ppid && d in t.boxes
  {
    var q, gift := t.ppid[d], map[d := status] + t.boxes[d];
    Tree(map x | x in t.ppid && x != d :: if t.ppid[x] == d then q else t.ppid[x],
         map x | x in t.boxes :: (if x == d then map[] else t.boxes[x]) + (if x == q then gift else map[]))
  }

  /** Nothing but dead contexts' empty boxes went away. */
  predicate Pruned(t: Tree, u: Tree) {
    u.ppid == t.ppid && u.boxes.Keys <= t.boxes.Keys && t.ppid.Keys <= u.boxes.Keys
    && forall p :: p in u.boxes ==> u.boxes[p] == t.boxes[p]
  }

  lemma PrunedKeeps(t: Tree, u: Tree, h: History)
    requires TreeInv(t, h) && Pruned(t, u)
    ensures TreeInv(u, h)
  {
    hide Near, History.Valid;
    var near := Near(t.ppid.Keys, h);
    forall p | p in h.status && p !in h.collected
      ensures Kept(u, near[p], p, h.status[p])
    {
      assert Kept(t, near[p], p, h.status[p]);
    }
    forall a, p | a in u.boxes && p in u.boxes[a]
      ensures Owned(u, h.status, h.collected, near, a, p)
    {
      assert Owned(t, h.status, h.collected, near, a, p);
    }
  }

  lemma CollectedOk(t: Tree, status: map<Pid, int>, collected: set<Pid>, near: map<Pid, Pid>, a: Pid, child: Pid)
    requires TreeOk(t, status, collected, near) && a in t.boxes && child in t.boxes[a]
    ensures child in status && child !in collected && t.boxes[a][child] == status[child]
    ensures TreeOk(Collected(t, a, child), status, collected + {child}, near)
  {
    var u, more := Collected(t, a, child), collected + {child};
    assert Owned(t, status, collected, near, a, child) && Kept(t, near[child], child, status[child]);
    forall p | p in status && p !in more
      ensures Kept(u, near[p], p, status[p])
    {
      assert Kept(t, near[p], p, status[p]);
    }
    forall b, p | b in u.boxes && p in u.boxes[b]
      ensures Owned(u, status, more, near, b, p)
    {
      assert Owned(t, status, collected, near, b, p);
    }
  }

  lemma CollectedKeeps(t: Tree, h: History, a: Pid, child: Pid)
    requires TreeInv(t, h) && a in t.boxes && child in t.boxes[a]
    ensures child in h.status && child !in h.collected && t.boxes[a][child] == h.status[child]
    ensures TreeInv(Collected(t, a, child), h.(collected := h.collected + {child}))
  {
    hide TreeOk;
    CollectedOk(t, h.status, h.collected, Near(t.ppid.Keys, h), a, child);
    SameNear(t.ppid.Keys, h, h.(collected := h.collected + {child}));
  }

  lemma SameNear(alive: set<Pid>, h: History, g: History)
    requires h.Valid() && g.parent == h.parent && g.born == h.born
    requires g.collected <= g.status.Keys <= g.parent.Keys
    ensures g.Valid() && Near(alive, g) == Near(alive, h)
  {
    hide NearestLive;
    forall p | p in h.parent
      ensures NearestLive(alive, g, p) == NearestLive(alive, h, p)
    {
      SameLineAt(alive, h, g, p);
    }
  }

  lemma ShapedKeys(t: Tree, status: map<Pid, int>, near: map<Pid, Pid>)
    requires Shaped(t, status, near)
    ensures t.ppid.Keys <= t.boxes.Keys <= near.Keys
  {
  }

  lemma GrownShaped(t: Tree, status: map<Pid, int>, near: map<Pid, Pid>, n: Pid, ppid: Pid)
    requires Shaped(t, status, near) && n !in near && n !in status && n != 0
    requires ppid == 0 || (ppid in t.ppid && ppid != n)
    ensures Shaped(Grown(t, n, ppid), status, near[n := ppid])
  {
  }

  lemma GrownOk(t: Tree, status: map<Pid, int>, collected: set<Pid>, near: map<Pid, Pid>, n: Pid, ppid: Pid)
    requires TreeOk(t, status, collected, near) && n !in near && n !in status && n != 0
    requires ppid == 0 || (ppid in t.ppid && ppid != n)
    ensures TreeOk(Grown(t, n, ppid), status, collected, near[n := ppid])
  {
    hide Shaped;
    var u, more := Grown(t, n, ppid), near[n := ppid];
    GrownShaped(t, status, near, n, ppid);
    assert n !in t.boxes by { assert t.boxes.Keys <= near.Keys by { ShapedKeys(t, status, near); } }
    forall p | p in status && p !in collected
      ensures p in more && Kept(u, more[p], p, status[p])
    {
      assert Kept(t, near[p], p, status[p]);
    }
    forall a, p | a in u.boxes && p in u.boxes[a]
      ensures Owned(u, status, collected, more, a, p)
    {
      assert Owned(t, status, collected, near, a, p);
    }
  }

  lemma NewbornValid(h: History, n: Pid, ppid: Pid)
    requires h.Valid() && n !in h.parent && n != 0 && (ppid == 0 || ppid in h.parent)
    ensures Newborn(h, n, ppid).Valid()
  {
    assert |Newborn(h, n, ppid).parent| == |h.parent| + 1;
  }

  lemma GrownNear(alive: set<Pid>, h: History, n: Pid, ppid: Pid)
    requires h.Valid() && n !in h.parent && (ppid == 0 || (ppid in alive && ppid in h.parent))
    requires Newborn(h, n, ppid).Valid()
    ensures Near(alive + {n}, Newborn(h, n, ppid)) == Near(alive, h)[n := ppid]
  {
    hide Near, Newborn, NearestLive, History.Valid;
    var g := Newborn(h, n, ppid);
    NewbornShape(h, n, ppid);
    NearKeys(alive + {n}, g);
    NearKeys(alive, h);
    forall p | p in g.parent
      ensures Near(alive + {n}, g)[p] == Near(alive, h)[n := ppid][p]
    {
      NearAt(alive + {n}, g, p);
      if p == n {
        NewbornsNearest(alive + {n}, g, n);
      } else {
        NearAt(alive, h, p);
        BirthChangesNone(alive, h, n, ppid, p);
      }
    }
  }

  lemma NewbornShape(h: History, n: Pid, ppid: Pid)
    ensures Newborn(h, n, ppid).parent == h.parent[n := ppid]
  {
  }

  lemma NearAt(alive: set<Pid>, h: History, p: Pid)
    requires h.Valid() && p in h.parent
    ensures p in Near(alive, h) && Near(alive, h)[p] == NearestLive(alive, h, p)
  {
    hide NearestLive;
  }

  lemma GrownKeeps(t: Tree, h: History, n: Pid, ppid: Pid)
    requires TreeInv(t, h) && n !in h.parent && n != 0 && (ppid == 0 || ppid in t.ppid)
    ensures TreeInv(Grown(t, n, ppid), Newborn(h, n, ppid))
  {
    hide Near, TreeOk, History.Valid;
    var near := Near(t.ppid.Keys, h);
    NearKeys(t.ppid.Keys, h);
    InNear(t, h.status, h.collected, near);
    assert h.status.Keys <= h.parent.Keys by { StatusesKnown(h); }
    assert Grown(t, n, ppid).ppid.Keys == t.ppid.Keys + {n};
    NewbornValid(h, n, ppid);
    GrownNear(t.ppid.Keys, h, n, ppid);
    GrownOk(t, h.status, h.collected, near, n, ppid);
  }

  lemma StatusesKnown(h: History)
    requires h.Valid()
    ensures h.collected <= h.status.Keys <= h.parent.Keys
  {
  }

  lemma InNear(t: Tree, status: map<Pid, int>, collected: set<Pid>, near: map<Pid, Pid>)
    requires TreeOk(t, status, collected, near)
    ensures t.ppid.Keys <= near.Keys
  {
    hide Kept, Owned;
  }

  lemma NewbornsNearest(alive: set<Pid>, g: History, n: Pid)
    requires g.Valid() && n in g.parent && (g.parent[n] == 0 || g.parent[n] in alive)
    ensures NearestLive(alive, g, n) == g.parent[n]
  {
  }

  /** Those a dead context was nearest to move on to its own nearest. */
  function MovedUp(near: map<Pid, Pid>, d: Pid): (up: map<Pid, Pid>)
    requires d in near
    ensures up.Keys == near.Keys
  {
    map p | p in near :: if near[p] == d then near[d] else near[p]
  }

  lemma DiedNear(alive: set<Pid>, h: History, d: Pid)
    requires h.Valid() && d in alive && d in h.parent
    ensures Near(alive - {d}, h) == MovedUp(Near(alive, h), d)
  {
    hide NearestLive;
    forall p | p in h.parent
      ensures NearestLive(alive - {d}, h, p) ==
              if NearestLive(alive, h, p) == d then NearestLive(alive, h, d) else NearestLive(alive, h, p)
    {
      DeathMovesUp(alive, h, d, p);
    }
  }

  lemma ShapedKnows(t: Tree, status: map<Pid, int>, near: map<Pid, Pid>, d: Pid)
    requires Shaped(t, status, near) && d in t.ppid
    ensures d in near && d in t.boxes && d !in status
  {
  }

  lemma DiedParents(t: Tree, d: Pid, v: int)
    requires d in t.ppid && d in t.boxes
    ensures Died(t, d, v).boxes.Keys == t.boxes.Keys
    ensures forall x :: x in Died(t, d, v).ppid <==> x in t.ppid && x != d
    ensures forall x :: x in t.ppid && x != d ==>
              Died(t, d, v).ppid[x] == if t.ppid[x] == d then t.ppid[d] else t.ppid[x]
  {
  }

  lemma DiedShaped(t: Tree, status: map<Pid, int>, near: map<Pid, Pid>, d: Pid, v: int)
    requires Shaped(t, status, near) && d in t.ppid && near[d] != d
    ensures Shaped(Died(t, d, v), status[d := v], MovedUp(near, d))
  {
    hide Died;
    DiedParents(t, d, v);
  }

  lemma DiedOk(t: Tree, status: map<Pid, int>, collected: set<Pid>, near: map<Pid, Pid>, d: Pid, v: int)
    requires TreeOk(t, status, collected, near) && d in t.ppid && d !in collected && near[d] != d
    ensures TreeOk(Died(t, d, v), status[d := v], collected, MovedUp(near, d))
  {
    hide Shaped, Died, MovedUp, Kept, Owned;
    assert d in near && d in t.boxes by { ShapedKnows(t, status, near, d); }
    var u, more, up := Died(t, d, v), status[d := v], MovedUp(near, d);
    DiedShaped(t, status, near, d, v);
    forall p | p in more && p !in collected
      ensures p in up && Kept(u, up[p], p, more[p])
    {
      DiedKept(t, status, collected, near, d, v, p);
    }
    forall a, p | a in u.boxes && p in u.boxes[a]
      ensures Owned(u, more, collected, up, a, p)
    {
      DiedOwned(t, status, collected, near, d, v, a, p);
    }
  }

  lemma DiedKept(t: Tree, status: map<Pid, int>, collected: set<Pid>, near: map<Pid, Pid>, d: Pid, v: int, p: Pid)
    requires TreeOk(t, status, collected, near) && d in t.ppid && d !in collected && near[d] != d
    requires p == d || (p in status && p !in collected)
    ensures p in near && Kept(Died(t, d, v), MovedUp(near, d)[p], p, status[d := v][p])
  {
    if p != d {
      assert Kept(t, near[p], p, status[p]);
    }
    if p in t.boxes[d] {
      assert Owned(t, status, collected, near, d, p);
      assert Kept(t, near[p], p, status[p]);
    }
  }

  lemma DiedOwned(t: Tree, status: map<Pid, int>, collected: set<Pid>, near: map<Pid, Pid>,
                  d: Pid, v: int, a: Pid, p: Pid)
    requires TreeOk(t, status, collected, near) && d in t.ppid && d !in collected && near[d] != d
    requires a in Died(t, d, v).boxes && p in Died(t, d, v).boxes[a]
    ensures Owned(Died(t, d, v), status[d := v], collected, MovedUp(near, d), a, p)
  {
    if p in t.boxes[d] {
      assert Owned(t, status, collected, near, d, p);
    }
    if p in t.boxes[a] {
      assert Owned(t, status, collected, near, a, p);
    }
  }

  lemma DiedKeeps(t: Tree, h: History, d: Pid, v: int)
    requires TreeInv(t, h) && d in t.ppid
    ensures TreeInv(Died(t, d, v), h.(status := h.status[d := v]))
  {
    hide Near, Kept, Owned;
    var g := h.(status := h.status[d := v]);
    var near := Near(t.ppid.Keys, h);
    assert d in near && near.Keys == h.parent.Keys && near[d] != d by { NearKeys(t.ppid.Keys, h); }
    assert d !in h.collected;
    assert Died(t, d, v).ppid.Keys == t.ppid.Keys - {d};
    DiedNear(t.ppid.Keys, h, d);
    SameNear(t.ppid.Keys - {d}, h, g);
    DiedOk(t, h.status, h.collected, near, d, v) by { hide TreeOk; }
  }

  lemma NearKeys(alive: set<Pid>, h: History)
    requires h.Valid()
    ensures Near(alive, h).Keys == h.parent.Keys && forall p :: p in h.parent ==> Near(alive, h)[p] != p
  {
    hide NearestLive;
  }

  // ---------------------------------------------------------------- what the kernel's steps do to the tree

  lemma WokenPrunes(k: State, r: State)
    requires OnlyWoken(k.Ctx(), r.Ctx()) && forall p :: p in k.Ctx() && !k.Ctx()[p].exited ==> p in r.Ctx()
    ensures Pruned(Project(k), Project(r))
  {
    assert forall p :: p in r.Ctx() ==> AtMostWoken(k.Ctx()[p], r.Ctx()[p]);
  }

  lemma OwnBoxPrunes(k: State, p: Pid, c: Context, r: State)
    requires p in k.Ctx() && r.Ctx() == k.Ctx()[p := c]
    requires c.ppid == k.Ctx()[p].ppid && c.exited == k.Ctx()[p].exited && c.statuses.inner == k.Ctx()[p].statuses.inner
    ensures Pruned(Project(k), Project(r))
  {
  }

  lemma PrunedTrans(t: Tree, u: Tree, v: Tree)
    requires Pruned(t, u) && Pruned(u, v)
    ensures Pruned(t, v)
  {
  }

  lemma SwitchPrunes(k: State)
    requires k.sched.Ok()
    ensures Pruned(Project(k), Project(Switched(k)))
  {
    hide SearchOn, AtMostWoken, NoDup, OnlyWoken, Pruned, Project;
    SearchStops(k.sched, k.sched.i + 1, k.now) by { assert Searchable(k.sched); }
    var r := k.(sched := SearchOn(k.sched, k.sched.i + 1, k.now));
    WokenPrunes(k, r);
    var p := r.sched.inner[r.sched.i];
    OwnBoxPrunes(r, p, r.Ctx()[p].(switches := r.Ctx()[p].switches + 1), r.(sched := Counted(r.sched)));
    PrunedTrans(Project(k), Project(r), Project(r.(sched := Counted(r.sched))));
  }

  lemma ReleasedPrunes(k: State, p: Pid)
    requires p in k.Ctx()
    ensures Pruned(Project(k), Project(Released(k, p)))
  {
    hide Pruned, Project;
    var v := k.Ctx()[p].vfork;
    var k1 := k.With(p, k.Ctx()[p].(vfork := None));
    OwnBoxPrunes(k, p, k.Ctx()[p].(vfork := None), k1);
    if v.Some? && v.value in k1.Ctx() {
      OwnBoxPrunes(k1, v.value, k1.Ctx()[v.value].(blocked := false, pending := Ready), Released(k, p));
    } else {
      SameBoxesPrune(k1, Released(k, p));
    }
    PrunedTrans(Project(k), Project(k1), Project(Released(k, p)));
  }

  lemma SameBoxesPrune(k: State, r: State)
    requires r.Ctx() == k.Ctx()
    ensures Pruned(Project(k), Project(r))
  {
  }

  lemma CreatedGrows(k: State, ppid: Pid, vfork: bool)
    requires k.sched.i < |k.sched.inner| && k.Cur() in k.Ctx()
    ensures Project(Created(k, ppid, vfork)) == Grown(Project(k), FreePid(k.Ctx(), k.nextPid), ppid)
  {
    hide Created, FreePid;
    CreatedBoxes(k, ppid, vfork);
    var n, r, u := FreePid(k.Ctx(), k.nextPid), Project(Created(k, ppid, vfork)), Project(k);
    assert r.ppid == u.ppid[n := ppid];
    assert r.boxes == u.boxes[n := map[]];
  }

  lemma WaitCollects(k: State, child: Pid)
    requires k.sched.i < |k.sched.inner| && k.Cur() in k.Ctx() && WaitPid(k, child).1.Some?
    ensures Project(WaitPid(k, child).0) == Collected(Project(k), k.Cur(), child)
    ensures k.Cur() in Project(k).boxes && child in Project(k).boxes[k.Cur()]
    ensures WaitPid(k, child).1 == Some(Project(k).boxes[k.Cur()][child])
  {
  }

  lemma ExitDies(k: State, status: int)
    requires k.sched.i < |k.sched.inner| && k.Cur() in k.Ctx() && !k.Ctx()[k.Cur()].exited
    ensures Project(ExitOn(k, status)) == Died(Project(k), k.Cur(), status)
  {
    hide ExitOn;
    ExitShape(k, status);
    forall x | x in k.Ctx()
      ensures var p, c, d := k.Cur(), k.Ctx()[x], ExitOn(k, status).Ctx()[x];
              var ppid, gift := k.Ctx()[p].ppid, map[p := status] + k.Ctx()[p].statuses.inner;
              && d.exited == (c.exited || x == p)
              && d.ppid == (if c.ppid == p then ppid else c.ppid)
              && d.statuses.inner == (if x == p then map[] else c.statuses.inner) + (if x == ppid then gift else map[])
    {
      ExitTree(k, status, x);
    }
  }

  /** What exit leaves of each context, as far as the tree goes. */
  lemma ExitTree(k: State, status: int, x: Pid)
    requires k.sched.i < |k.sched.inner| && k.Cur() in k.Ctx() && x in k.Ctx()
    ensures x in ExitOn(k, status).Ctx()
    ensures var p, c, d := k.Cur(), k.Ctx()[x], ExitOn(k, status).Ctx()[x];
            var ppid, gift := k.Ctx()[p].ppid, map[p := status] + k.Ctx()[p].statuses.inner;
            && d.exited == (c.exited || x == p)
            && d.ppid == (if c.ppid == p then ppid else c.ppid)
            && d.statuses.inner == (if x == p then map[] else c.statuses.inner) + (if x == ppid then gift else map[])
  {
    hide ExitBoxes, AfterExit;
    var p := k.Cur();
    ExitedBox(k.Ctx(), p, status);
    AfterExitKeeps(x, k.Ctx()[x], p, k.Ctx()[p].ppid, map[p := status] + k.Ctx()[p].statuses.inner);
  }

  // ---------------------------------------------------------------- whole runs

  /** How the history grows with a step. */
  ghost function Advance(h: History, k: State, op: Op): History
    requires CanDo(k, op)
  {
    match op
    case Exit(status) => h.(status := h.status[k.Cur() := status])
    case Wait(child) => if WaitPid(k, child).1.Some? then h.(collected := h.collected + {child}) else h
    case Spawn => Newborn(h, FreePid(k.Ctx(), k.nextPid), 0)
    case Clone(_) => Newborn(h, FreePid(k.Ctx(), k.nextPid), k.Cur())
    case _ => h
  }

  /** A creation takes a pid that was never used. */
  predicate PidsFresh(k: State, h: History, op: Op) {
    op.Spawn? || op.Clone? ==> FreePid(k.Ctx(), k.nextPid) !in h.parent
  }

  lemma OtherStepsPrune(k: State, op: Op)
    requires Inv(k) && CanDo(k, op)
    requires !op.Exit? && !op.Spawn? && !op.Clone? && (op.Wait? ==> WaitPid(k, op.child).1.None?)
    ensures Pruned(Project(k), Project(Prepared(k, op).0))
  {
    hide Consistent, UnblockAll, Pruned, Project, OnlyWoken, NoDup, Sched.Ok;
    var p, r := k.Cur(), Prepared(k, op).0;
    match op
    case Tick(_) => SameBoxesPrune(k, r);
    case SendToQueue(q, v) => SendQueueConsistent(k, q, v); WokenPrunes(k, r);
    case SendToMap(m, key, v) => SendMapConsistent(k, m, key, v); WokenPrunes(k, r);
    case Yield => SameBoxesPrune(k, r);
    case Loaded(x) => ReleasedPrunes(k, x);
    case Sleep(_) => OwnBoxPrunes(k, p, r.Ctx()[p], r);
    case Receive(_) => OwnBoxPrunes(k, p, r.Ctx()[p], r);
    case ReceiveAll(_) => OwnBoxPrunes(k, p, r.Ctx()[p], r);
    case ReceiveKey(_, _) => OwnBoxPrunes(k, p, r.Ctx()[p], r);
    case Wait(_) => OwnBoxPrunes(k, p, r.Ctx()[p], r);
    case Exit(_) =>
    case Spawn =>
    case Clone(_) =>
  }

  lemma PreparedTree(k: State, h: History, op: Op)
    requires Inv(k) && TreeInv(Project(k), h) && CanDo(k, op) && PidsFresh(k, h, op)
    ensures TreeInv(Project(Prepared(k, op).0), Advance(h, k, op))
  {
    hide TreeInv, Consistent, NoDup, FreePid, Project, WaitPid, Created, ExitOn;
    match op
    case Exit(status) =>
      LivesInTree(k, k.Cur());
      ExitDies(k, status);
      DiedKeeps(Project(k), h, k.Cur(), status);
    case Spawn =>
      CreatedGrows(k, 0, false);
      NextPositive(k);
      GrownKeeps(Project(k), h, FreePid(k.Ctx(), k.nextPid), 0);
    case Clone(vfork) =>
      LivesInTree(k, k.Cur());
      CreatedGrows(k, k.Cur(), vfork);
      NextPositive(k);
      GrownKeeps(Project(k), h, FreePid(k.Ctx(), k.nextPid), k.Cur());
    case Wait(child) =>
      if WaitPid(k, child).1.Some? {
        WaitCollects(k, child);
        CollectedKeeps(Project(k), h, k.Cur(), child);
      } else {
        OtherStepsPrune(k, op);
        PrunedKeeps(Project(k), Project(Prepared(k, op).0), h);
      }
    case _ =>
      OtherStepsPrune(k, op);
      PrunedKeeps(Project(k), Project(Prepared(k, op).0), h);
  }

  lemma LivesInTree(k: State, p: Pid)
    ensures p in Project(k).ppid <==> p in k.Ctx() && !k.Ctx()[p].exited
    ensures p in k.Ctx() ==> p in Project(k).boxes
  {
  }

  /** Every step keeps the tree, and a wait that returns gives the status its child passed to exit. */
  lemma StepTree(k: State, h: History, op: Op)
    requires Inv(k) && TreeInv(Project(k), h) && CanDo(k, op) && PidsFresh(k, h, op)
    ensures Inv(Next(k, op)) && TreeInv(Project(Next(k, op)), Advance(h, k, op))
    ensures op.Wait? && WaitPid(k, op.child).1.Some? ==>
              op.child in h.status && op.child !in h.collected && WaitPid(k, op.child).1 == Some(h.status[op.child])
  {
    hide TreeInv, Consistent, Prepared, Switched, Advance, PidsFresh, NoDup, Pruned, Project, WaitPid;
    StepInv(k, op);
    PreparedKeeps(k, op);
    PreparedTree(k, h, op);
    var (r, switch) := Prepared(k, op);
    if switch {
      SwitchPrunes(r);
      PrunedKeeps(Project(r), Project(Switched(r)), Advance(h, k, op));
    }
    if op.Wait? && WaitPid(k, op.child).1.Some? {
      WaitCollects(k, op.child);
      CollectedKeeps(Project(k), h, k.Cur(), op.child);
    }
  }

  ghost predicate IsTreeRun(states: seq<State>, histories: seq<History>, ops: seq<Op>) {
    && |states| == |histories| == |ops| + 1
    && forall j :: 0 <= j < |ops| ==>
         && CanDo(states[j], ops[j]) && PidsFresh(states[j], histories[j], ops[j])
         && states[j + 1] == Next(states[j], ops[j])
         && histories[j + 1] == Advance(histories[j], states[j], ops[j])
  }

  lemma {:induction false} RunTree(states: seq<State>, histories: seq<History>, ops: seq<Op>)
    requires IsTreeRun(states, histories, ops) && Inv(states[0]) && TreeInv(Project(states[0]), histories[0])
    ensures Inv(states[|ops|]) && TreeInv(Project(states[|ops|]), histories[|ops|])
    decreases |ops|
  {
    hide Inv, TreeInv, Next, CanDo, Advance, PidsFresh, Project;
    if ops != [] {
      var n := |ops| - 1;
      RunTree(states[..n + 1], histories[..n + 1], ops[..n]);
      assert states[..n + 1][n] == states[n] && histories[..n + 1][n] == histories[n];
      StepTree(states[n], histories[n], ops[n]);
    }
  }

  lemma BootTree(queues: nat, maps: nat)
    ensures TreeInv(Project(Boot(queues, maps)), History(map[1 := 0], map[1 := 0], map[], {}))
  {
  }

  /** In a reachable state an uncollected status of a context with a live ancestor is in exactly one
      mailbox, its nearest live ancestor's, with the value passed to exit. */
  lemma StatusInOneMailbox(k: State, h: History, p: Pid, a: Pid)
    requires TreeInv(Project(k), h) && p in h.status && p !in h.collected && a in k.Ctx()
    requires NearestLive(Project(k).ppid.Keys, h, p) != 0
    ensures p in k.Ctx()[a].statuses.inner <==> a == NearestLive(Project(k).ppid.Keys, h, p)
    ensures p in k.Ctx()[a].statuses.inner ==> k.Ctx()[a].statuses.inner[p] == h.status[p]
  {
    hide NearestLive;
    var t := Project(k);
    var near := Near(t.ppid.Keys, h);
    assert Kept(t, near[p], p, h.status[p]);
    assert t.boxes[a] == k.Ctx()[a].statuses.inner;
    if p in t.boxes[a] {
      assert Owned(t, h.status, h.collected, near, a, p);
    }
  }

  /** Every live context's pid is positive and its parent is 0 or another live context. */
  lemma ParentsLive(k: State, h: History, p: Pid)
    requires Inv(k) && TreeInv(Project(k), h) && p in Project(k).ppid
    ensures p > 0 && k.Ctx()[p].ppid != p
    ensures k.Ctx()[p].ppid == 0 || k.Ctx()[p].ppid in Project(k).ppid
  {
    hide NearestLive;
    assert ContextOk(k, p);
    assert Project(k).ppid[p] == k.Ctx()[p].ppid;
  }
}
