/** Blocking and waking over whole runs of the kernel (kernel/sync/wait_condition.rs, wait_queue.rs,
    wait_map.rs, kernel/syscall/process.rs, time.rs, execute.rs).

    A step is what a context does between two context switches.  A receive that finds nothing puts
    the context on the waiter list, blocks it and switches; when it runs again it retries. */
module Kernel {
  import opened Common
  import opened Scheduler

  /** A queue with its history: everything ever sent and received. */
  datatype Queue = Queue(inner: seq<int>, waiters: seq<Pid>, sent: seq<int>, received: seq<int>)

  datatype State = State(sched: Sched, nextPid: Pid, now: int, queues: seq<Queue>, maps: seq<Mailbox>)
  {
    function Ctx(): map<Pid, Context> { sched.ctx }

    function Cur(): Pid
      requires sched.i < |sched.inner|
    {
      sched.inner[sched.i]
    }

    function WithCtx(ctx: map<Pid, Context>): State { this.(sched := sched.(ctx := ctx)) }

    function With(p: Pid, c: Context): State { WithCtx(Ctx()[p := c]) }
  }

  // ---------------------------------------------------------------- what every reachable state satisfies

  /** Something will unblock the context: it is on the list its retry loop waits on, asleep with a
      time to wake, or lending its memory to a child that still has to give it back. */
  predicate HasCause(k: State, p: Pid)
    requires p in k.Ctx()
  {
    match k.Ctx()[p].pending
    case OnQueue(q) => q < |k.queues| && p in k.queues[q].waiters
    case OnMap(m, _) => m < |k.maps| && p in k.maps[m].waiters
    case OnStatus(_) => p in k.Ctx()[p].statuses.waiters
    case Vforked(d) => d in k.Ctx() && k.Ctx()[d].vfork == Some(p)
    case Sleeping => k.Ctx()[p].wake.Some?
    case Ready => false
  }

  ghost predicate ContextOk(k: State, p: Pid)
    requires p in k.Ctx()
  {
    var c := k.Ctx()[p];
    && p > 0
    && !(c.exited && c.blocked)
    && (c.blocked ==> HasCause(k, p))
    && (c.wake.Some? ==> c.blocked && c.pending == Sleeping)
    && (c.vfork.Some? ==> var v := c.vfork.value;
          v in k.Ctx() && k.Ctx()[v].blocked && k.Ctx()[v].pending == Vforked(p))
    && (forall w :: w in c.statuses.waiters ==>
          w == p && c.blocked && c.pending.OnStatus? && c.pending.child !in c.statuses.inner)
  }

  /** No lost wakeup on a queue: a listed waiter is a blocked context still in the manager, and it
      waits on an empty queue.  What was received is a prefix of what was sent. */
  ghost predicate QueueOk(k: State, q: nat)
    requires q < |k.queues|
  {
    var w := k.queues[q];
    && (w.waiters != [] ==> w.inner == [])
    && (forall p :: p in w.waiters ==>
          p in k.Ctx() && k.Ctx()[p].blocked && !k.Ctx()[p].exited && k.Ctx()[p].pending == OnQueue(q))
    && w.sent == w.received + w.inner
  }

  /** No lost wakeup on a map: the key a listed waiter awaits is absent. */
  ghost predicate MapOk(k: State, m: nat)
    requires m < |k.maps|
  {
    forall p :: p in k.maps[m].waiters ==>
      && p in k.Ctx() && k.Ctx()[p].blocked && !k.Ctx()[p].exited
      && k.Ctx()[p].pending.OnMap? && k.Ctx()[p].pending.index == m
      && k.Ctx()[p].pending.key !in k.maps[m].inner
  }

  ghost predicate Consistent(k: State) {
    && k.nextPid > 0
    && (forall p :: p in k.Ctx() ==> ContextOk(k, p))
    && (forall q :: 0 <= q < |k.queues| ==> QueueOk(k, q))
    && (forall m :: 0 <= m < |k.maps| ==> MapOk(k, m))
  }

  /** The invariant between steps: consistent, and the current context can run. */
  ghost predicate Inv(k: State) {
    k.sched.Ok() && k.sched.Runnable(k.Cur()) && Consistent(k)
  }

  lemma NobodyIn(ps: seq<Pid>)
    ensures (forall w :: w !in ps) ==> ps == []
  {
    if ps != [] {
      assert ps[0] in ps;
    }
  }

  // ---------------------------------------------------------------- the switch keeps it

  lemma ReapConsistent(k: State, j: nat)
    requires Searchable(k.sched) && Consistent(k) && j < |k.sched.inner| && k.Ctx()[k.sched.inner[j]].exited
    ensures Consistent(k.(sched := Reap(k.sched, j)))
  {
    hide NoDup;
    var p := k.sched.inner[j];
    var r := k.(sched := Reap(k.sched, j));
    assert ContextOk(k, p);
    NobodyIn(k.Ctx()[p].statuses.waiters);
    assert r.Ctx() == Release(k.Ctx() - {p}, k.Ctx()[p].vfork);
    forall x | x in r.Ctx()
      ensures ContextOk(r, x)
    {
      assert ContextOk(k, x);
    }
    forall q | 0 <= q < |r.queues|
      ensures QueueOk(r, q)
    {
      assert QueueOk(k, q);
    }
    forall m | 0 <= m < |r.maps|
      ensures MapOk(r, m)
    {
      assert MapOk(k, m);
    }
  }

  lemma WakeUpConsistent(k: State, p: Pid)
    requires Consistent(k) && p in k.Ctx() && k.Ctx()[p].wake.Some?
    ensures Consistent(k.WithCtx(WakeUp(k.Ctx(), p)))
  {
    var r := k.WithCtx(WakeUp(k.Ctx(), p));
    assert ContextOk(k, p);
    forall x | x in r.Ctx()
      ensures ContextOk(r, x)
    {
      assert ContextOk(k, x);
    }
    forall q | 0 <= q < |r.queues|
      ensures QueueOk(r, q)
    {
      assert QueueOk(k, q);
    }
    forall m | 0 <= m < |r.maps|
      ensures MapOk(r, m)
    {
      assert MapOk(k, m);
    }
  }

  lemma {:induction false} SearchConsistent(k: State, j: nat)
    requires Searchable(k.sched) && Consistent(k) && 0 < j <= |k.sched.inner|
    ensures Consistent(k.(sched := SearchOn(k.sched, j, k.now)))
    decreases |k.sched.inner| - j
  {
    if j == |k.sched.inner| {
      CursorConsistent(k, 0);
    } else {
      hide Consistent, Reap, WakeUp;
      var p := k.sched.inner[j];
      if k.Ctx()[p].exited {
        ReapSearchable(k.sched, j);
        ReapConsistent(k, j);
        SearchConsistent(k.(sched := Reap(k.sched, j)), j);
      } else if !k.Ctx()[p].blocked {
        CursorConsistent(k, j);
      } else if k.Ctx()[p].wake.Some? && k.Ctx()[p].wake.value <= k.now {
        WakeUpConsistent(k, p);
        CursorConsistent(k.WithCtx(WakeUp(k.Ctx(), p)), j);
      } else {
        SearchConsistent(k, j + 1);
      }
    }
  }

  lemma CursorConsistent(k: State, j: nat)
    requires Consistent(k)
    ensures Consistent(k.(sched := k.sched.(i := j)))
  {
    SameBoxesConsistent(k, k.(sched := k.sched.(i := j)));
  }

  /** Consistency looks at the boxes and the wait objects, not at the list, the cursor, the clock or the counts. */
  lemma SameBoxesConsistent(k: State, r: State)
    requires Consistent(k) && r.Ctx() == k.Ctx() && r.queues == k.queues && r.maps == k.maps && r.nextPid > 0
    ensures Consistent(r)
  {
    forall x | x in r.Ctx()
      ensures ContextOk(r, x)
    {
      assert ContextOk(k, x);
    }
    forall q | 0 <= q < |r.queues|
      ensures QueueOk(r, q)
    {
      assert QueueOk(k, q);
    }
    forall m | 0 <= m < |r.maps|
      ensures MapOk(r, m)
    {
      assert MapOk(k, m);
    }
  }

  lemma CountedConsistent(k: State)
    requires Consistent(k) && k.sched.i < |k.sched.inner| && k.Cur() in k.Ctx()
    ensures Consistent(k.(sched := Counted(k.sched)))
  {
    var r := k.(sched := Counted(k.sched));
    forall x | x in r.Ctx()
      ensures ContextOk(r, x)
    {
      assert ContextOk(k, x);
    }
    forall q | 0 <= q < |r.queues|
      ensures QueueOk(r, q)
    {
      assert QueueOk(k, q);
    }
    forall m | 0 <= m < |r.maps|
      ensures MapOk(r, m)
    {
      assert MapOk(k, m);
    }
  }

  ghost function Switched(k: State): State
    requires k.sched.Ok()
  {
    k.(sched := SwitchOn(k.sched, k.now))
  }

  /** A switch leads from any consistent state to one in which the current context can run. */
  lemma SwitchInv(k: State)
    requires k.sched.Ok() && Consistent(k)
    ensures Inv(Switched(k))
  {
    hide Consistent, SearchOn, NoDup;
    SwitchKeeps(k.sched, k.now);
    SearchStops(k.sched, k.sched.i + 1, k.now) by { assert Searchable(k.sched); }
    SearchConsistent(k, k.sched.i + 1) by { assert Searchable(k.sched); }
    var r := k.(sched := SearchOn(k.sched, k.sched.i + 1, k.now));
    if r.sched.i != k.sched.i {
      CountedConsistent(r);
    }
  }

  // ---------------------------------------------------------------- the steps

  function Blocked(k: State, pending: Pending): State
    requires k.sched.i < |k.sched.inner| && k.Cur() in k.Ctx()
  {
    k.With(k.Cur(), k.Ctx()[k.Cur()].(blocked := true, pending := pending))
  }

  function Asleep(k: State, until: int): State
    requires k.sched.i < |k.sched.inner| && k.Cur() in k.Ctx()
  {
    k.With(k.Cur(), k.Ctx()[k.Cur()].(blocked := true, wake := Some(until), pending := Sleeping))
  }

  function Returned(k: State): State
    requires k.sched.i < |k.sched.inner| && k.Cur() in k.Ctx()
  {
    k.With(k.Cur(), k.Ctx()[k.Cur()].(pending := Ready))
  }

  function SendQueue(k: State, q: nat, v: int): State
    requires q < |k.queues|
  {
    var w := k.queues[q];
    k.(queues := k.queues[q := Queue(w.inner + [v], [], w.sent + [v], w.received)])
     .WithCtx(UnblockAll(k.Ctx(), w.waiters))
  }

  /** One turn of `receive`'s retry loop, up to the switch if it finds nothing. */
  function ReceiveQueue(k: State, q: nat): (State, Option<int>)
    requires q < |k.queues| && k.sched.i < |k.sched.inner| && k.Cur() in k.Ctx()
  {
    var w := k.queues[q];
    if w.inner != [] then
      (Returned(k.(queues := k.queues[q := w.(inner := w.inner[1..], received := w.received + [w.inner[0]])])),
       Some(w.inner[0]))
    else
      (Blocked(k.(queues := k.queues[q := w.(waiters := w.waiters + [k.Cur()])]), OnQueue(q)), None)
  }

  function ReceiveAllQueue(k: State, q: nat): (State, Option<seq<int>>)
    requires q < |k.queues| && k.sched.i < |k.sched.inner| && k.Cur() in k.Ctx()
  {
    var w := k.queues[q];
    if w.inner != [] then
      (Returned(k.(queues := k.queues[q := w.(inner := [], received := w.received + w.inner)])), Some(w.inner))
    else
      (Blocked(k.(queues := k.queues[q := w.(waiters := w.waiters + [k.Cur()])]), OnQueue(q)), None)
  }

  function SendMap(k: State, m: nat, key: nat, v: int): State
    requires m < |k.maps|
  {
    var w := k.maps[m];
    k.(maps := k.maps[m := Mailbox(w.inner[key := v], [])]).WithCtx(UnblockAll(k.Ctx(), w.waiters))
  }

  function ReceiveMap(k: State, m: nat, key: nat): (State, Option<int>)
    requires m < |k.maps| && k.sched.i < |k.sched.inner| && k.Cur() in k.Ctx()
  {
    var w := k.maps[m];
    if key in w.inner then
      (Returned(k.(maps := k.maps[m := w.(inner := w.inner - {key})])), Some(w.inner[key]))
    else
      (Blocked(k.(maps := k.maps[m := w.(waiters := w.waiters + [k.Cur()])]), OnMap(m, key)), None)
  }

  /** `waitpid` for a positive pid: the current context's own mailbox of exit statuses. */
  function WaitPid(k: State, child: Pid): (State, Option<int>)
    requires k.sched.i < |k.sched.inner| && k.Cur() in k.Ctx()
  {
    var c := k.Ctx()[k.Cur()];
    var w := c.statuses;
    if child in w.inner then
      (k.With(k.Cur(), c.(statuses := w.(inner := w.inner - {child}), pending := Ready)), Some(w.inner[child]))
    else
      (k.With(k.Cur(), c.(statuses := w.(waiters := w.waiters + [k.Cur()]), blocked := true,
                          pending := OnStatus(child))), None)
  }

  /** What `exit` of `p` does to one context: the parent collects, the children move up. */
  function AfterExit(x: Pid, c: Context, p: Pid, ppid: Pid, gift: map<nat, int>): Context {
    var c0 := if x == p then c.(exited := true, statuses := c.statuses.(inner := map[])) else c;
    var c1 := if x == ppid then c0.(statuses := Mailbox(c0.statuses.inner + gift, [])) else c0;
    if c1.ppid == p then c1.(ppid := ppid) else c1
  }

  function ExitBoxes(ctx: map<Pid, Context>, p: Pid, status: int): map<Pid, Context>
    requires p in ctx
  {
    var ppid, gift := ctx[p].ppid, map[p := status] + ctx[p].statuses.inner;
    UnblockAll(map x | x in ctx :: AfterExit(x, ctx[x], p, ppid, gift),
               if ppid in ctx then ctx[ppid].statuses.waiters else [])
  }

  function ExitOn(k: State, status: int): State
    requires k.sched.i < |k.sched.inner| && k.Cur() in k.Ctx()
  {
    k.WithCtx(ExitBoxes(k.Ctx(), k.Cur(), status))
  }

  /** The next free pid at or after `n`. */
  function FreePid(ctx: map<Pid, Context>, n: Pid): (f: Pid)
    ensures f >= n && f !in ctx
    decreases |(set p | p in ctx && p >= n)|
  {
    if n !in ctx then n
    else
      var above, below := (set p | p in ctx && p >= n), (set p | p in ctx && p >= n + 1);
      assert above == below + {n};
      FreePid(ctx, n + 1)
  }

  const PID_LIMIT := 65536

  function PidAfter(n: Pid): Pid {
    if n + 1 >= PID_LIMIT then 1 else n + 1
  }

  /** Push a new context; with `vfork` the current one lends its memory and blocks. */
  function Created(k: State, ppid: Pid, vfork: bool): State
    requires k.sched.i < |k.sched.inner| && k.Cur() in k.Ctx()
  {
    var n := FreePid(k.Ctx(), k.nextPid);
    var child := Context(ppid, false, false, None, if vfork then Some(k.Cur()) else None, 0,
                         Mailbox(map[], []), Ready);
    var k1 := if vfork then Blocked(k, Vforked(n)) else k;
    k1.(sched := k1.sched.(inner := k1.sched.inner + [n], ctx := k1.Ctx()[n := child]), nextPid := PidAfter(n))
  }

  /** A loaded program no longer needs its parent's memory. */
  function Released(k: State, p: Pid): State
    requires p in k.Ctx()
  {
    var v := k.Ctx()[p].vfork;
    var k1 := k.With(p, k.Ctx()[p].(vfork := None));
    k1.WithCtx(Release(k1.Ctx(), v))
  }

  // ---------------------------------------------------------------- every step keeps the invariant

  /** Sending wakes every waiter; their retry loops look again. */
  lemma SendQueueConsistent(k: State, q: nat, v: int)
    requires Consistent(k) && q < |k.queues|
    ensures Consistent(SendQueue(k, q, v)) && OnlyWoken(k.Ctx(), SendQueue(k, q, v).Ctx())
    ensures SendQueue(k, q, v).Ctx().Keys == k.Ctx().Keys
  {
    hide UnblockAll;
    var r := SendQueue(k, q, v);
    assert QueueOk(k, q);
    UnblockAllWakes(k.Ctx(), k.queues[q].waiters);
    forall x | x in r.Ctx()
      ensures ContextOk(r, x)
    {
      assert ContextOk(k, x);
    }
    forall j | 0 <= j < |r.queues|
      ensures QueueOk(r, j)
    {
      assert QueueOk(k, j);
    }
    forall m | 0 <= m < |r.maps|
      ensures MapOk(r, m)
    {
      assert MapOk(k, m);
    }
  }

  lemma SendMapConsistent(k: State, m: nat, key: nat, v: int)
    requires Consistent(k) && m < |k.maps|
    ensures Consistent(SendMap(k, m, key, v)) && OnlyWoken(k.Ctx(), SendMap(k, m, key, v).Ctx())
    ensures SendMap(k, m, key, v).Ctx().Keys == k.Ctx().Keys
  {
    hide UnblockAll;
    var r := SendMap(k, m, key, v);
    assert MapOk(k, m);
    UnblockAllWakes(k.Ctx(), k.maps[m].waiters);
    forall x | x in r.Ctx()
      ensures ContextOk(r, x)
    {
      assert ContextOk(k, x);
    }
    forall j | 0 <= j < |r.queues|
      ensures QueueOk(r, j)
    {
      assert QueueOk(k, j);
    }
    forall j | 0 <= j < |r.maps|
      ensures MapOk(r, j)
    {
      assert MapOk(k, j);
    }
  }

  /** The current context may go on, or retry what it was doing. */
  predicate Resumes(k: State, pending: Pending)
    requires k.sched.i < |k.sched.inner| && k.Cur() in k.Ctx()
  {
    var c := k.Ctx()[k.Cur()];
    !c.blocked && !c.exited && (c.pending == Ready || c.pending == pending)
  }

  /** A running context is on no list, not even its own, and lends nothing. */
  lemma RunningIsFree(k: State, p: Pid)
    requires Consistent(k) && p in k.Ctx() && !k.Ctx()[p].blocked
    ensures k.Ctx()[p].statuses.waiters == [] && k.Ctx()[p].wake.None?
    ensures forall q :: 0 <= q < |k.queues| ==> p !in k.queues[q].waiters
    ensures forall m :: 0 <= m < |k.maps| ==> p !in k.maps[m].waiters
    ensures forall x :: x in k.Ctx() ==> k.Ctx()[x].vfork != Some(p)
  {
    assert ContextOk(k, p);
    NobodyIn(k.Ctx()[p].statuses.waiters);
    forall q | 0 <= q < |k.queues|
      ensures p !in k.queues[q].waiters
    {
      assert QueueOk(k, q);
    }
    forall m | 0 <= m < |k.maps|
      ensures p !in k.maps[m].waiters
    {
      assert MapOk(k, m);
    }
    forall x | x in k.Ctx()
      ensures k.Ctx()[x].vfork != Some(p)
    {
      assert ContextOk(k, x);
    }
  }

  predicate JoinedAtMost(before: seq<Pid>, after: seq<Pid>, p: Pid) {
    after == before || after == before + [p]
  }

  /** `r` is `k` with the running context's box changed and wait lists that keep everyone else. */
  predicate OnlyChanges(k: State, r: State, p: Pid)
    requires p in k.Ctx()
  {
    && r.nextPid > 0 && |r.queues| == |k.queues| && |r.maps| == |k.maps|
    && p in r.Ctx() && r.Ctx()[p].vfork == k.Ctx()[p].vfork
    && r.Ctx() - {p} == k.Ctx() - {p}
    && (forall q :: 0 <= q < |k.queues| ==> JoinedAtMost(k.queues[q].waiters, r.queues[q].waiters, p))
    && (forall m :: 0 <= m < |k.maps| ==> JoinedAtMost(k.maps[m].waiters, r.maps[m].waiters, p))
  }

  lemma SameBox(k: State, r: State, p: Pid, x: Pid)
    requires p in k.Ctx() && OnlyChanges(k, r, p) && x != p
    ensures x in r.Ctx() <==> x in k.Ctx()
    ensures x in k.Ctx() ==> r.Ctx()[x] == k.Ctx()[x]
  {
    assert x in k.Ctx() <==> x in k.Ctx() - {p};
    assert x in r.Ctx() <==> x in r.Ctx() - {p};
    assert x in k.Ctx() ==> k.Ctx()[x] == (k.Ctx() - {p})[x];
    assert x in r.Ctx() ==> r.Ctx()[x] == (r.Ctx() - {p})[x];
  }

  lemma OtherContextOk(k: State, r: State, p: Pid, x: Pid)
    requires Consistent(k) && p in k.Ctx() && !k.Ctx()[p].blocked && OnlyChanges(k, r, p) && x != p && x in r.Ctx()
    ensures ContextOk(r, x)
  {
    RunningIsFree(k, p);
    SameBox(k, r, p, x);
    assert ContextOk(k, x);
    if k.Ctx()[x].vfork.Some? {
      SameBox(k, r, p, k.Ctx()[x].vfork.value);
    }
    if k.Ctx()[x].pending.Vforked? && k.Ctx()[x].pending.to != p {
      SameBox(k, r, p, k.Ctx()[x].pending.to);
    }
  }

  /** Everything but the running context's own box and the object it used stays as it should be. */
  lemma OthersOk(k: State, r: State, p: Pid)
    requires Consistent(k) && p in k.Ctx() && !k.Ctx()[p].blocked && OnlyChanges(k, r, p)
    ensures forall x :: x in r.Ctx() && x != p ==> ContextOk(r, x)
    ensures forall q :: 0 <= q < |r.queues| && r.queues[q] == k.queues[q] ==> QueueOk(r, q)
    ensures forall m :: 0 <= m < |r.maps| && r.maps[m] == k.maps[m] ==> MapOk(r, m)
  {
    hide OnlyChanges, ContextOk;
    RunningIsFree(k, p);
    forall x | x in r.Ctx() && x != p
      ensures ContextOk(r, x)
    {
      OtherContextOk(k, r, p, x);
    }
    assert |r.queues| == |k.queues| && |r.maps| == |k.maps| by { SameLengths(k, r, p); }
    forall q | 0 <= q < |r.queues| && r.queues[q] == k.queues[q]
      ensures QueueOk(r, q)
    {
      assert QueueOk(k, q);
      forall w | w in r.queues[q].waiters
        ensures w in r.Ctx() && r.Ctx()[w] == k.Ctx()[w]
      {
        SameBox(k, r, p, w);
      }
    }
    forall m | 0 <= m < |r.maps| && r.maps[m] == k.maps[m]
      ensures MapOk(r, m)
    {
      assert MapOk(k, m);
      forall w | w in r.maps[m].waiters
        ensures w in r.Ctx() && r.Ctx()[w] == k.Ctx()[w]
      {
        SameBox(k, r, p, w);
      }
    }
  }

  lemma SameLengths(k: State, r: State, p: Pid)
    requires p in k.Ctx() && OnlyChanges(k, r, p)
    ensures |r.queues| == |k.queues| && |r.maps| == |k.maps| && p in r.Ctx() && r.nextPid > 0
  {
  }

  /** The waiters of an object the running context joined, or left alone. */
  lemma WaitersKept(k: State, r: State, p: Pid, ws: seq<Pid>)
    requires p in k.Ctx() && OnlyChanges(k, r, p) && p !in ws
    ensures forall w :: w in ws ==> (w in r.Ctx() <==> w in k.Ctx()) && (w in k.Ctx() ==> r.Ctx()[w] == k.Ctx()[w])
  {
    forall w | w in ws
      ensures (w in r.Ctx() <==> w in k.Ctx()) && (w in k.Ctx() ==> r.Ctx()[w] == k.Ctx()[w])
    {
      SameBox(k, r, p, w);
    }
  }

  lemma ReceiveQueueConsistent(k: State, q: nat)
    requires Consistent(k) && q < |k.queues| && k.sched.i < |k.sched.inner| && k.Cur() in k.Ctx()
    requires Resumes(k, OnQueue(q))
    ensures Consistent(ReceiveQueue(k, q).0)
  {
    hide HasCause, MapOk, QueueOk, ContextOk, OnlyChanges, Resumes;
    var p, r := k.Cur(), ReceiveQueue(k, q).0;
    ReceiveQueueOwn(k, q);
    OthersOk(k, r, p);
  }

  /** The queue and the context that received from it. */
  lemma ReceiveQueueOwn(k: State, q: nat)
    requires Consistent(k) && q < |k.queues| && k.sched.i < |k.sched.inner| && k.Cur() in k.Ctx()
    requires Resumes(k, OnQueue(q))
    ensures var p, r := k.Cur(), ReceiveQueue(k, q).0;
            && !k.Ctx()[p].blocked && OnlyChanges(k, r, p) && |r.queues| == |k.queues| && |r.maps| == |k.maps|
            && p in r.Ctx() && r.nextPid > 0
            && QueueOk(r, q) && ContextOk(r, p)
            && (forall j :: 0 <= j < |k.queues| && j != q ==> r.queues[j] == k.queues[j]) && r.maps == k.maps
  {
    hide HasCause, MapOk;
    var p, r := k.Cur(), ReceiveQueue(k, q).0;
    assert QueueOk(k, q) && ContextOk(k, p);
    RunningIsFree(k, p);
    WaitersKept(k, r, p, k.queues[q].waiters);
    CauseIsList(r, p);
  }

  lemma ReceiveAllConsistent(k: State, q: nat)
    requires Consistent(k) && q < |k.queues| && k.sched.i < |k.sched.inner| && k.Cur() in k.Ctx()
    requires Resumes(k, OnQueue(q))
    ensures Consistent(ReceiveAllQueue(k, q).0)
  {
    hide HasCause, MapOk, QueueOk, ContextOk, OnlyChanges, Resumes;
    var p, r := k.Cur(), ReceiveAllQueue(k, q).0;
    ReceiveAllQueueOwn(k, q);
    OthersOk(k, r, p);
  }

  /** The queue and the context that received from it. */
  lemma ReceiveAllQueueOwn(k: State, q: nat)
    requires Consistent(k) && q < |k.queues| && k.sched.i < |k.sched.inner| && k.Cur() in k.Ctx()
    requires Resumes(k, OnQueue(q))
    ensures var p, r := k.Cur(), ReceiveAllQueue(k, q).0;
            && !k.Ctx()[p].blocked && OnlyChanges(k, r, p) && |r.queues| == |k.queues| && |r.maps| == |k.maps|
            && p in r.Ctx() && r.nextPid > 0
            && QueueOk(r, q) && ContextOk(r, p)
            && (forall j :: 0 <= j < |k.queues| && j != q ==> r.queues[j] == k.queues[j]) && r.maps == k.maps
  {
    hide HasCause, MapOk;
    var p, r := k.Cur(), ReceiveAllQueue(k, q).0;
    assert QueueOk(k, q) && ContextOk(k, p);
    RunningIsFree(k, p);
    WaitersKept(k, r, p, k.queues[q].waiters);
    CauseIsList(r, p);
  }

  lemma CauseIsList(r: State, p: Pid)
    requires p in r.Ctx()
    ensures r.Ctx()[p].pending.OnQueue? ==>
              HasCause(r, p)
                == (r.Ctx()[p].pending.queue < |r.queues| && p in r.queues[r.Ctx()[p].pending.queue].waiters)
    ensures r.Ctx()[p].pending.OnMap? ==>
              HasCause(r, p) == (r.Ctx()[p].pending.index < |r.maps| && p in r.maps[r.Ctx()[p].pending.index].waiters)
  {
  }

  lemma ReceiveMapConsistent(k: State, m: nat, key: nat)
    requires Consistent(k) && m < |k.maps| && k.sched.i < |k.sched.inner| && k.Cur() in k.Ctx()
    requires Resumes(k, OnMap(m, key))
    ensures Consistent(ReceiveMap(k, m, key).0)
  {
    hide HasCause, QueueOk;
    var p := k.Cur();
    var r := ReceiveMap(k, m, key).0;
    assert MapOk(k, m) && ContextOk(k, p);
    RunningIsFree(k, p);
    OthersOk(k, r, p);
    WaitersKept(k, r, p, k.maps[m].waiters);
    assert MapOk(r, m);
    assert ContextOk(r, p) by { CauseIsList(r, p); }
  }

  lemma WaitPidConsistent(k: State, child: Pid)
    requires Consistent(k) && k.sched.i < |k.sched.inner| && k.Cur() in k.Ctx()
    requires Resumes(k, OnStatus(child))
    ensures Consistent(WaitPid(k, child).0)
  {
    hide QueueOk, MapOk;
    var p := k.Cur();
    RunningIsFree(k, p);
    assert ContextOk(k, p);
    OthersOk(k, WaitPid(k, child).0, p);
  }

  lemma AsleepConsistent(k: State, until: int)
    requires Consistent(k) && k.sched.i < |k.sched.inner| && k.Cur() in k.Ctx() && Resumes(k, Ready)
    ensures Consistent(Asleep(k, until))
  {
    hide QueueOk, MapOk;
    var p := k.Cur();
    RunningIsFree(k, p);
    assert ContextOk(k, p);
    OthersOk(k, Asleep(k, until), p);
  }

  /** What an exit leaves of each context. */
  lemma ExitedBox(ctx: map<Pid, Context>, p: Pid, status: int)
    requires p in ctx
    ensures var ppid, gift := ctx[p].ppid, map[p := status] + ctx[p].statuses.inner;
            var out := ExitBoxes(ctx, p, status);
            && out.Keys == ctx.Keys
            && forall x :: x in ctx ==>
                 var c := AfterExit(x, ctx[x], p, ppid, gift);
                 out[x] == if ppid in ctx && x in ctx[ppid].statuses.waiters then c.(blocked := false) else c
  {
    var ppid, gift := ctx[p].ppid, map[p := status] + ctx[p].statuses.inner;
    UnblockAllWakes(map x | x in ctx :: AfterExit(x, ctx[x], p, ppid, gift),
                    if ppid in ctx then ctx[ppid].statuses.waiters else []);
  }

  lemma AfterExitKeeps(x: Pid, c: Context, p: Pid, ppid: Pid, gift: map<nat, int>)
    ensures var d := AfterExit(x, c, p, ppid, gift);
            && d.pending == c.pending && d.wake == c.wake && d.vfork == c.vfork && d.blocked == c.blocked
            && d.exited == (c.exited || x == p)
            && d.statuses.waiters == (if x == ppid then [] else c.statuses.waiters)
            && d.statuses.inner == (if x == p then map[] else c.statuses.inner) + (if x == ppid then gift else map[])
            && d.ppid == if c.ppid == p then ppid else c.ppid
  {
  }

  /** Exiting changes no one's reason to wait, except that the parent is woken by its mailbox. */
  lemma ExitKeepsWaits(k: State, status: int, x: Pid)
    requires Consistent(k) && k.sched.i < |k.sched.inner| && k.Cur() in k.Ctx() && Resumes(k, Ready) && x in k.Ctx()
    ensures x in ExitOn(k, status).Ctx()
    ensures var c, d := k.Ctx()[x], ExitOn(k, status).Ctx()[x];
            && d.pending == c.pending && d.wake == c.wake && d.vfork == c.vfork
            && (x != k.Cur() ==> d.exited == c.exited)
            && (d.blocked ==> c.blocked)
            && (c.blocked && !c.pending.OnStatus? ==> d.blocked)
            && (if d.blocked then d.statuses.waiters == c.statuses.waiters
                  && (c.pending.OnStatus? ==> d.statuses.inner == c.statuses.inner)
                else d.statuses.waiters == [])
  {
    hide ExitBoxes, QueueOk, MapOk, AfterExit;
    var p := k.Cur();
    var ppid := k.Ctx()[p].ppid;
    RunningIsFree(k, p);
    ExitedBox(k.Ctx(), p, status);
    AfterExitKeeps(x, k.Ctx()[x], p, ppid, map[p := status] + k.Ctx()[p].statuses.inner);
    assert ContextOk(k, x);
    NobodyIn(k.Ctx()[x].statuses.waiters);
    if ppid in k.Ctx() {
      assert ContextOk(k, ppid);
      if x == ppid && k.Ctx()[x].blocked && k.Ctx()[x].pending.OnStatus? {
        assert x in k.Ctx()[x].statuses.waiters;
      }
    }
  }

  lemma ExitContextOk(k: State, status: int, x: Pid)
    requires Consistent(k) && k.sched.i < |k.sched.inner| && k.Cur() in k.Ctx() && Resumes(k, Ready) && x in k.Ctx()
    ensures x in ExitOn(k, status).Ctx() && ContextOk(ExitOn(k, status), x)
  {
    hide ExitOn, QueueOk, MapOk;
    var r := ExitOn(k, status);
    assert r.queues == k.queues && r.maps == k.maps by { ExitShape(k, status); }
    RunningIsFree(k, k.Cur());
    assert ContextOk(k, x);
    ExitKeepsWaits(k, status, x);
    if k.Ctx()[x].vfork.Some? {
      ExitKeepsWaits(k, status, k.Ctx()[x].vfork.value);
    }
    if k.Ctx()[x].blocked && k.Ctx()[x].pending.Vforked? {
      ExitKeepsWaits(k, status, k.Ctx()[x].pending.to);
    }
  }

  lemma ExitShape(k: State, status: int)
    requires k.sched.i < |k.sched.inner| && k.Cur() in k.Ctx()
    ensures ExitOn(k, status) == k.WithCtx(ExitOn(k, status).Ctx()) && ExitOn(k, status).Ctx().Keys == k.Ctx().Keys
  {
    ExitedBox(k.Ctx(), k.Cur(), status);
  }

  lemma ExitConsistent(k: State, status: int)
    requires Consistent(k) && k.sched.i < |k.sched.inner| && k.Cur() in k.Ctx() && Resumes(k, Ready)
    ensures Consistent(ExitOn(k, status))
  {
    hide ExitOn, ContextOk;
    var r := ExitOn(k, status);
    ExitShape(k, status);
    RunningIsFree(k, k.Cur());
    forall x | x in r.Ctx()
      ensures ContextOk(r, x)
    {
      ExitContextOk(k, status, x);
    }
    forall q | 0 <= q < |r.queues|
      ensures QueueOk(r, q)
    {
      assert QueueOk(k, q);
      forall w | w in r.queues[q].waiters
        ensures r.Ctx()[w].blocked && !r.Ctx()[w].exited && r.Ctx()[w].pending == OnQueue(q)
      {
        ExitKeepsWaits(k, status, w);
      }
    }
    forall m | 0 <= m < |r.maps|
      ensures MapOk(r, m)
    {
      assert MapOk(k, m);
      forall w | w in r.maps[m].waiters
        ensures r.Ctx()[w].blocked && !r.Ctx()[w].exited && r.Ctx()[w].pending == k.Ctx()[w].pending
      {
        ExitKeepsWaits(k, status, w);
      }
    }
  }

  /** What creating a context leaves of the boxes. */
  lemma CreatedBoxes(k: State, ppid: Pid, vfork: bool)
    requires k.sched.i < |k.sched.inner| && k.Cur() in k.Ctx()
    ensures var r, n, p := Created(k, ppid, vfork), FreePid(k.Ctx(), k.nextPid), k.Cur();
            && n !in k.Ctx() && n >= k.nextPid
            && r.queues == k.queues && r.maps == k.maps && r.nextPid > 0 && r.now == k.now
            && r.sched.inner == k.sched.inner + [n] && r.sched.i == k.sched.i
            && r.Ctx().Keys == k.Ctx().Keys + {n}
            && r.Ctx()[n]
               == Context(ppid, false, false, None, if vfork then Some(p) else None, 0, Mailbox(map[], []), Ready)
            && r.Ctx()[p] == (if vfork then k.Ctx()[p].(blocked := true, pending := Vforked(n)) else k.Ctx()[p])
            && forall x :: x in k.Ctx() && x != p ==> r.Ctx()[x] == k.Ctx()[x]
  {
    hide FreePid;
  }

  lemma CreatedCause(k: State, ppid: Pid, vfork: bool, x: Pid)
    requires Consistent(k) && k.sched.i < |k.sched.inner| && k.Cur() in k.Ctx() && Resumes(k, Ready)
    requires x in k.Ctx() && Created(k, ppid, vfork).Ctx()[x].blocked
    ensures HasCause(Created(k, ppid, vfork), x)
  {
    hide FreePid, QueueOk, MapOk, Created;
    RunningIsFree(k, k.Cur());
    CreatedBoxes(k, ppid, vfork);
    assert ContextOk(k, x);
  }

  lemma CreatedContextOk(k: State, ppid: Pid, vfork: bool, x: Pid)
    requires Consistent(k) && k.sched.i < |k.sched.inner| && k.Cur() in k.Ctx() && Resumes(k, Ready)
    requires x in Created(k, ppid, vfork).Ctx()
    ensures ContextOk(Created(k, ppid, vfork), x)
  {
    hide FreePid, QueueOk, MapOk, Created, HasCause;
    RunningIsFree(k, k.Cur());
    CreatedBoxes(k, ppid, vfork);
    if x in k.Ctx() {
      assert ContextOk(k, x);
      if Created(k, ppid, vfork).Ctx()[x].blocked {
        CreatedCause(k, ppid, vfork, x);
      }
    }
  }

  lemma CreatedConsistent(k: State, ppid: Pid, vfork: bool)
    requires Consistent(k) && k.sched.i < |k.sched.inner| && k.Cur() in k.Ctx() && Resumes(k, Ready)
    ensures Consistent(Created(k, ppid, vfork))
  {
    hide FreePid, ContextOk, HasCause;
    var r := Created(k, ppid, vfork);
    RunningIsFree(k, k.Cur());
    forall x | x in r.Ctx()
      ensures ContextOk(r, x)
    {
      CreatedContextOk(k, ppid, vfork, x);
    }
    forall j | 0 <= j < |r.queues|
      ensures QueueOk(r, j)
    {
      assert QueueOk(k, j);
    }
    forall m | 0 <= m < |r.maps|
      ensures MapOk(r, m)
    {
      assert MapOk(k, m);
    }
  }

  lemma ReleasedContextOk(k: State, p: Pid, x: Pid)
    requires Consistent(k) && p in k.Ctx() && x in k.Ctx()
    ensures x in Released(k, p).Ctx() && ContextOk(Released(k, p), x)
  {
    hide QueueOk, MapOk;
    assert ContextOk(k, p) && ContextOk(k, x);
    if k.Ctx()[p].vfork.Some? {
      NobodyIn(k.Ctx()[k.Ctx()[p].vfork.value].statuses.waiters);
      assert ContextOk(k, k.Ctx()[p].vfork.value);
    }
  }

  lemma ReleasedConsistent(k: State, p: Pid)
    requires Consistent(k) && p in k.Ctx()
    ensures Consistent(Released(k, p))
  {
    hide HasCause;
    var r := Released(k, p);
    assert ContextOk(k, p);
    forall x | x in r.Ctx()
      ensures ContextOk(r, x)
    {
      ReleasedContextOk(k, p, x);
    }
    forall j | 0 <= j < |r.queues|
      ensures QueueOk(r, j)
    {
      assert QueueOk(k, j);
    }
    forall m | 0 <= m < |r.maps|
      ensures MapOk(r, m)
    {
      assert MapOk(k, m);
    }
  }

  // ---------------------------------------------------------------- whole runs

  datatype Op =
    | Tick(dt: nat)
    | SendToQueue(q: nat, v: int)
    | SendToMap(m: nat, key: nat, v: int)
    | Yield
    | Sleep(until: int)
    | Receive(q: nat)
    | ReceiveAll(q: nat)
    | ReceiveKey(m: nat, key: nat)
    | Wait(child: Pid)
    | Exit(status: int)
    | Spawn
    | Clone(vfork: bool)
    | Loaded(p: Pid)

  /** What may happen next.  Time passes and interrupts send at any moment; everything else is done
      by the current context, which first finishes a retry loop it is in; the idle context neither
      blocks nor exits. */
  predicate Enabled(k: State, op: Op)
    requires k.sched.i < |k.sched.inner| && k.Cur() in k.Ctx()
  {
    match op
    case Tick(_) => true
    case SendToQueue(q, _) => q < |k.queues|
    case SendToMap(m, _, _) => m < |k.maps|
    case Yield => Resumes(k, Ready)
    case Sleep(_) => k.sched.i != 0 && Resumes(k, Ready)
    case Receive(q) => k.sched.i != 0 && q < |k.queues| && Resumes(k, OnQueue(q))
    case ReceiveAll(q) => k.sched.i != 0 && q < |k.queues| && Resumes(k, OnQueue(q))
    case ReceiveKey(m, key) => k.sched.i != 0 && m < |k.maps| && Resumes(k, OnMap(m, key))
    case Wait(child) => k.sched.i != 0 && Resumes(k, OnStatus(child))
    case Exit(_) => k.sched.i != 0 && Resumes(k, Ready)
    case Spawn => Resumes(k, Ready)
    case Clone(vfork) => (vfork ==> k.sched.i != 0) && Resumes(k, Ready)
    case Loaded(p) => p in k.Ctx() && Resumes(k, Ready)
  }

  /** The state a step has built when it either goes on or calls `context_switch`. */
  function Prepared(k: State, op: Op): (State, bool)
    requires k.sched.i < |k.sched.inner| && k.Cur() in k.Ctx() && Enabled(k, op)
  {
    match op
    case Tick(dt) => (k.(now := k.now + dt), false)
    case SendToQueue(q, v) => (SendQueue(k, q, v), false)
    case SendToMap(m, key, v) => (SendMap(k, m, key, v), false)
    case Yield => (k, true)
    case Sleep(until) => (Asleep(k, until), true)
    case Receive(q) => (ReceiveQueue(k, q).0, ReceiveQueue(k, q).1.None?)
    case ReceiveAll(q) => (ReceiveAllQueue(k, q).0, ReceiveAllQueue(k, q).1.None?)
    case ReceiveKey(m, key) => (ReceiveMap(k, m, key).0, ReceiveMap(k, m, key).1.None?)
    case Wait(child) => (WaitPid(k, child).0, WaitPid(k, child).1.None?)
    case Exit(status) => (ExitOn(k, status), true)
    case Spawn => (Created(k, 0, false), false)
    case Clone(vfork) => (Created(k, k.Cur(), vfork), vfork)
    case Loaded(p) => (Released(k, p), false)
  }

  ghost predicate CanDo(k: State, op: Op) {
    k.sched.i < |k.sched.inner| && k.Cur() in k.Ctx() && Enabled(k, op)
  }

  ghost function Next(k: State, op: Op): State
    requires CanDo(k, op)
  {
    var (r, switch) := Prepared(k, op);
    if switch && r.sched.Ok() then Switched(r) else r
  }

  lemma PreparedConsistent(k: State, op: Op)
    requires Inv(k) && Enabled(k, op)
    ensures Consistent(Prepared(k, op).0)
  {
    hide Consistent, SendQueue, SendMap, ReceiveQueue, ReceiveAllQueue, ReceiveMap, WaitPid, ExitOn, Created, Released,
         Asleep, Resumes, NoDup;
    match op
    case Tick(dt) => SameBoxesConsistent(k, k.(now := k.now + dt)) by { assert k.nextPid > 0 by { NextPositive(k); } }
    case SendToQueue(q, v) => SendQueueConsistent(k, q, v);
    case SendToMap(m, key, v) => SendMapConsistent(k, m, key, v);
    case Yield =>
    case Sleep(until) => AsleepConsistent(k, until);
    case Receive(q) => ReceiveQueueConsistent(k, q);
    case ReceiveAll(q) => ReceiveAllConsistent(k, q);
    case ReceiveKey(m, key) => ReceiveMapConsistent(k, m, key);
    case Wait(child) => WaitPidConsistent(k, child);
    case Exit(status) => ExitConsistent(k, status);
    case Spawn => CreatedConsistent(k, 0, false);
    case Clone(vfork) => CreatedConsistent(k, k.Cur(), vfork);
    case Loaded(p) => ReleasedConsistent(k, p);
  }

  lemma NextPositive(k: State)
    requires Consistent(k)
    ensures k.nextPid > 0
  {
  }

  /** The list after a step, before the switch: longer by `added`; the cursor stays; and nobody but
      the current context stops being able to run. */
  ghost predicate Moves(k: State, r: State, added: seq<Pid>)
    requires k.sched.i < |k.sched.inner|
  {
    && |added| <= 1
    && r.sched.i == k.sched.i && r.sched.inner == k.sched.inner + added
    && (forall x :: x in r.Ctx() <==> x in k.Ctx() || x in added)
    && (forall x :: x in added ==> x !in k.Ctx())
    && (forall x :: x in k.Ctx() && x != k.Cur() && k.sched.Runnable(x) ==> r.sched.Runnable(x))
  }

  lemma MovesOk(k: State, r: State, added: seq<Pid>)
    requires k.sched.Ok() && Moves(k, r, added)
    requires k.sched.i == 0 ==> r.sched.Runnable(k.Cur())
    ensures r.sched.Ok() && r.Cur() == k.Cur()
  {
    hide Sched.Runnable;
    assert r.sched.inner[0] == k.sched.inner[0] && k.sched.inner[0] in k.Ctx();
    forall x
      ensures x in r.sched.inner <==> x in k.sched.inner || x in added
    {
    }
    assert NoDup(r.sched.inner) by { AppendNoDup(k.sched.inner, added); }
  }

  lemma AppendNoDup(s: seq<Pid>, added: seq<Pid>)
    requires NoDup(s) && |added| <= 1 && forall x :: x in added ==> x !in s
    ensures NoDup(s + added)
  {
    forall j, k | 0 <= j < k < |s + added|
      ensures (s + added)[j] != (s + added)[k]
    {
      if k == |s| {
        assert added[0] in added && s[j] in s;
      }
    }
  }

  lemma SendMoves(k: State, r: State)
    requires k.sched.i < |k.sched.inner| && r.sched == k.sched.(ctx := r.Ctx())
    requires r.Ctx().Keys == k.Ctx().Keys && OnlyWoken(k.Ctx(), r.Ctx())
    ensures Moves(k, r, []) && (k.sched.Runnable(k.Cur()) ==> r.sched.Runnable(k.Cur()))
  {
    assert forall x :: x in r.Ctx() ==> AtMostWoken(k.Ctx()[x], r.Ctx()[x]);
  }

  lemma OwnBoxMoves(k: State, c: Context, r: State)
    requires k.sched.i < |k.sched.inner| && k.Cur() in k.Ctx()
    requires r.sched == k.With(k.Cur(), c).sched
    ensures Moves(k, r, []) && (!c.blocked && !c.exited ==> r.sched.Runnable(k.Cur()))
  {
  }

  lemma ExitMoves(k: State, status: int)
    requires Consistent(k) && k.sched.i < |k.sched.inner| && k.Cur() in k.Ctx() && Resumes(k, Ready)
    ensures Moves(k, ExitOn(k, status), [])
  {
    hide ExitOn, Consistent;
    ExitShape(k, status);
    forall x | x in k.Ctx() && x != k.Cur() && k.sched.Runnable(x)
      ensures ExitOn(k, status).sched.Runnable(x)
    {
      ExitKeepsWaits(k, status, x);
    }
  }

  lemma CreatedMoves(k: State, ppid: Pid, vfork: bool)
    requires k.sched.i < |k.sched.inner| && k.Cur() in k.Ctx()
    ensures Moves(k, Created(k, ppid, vfork), [FreePid(k.Ctx(), k.nextPid)])
    ensures !vfork && k.sched.Runnable(k.Cur()) ==> Created(k, ppid, vfork).sched.Runnable(k.Cur())
  {
    hide Created, FreePid;
    CreatedBoxes(k, ppid, vfork);
  }

  /** The pids a step adds. */
  function Fresh(k: State, op: Op): seq<Pid> {
    if op.Spawn? || op.Clone? then [FreePid(k.Ctx(), k.nextPid)] else []
  }

  lemma PreparedMoves(k: State, op: Op)
    requires Inv(k) && Enabled(k, op)
    ensures Moves(k, Prepared(k, op).0, Fresh(k, op))
    ensures !Prepared(k, op).1 || op.Yield? ==> Prepared(k, op).0.sched.Runnable(k.Cur())
  {
    hide Consistent, ExitOn, Created, UnblockAll, NoDup, FreePid, Moves;
    var p, r := k.Cur(), Prepared(k, op).0;
    var c := k.Ctx()[p];
    match op
    case Tick(dt) => OwnBoxMoves(k, c, r) by { assert k.Ctx()[p := c] == k.Ctx(); }
    case SendToQueue(q, v) => SendQueueConsistent(k, q, v); SendMoves(k, r);
    case SendToMap(m, key, v) => SendMapConsistent(k, m, key, v); SendMoves(k, r);
    case Yield => OwnBoxMoves(k, c, r) by { assert k.Ctx()[p := c] == k.Ctx(); }
    case Sleep(until) => OwnBoxMoves(k, r.Ctx()[p], r);
    case Receive(q) => OwnBoxMoves(k, r.Ctx()[p], r);
    case ReceiveAll(q) => OwnBoxMoves(k, r.Ctx()[p], r);
    case ReceiveKey(m, key) => OwnBoxMoves(k, r.Ctx()[p], r);
    case Wait(child) => OwnBoxMoves(k, r.Ctx()[p], r);
    case Exit(status) => ExitMoves(k, status);
    case Spawn => CreatedMoves(k, 0, false);
    case Clone(vfork) => CreatedMoves(k, p, vfork);
    case Loaded(x) => ReleasedMoves(k, x);
  }

  lemma ReleasedMoves(k: State, x: Pid)
    requires k.sched.i < |k.sched.inner| && x in k.Ctx() && k.Cur() in k.Ctx()
    ensures Moves(k, Released(k, x), [])
    ensures k.sched.Runnable(k.Cur()) ==> Released(k, x).sched.Runnable(k.Cur())
  {
  }

  /** Every step keeps the manager's promises and every waiter's cause. */
  lemma PreparedKeeps(k: State, op: Op)
    requires Inv(k) && Enabled(k, op)
    ensures var (r, switch) := Prepared(k, op);
            && r.sched.Ok() && Consistent(r) && r.Cur() == k.Cur()
            && (!switch ==> Inv(r))
  {
    hide Prepared, Consistent, Moves, Enabled, NoDup, Fresh;
    PreparedConsistent(k, op);
    PreparedMoves(k, op);
    if k.sched.i == 0 {
      IdleGoesOn(k, op);
    }
    MovesOk(k, Prepared(k, op).0, Fresh(k, op));
  }

  /** The idle context only goes on or yields. */
  lemma IdleGoesOn(k: State, op: Op)
    requires k.sched.i < |k.sched.inner| && k.Cur() in k.Ctx() && Enabled(k, op) && k.sched.i == 0
    ensures !Prepared(k, op).1 || op.Yield?
  {
  }

  /** No lost wakeups, in one step: the invariant is kept whatever happens next. */
  lemma StepInv(k: State, op: Op)
    requires Inv(k) && CanDo(k, op)
    ensures Inv(Next(k, op))
  {
    hide Prepared, Consistent, SwitchOn, Enabled, NoDup;
    PreparedKeeps(k, op);
    var (r, switch) := Prepared(k, op);
    if switch {
      SwitchInv(r);
    }
  }

  ghost predicate IsRun(states: seq<State>, ops: seq<Op>) {
    && |states| == |ops| + 1
    && forall j :: 0 <= j < |ops| ==> CanDo(states[j], ops[j]) && states[j + 1] == Next(states[j], ops[j])
  }

  /** The invariant holds in every reachable state. */
  lemma {:induction false} RunInv(states: seq<State>, ops: seq<Op>)
    requires IsRun(states, ops) && Inv(states[0])
    ensures Inv(states[|ops|])
    decreases |ops|
  {
    hide Inv, Next, CanDo;
    if ops != [] {
      var n := |ops| - 1;
      RunInv(states[..n + 1], ops[..n]);
      assert states[..n + 1][n] == states[n];
      StepInv(states[n], ops[n]);
    }
  }

  /** The kernel as it starts: the idle context alone. */
  function Boot(queues: nat, maps: nat): State {
    var idle := Context(0, false, false, None, None, 0, Mailbox(map[], []), Ready);
    State(Sched([1], map[1 := idle], 0), 2, 0,
          seq(queues, _ => Queue([], [], [], [])), seq(maps, _ => Mailbox(map[], [])))
  }

  lemma BootInv(queues: nat, maps: nat)
    ensures Inv(Boot(queues, maps))
  {
  }

  /** In every reachable state a context that waits is either runnable again or has nothing to
      receive, and then it is listed where the next send will find it. */
  lemma NoLostWakeup(k: State, p: Pid)
    requires Inv(k) && p in k.Ctx() && k.Ctx()[p].blocked
    ensures !k.Ctx()[p].exited && p != k.Cur()
    ensures match k.Ctx()[p].pending
            case OnQueue(q) => q < |k.queues| && k.queues[q].inner == [] && p in k.queues[q].waiters
            case OnMap(m, key) => m < |k.maps| && key !in k.maps[m].inner && p in k.maps[m].waiters
            case OnStatus(child) => child !in k.Ctx()[p].statuses.inner && p in k.Ctx()[p].statuses.waiters
            case Vforked(d) => d in k.Ctx() && k.Ctx()[d].vfork == Some(p)
            case Sleeping => k.Ctx()[p].wake.Some?
            case Ready => false
  {
    assert ContextOk(k, p);
    match k.Ctx()[p].pending
    case OnQueue(q) => assert QueueOk(k, q);
    case OnMap(m, _) => assert MapOk(k, m);
    case _ =>
  }
}
