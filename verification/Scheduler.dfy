/** The context list and the context switch (kernel/arch/context.rs).

    `inner` is the manager's vector of boxed contexts and `ctx` the boxes: a context is named by
    its pid, which stands for the raw pointers the kernel keeps to it as well.  Code between two
    context switches is atomic, because locks disable interrupts and never re-enable them
    (kernel/arch/intex.rs:67-86). */
module Scheduler {
  import opened Common

  type Pid = nat

  /** Where a context's kernel stack resumes: in a retry loop, after a sleep, or nowhere special. */
  datatype Pending =
    | Ready
    | OnQueue(queue: nat)
    | OnMap(index: nat, key: nat)
    | OnStatus(child: Pid)
    | Vforked(to: Pid)
    | Sleeping

  /** Exit statuses of children: a keyed mailbox and the contexts waiting on it. */
  datatype Mailbox = Mailbox(inner: map<nat, int>, waiters: seq<Pid>)

  datatype Context = Context(
    ppid: Pid,
    blocked: bool,
    exited: bool,
    wake: Option<int>,
    vfork: Option<Pid>,
    switches: nat,
    statuses: Mailbox,
    pending: Pending)

  datatype Sched = Sched(inner: seq<Pid>, ctx: map<Pid, Context>, i: nat)
  {
    /** The list and the boxes match, and the idle context at index 0 neither blocks nor exits. */
    ghost predicate Ok() {
      && inner != [] && NoDup(inner) && (forall p :: p in inner <==> p in ctx)
      && Runnable(inner[0])
      && i < |inner|
    }

    ghost predicate Runnable(p: Pid) {
      p in ctx && !ctx[p].blocked && !ctx[p].exited
    }

    function Current(): Pid
      requires i < |inner|
    {
      inner[i]
    }
  }

  ghost predicate NoDup<T>(s: seq<T>) {
    forall j, k :: 0 <= j < k < |s| ==> s[j] != s[k]
  }

  // ---------------------------------------------------------------- waking and removing

  /** `(*context).blocked = false` through a kept pointer. */
  function Unblock(ctx: map<Pid, Context>, p: Pid): map<Pid, Context> {
    if p in ctx then ctx[p := ctx[p].(blocked := false)] else ctx
  }

  function UnblockAll(ctx: map<Pid, Context>, ps: seq<Pid>): map<Pid, Context> {
    if ps == [] then ctx else UnblockAll(Unblock(ctx, ps[0]), ps[1..])
  }

  /** A parent that gave its memory away with vfork may run again. */
  function Release(ctx: map<Pid, Context>, v: Option<Pid>): map<Pid, Context> {
    if v.Some? && v.value in ctx
    then ctx[v.value := ctx[v.value].(blocked := false, pending := Ready)] else ctx
  }

  /** Remove a context from the list and drop it. */
  function Reap(s: Sched, k: nat): Sched
    requires k < |s.inner|
  {
    var p := s.inner[k];
    var rest := s.ctx - {p};
    var dropped := if p in s.ctx
                   then UnblockAll(Release(rest, s.ctx[p].vfork), s.ctx[p].statuses.waiters) else rest;
    s.(inner := s.inner[..k] + s.inner[k + 1..], ctx := dropped)
  }

  function WakeUp(ctx: map<Pid, Context>, p: Pid): map<Pid, Context>
    requires p in ctx
  {
    ctx[p := ctx[p].(blocked := false, wake := None, pending := Ready)]
  }

  /** Search for the next context from position `k`, reaping exited ones on the way; the idle
      context ends the search when it wraps around. */
  function SearchOn(s: Sched, k: nat, now: int): Sched
    requires forall p :: p in s.inner ==> p in s.ctx
    requires NoDup(s.inner)
    decreases |s.inner| - k
  {
    if k >= |s.inner| then s.(i := 0)
    else
      var p := s.inner[k];
      var c := s.ctx[p];
      if c.exited then
        ReapMatches(s, k);
        SearchOn(Reap(s, k), k, now)
      else if !c.blocked then s.(i := k)
      else if c.wake.Some? && c.wake.value <= now then s.(ctx := WakeUp(s.ctx, p), i := k)
      else SearchOn(s, k + 1, now)
  }

  function Counted(s: Sched): Sched
    requires s.i < |s.inner| && s.inner[s.i] in s.ctx
  {
    var p := s.inner[s.i];
    s.(ctx := s.ctx[p := s.ctx[p].(switches := s.ctx[p].switches + 1)])
  }

  /** One `context_switch`. */
  ghost function SwitchOn(s: Sched, now: int): Sched
    requires s.Ok()
  {
    var r := SearchOn(s, s.i + 1, now);
    SearchStops(s, s.i + 1, now);
    if r.i != s.i then Counted(r) else r
  }

  // ---------------------------------------------------------------- what waking and removing keep

  /** `d` is `c`, at most made runnable. */
  predicate AtMostWoken(c: Context, d: Context) {
    && d == c.(blocked := d.blocked, wake := d.wake, pending := d.pending)
    && (d.blocked ==> d == c)
    && (!c.blocked ==> !d.blocked)
  }

  predicate OnlyWoken(ctx: map<Pid, Context>, out: map<Pid, Context>) {
    forall p :: p in out ==> p in ctx && AtMostWoken(ctx[p], out[p])
  }

  lemma {:induction false} UnblockAllWakes(ctx: map<Pid, Context>, ps: seq<Pid>)
    ensures UnblockAll(ctx, ps).Keys == ctx.Keys && OnlyWoken(ctx, UnblockAll(ctx, ps))
    ensures forall p :: p in ctx && p !in ps ==> UnblockAll(ctx, ps)[p] == ctx[p]
    ensures forall p :: p in ctx && p in ps ==> UnblockAll(ctx, ps)[p] == ctx[p].(blocked := false)
    decreases |ps|
  {
    if ps != [] {
      UnblockAllWakes(Unblock(ctx, ps[0]), ps[1..]);
    }
  }

  lemma ReapWakes(s: Sched, k: nat)
    requires k < |s.inner| && s.inner[k] in s.ctx
    ensures Reap(s, k).ctx.Keys == s.ctx.Keys - {s.inner[k]} && OnlyWoken(s.ctx, Reap(s, k).ctx)
  {
    var p := s.inner[k];
    UnblockAllWakes(Release(s.ctx - {p}, s.ctx[p].vfork), s.ctx[p].statuses.waiters);
  }

  lemma ReapMatches(s: Sched, k: nat)
    requires k < |s.inner| && NoDup(s.inner) && forall p :: p in s.inner ==> p in s.ctx
    ensures NoDup(Reap(s, k).inner)
    ensures forall p :: p in Reap(s, k).inner <==> p in s.inner && p != s.inner[k]
    ensures forall p :: p in Reap(s, k).inner ==> p in Reap(s, k).ctx
    ensures OnlyWoken(s.ctx, Reap(s, k).ctx) && Reap(s, k).ctx.Keys == s.ctx.Keys - {s.inner[k]}
  {
    ReapWakes(s, k);
    var out := Reap(s, k).inner;
    forall j | 0 <= j < |s.inner| && j != k
      ensures s.inner[j] in out
    {
      assert out[if j < k then j else j - 1] == s.inner[j];
    }
    assert forall j :: 0 <= j < |out| ==> out[j] == s.inner[if j < k then j else j + 1];
  }

  lemma ReapShape(s: Sched, k: nat)
    requires k < |s.inner|
    ensures Reap(s, k).inner == s.inner[..k] + s.inner[k + 1..] && Reap(s, k).i == s.i
  {
  }

  /** What a search from `k` may return: everything before `k` is kept, the result is a runnable
      context at or after `k` or the idle one, contexts are at most woken and only exited ones at or
      after `k` are removed. */
  ghost predicate Found(s: Sched, k: nat, r: Sched) {
    && r.Ok() && r.Runnable(r.Current())
    && k <= |r.inner| <= |s.inner| && r.inner[..k] == s.inner[..k]
    && (r.i == 0 || k <= r.i)
    && OnlyWoken(s.ctx, r.ctx)
    && (forall p :: p in s.ctx && !s.ctx[p].exited ==> p in r.ctx)
  }

  ghost predicate Searchable(s: Sched) {
    s.inner != [] && NoDup(s.inner) && (forall p :: p in s.inner <==> p in s.ctx) && s.Runnable(s.inner[0])
  }

  lemma ReapSearchable(s: Sched, k: nat)
    requires Searchable(s) && 0 < k < |s.inner| && s.ctx[s.inner[k]].exited
    ensures Searchable(Reap(s, k))
    ensures Reap(s, k).inner == s.inner[..k] + s.inner[k + 1..] && Reap(s, k).i == s.i
  {
    hide Reap, NoDup;
    assert NoDup(s.inner);
    ReapMatches(s, k);
    ReapShape(s, k);
    var p := s.inner[0];
    assert p != s.inner[k];
    assert AtMostWoken(s.ctx[p], Reap(s, k).ctx[p]);
  }

  lemma FoundAfterReap(s: Sched, k: nat, r: Sched)
    requires Searchable(s) && 0 < k < |s.inner| && s.ctx[s.inner[k]].exited && Found(Reap(s, k), k, r)
    ensures Found(s, k, r)
  {
    hide Reap, Sched.Ok, Sched.Runnable, Sched.Current, NoDup;
    ReapSearchable(s, k);
    ReapMatches(s, k);
    assert Reap(s, k).inner[..k] == s.inner[..k];
    forall p | p in r.ctx
      ensures p in s.ctx && AtMostWoken(s.ctx[p], r.ctx[p])
    {
      assert AtMostWoken(Reap(s, k).ctx[p], r.ctx[p]) && AtMostWoken(s.ctx[p], Reap(s, k).ctx[p]);
    }
    forall p | p in s.ctx && !s.ctx[p].exited
      ensures p in r.ctx
    {
      assert p in Reap(s, k).ctx;
    }
  }

  lemma FoundFurther(s: Sched, k: nat, r: Sched)
    requires k < |s.inner| && Found(s, k + 1, r)
    ensures Found(s, k, r)
  {
    hide Sched.Ok, Sched.Runnable, Sched.Current, OnlyWoken;
    assert r.inner[..k] == r.inner[..k + 1][..k] && s.inner[..k] == s.inner[..k + 1][..k];
  }

  /** The search terminates on such a context, with the idle context at index 0. */
  lemma {:induction false} SearchStops(s: Sched, k: nat, now: int)
    requires Searchable(s) && 0 < k <= |s.inner|
    ensures Found(s, k, SearchOn(s, k, now))
    decreases |s.inner| - k
  {
    if k < |s.inner| && s.ctx[s.inner[k]].exited {
      hide Reap, Found, Sched.Ok, Searchable;
      ReapSearchable(s, k);
      SearchStops(Reap(s, k), k, now);
      FoundAfterReap(s, k, SearchOn(s, k, now));
    } else if k < |s.inner| && s.ctx[s.inner[k]].blocked
              && !(s.ctx[s.inner[k]].wake.Some? && s.ctx[s.inner[k]].wake.value <= now) {
      hide Found, Sched.Ok, Searchable;
      SearchStops(s, k + 1, now);
      FoundFurther(s, k, SearchOn(s, k, now));
    } else {
      hide Found, Searchable, NoDup;
    }
  }

  /** One context switch keeps the manager's promises, and never removes the running context. */
  lemma SwitchKeeps(s: Sched, now: int)
    requires s.Ok()
    ensures var r := SwitchOn(s, now);
            && r.Ok() && r.Runnable(r.Current())
            && s.i < |r.inner| && r.inner[s.i] == s.Current() && r.inner[..s.i + 1] == s.inner[..s.i + 1]
  {
    hide SearchOn;
    SearchStops(s, s.i + 1, now);
    var r := SearchOn(s, s.i + 1, now);
    assert r.inner[..s.i + 1][s.i] == s.inner[..s.i + 1][s.i];
  }

  // ---------------------------------------------------------------- the loops, as they are written

  /** `clean`: drop exited contexts at the cursor, wrapping once. */
  function CleanOn(s: Sched): Sched
    requires NoDup(s.inner) && forall p :: p in s.inner ==> p in s.ctx
    decreases |s.inner|
  {
    var j := if s.i >= |s.inner| then s.i - |s.inner| else s.i;
    if j < |s.inner| && s.ctx[s.inner[j]].exited then
      ReapMatches(s, j);
      CleanOn(Reap(s.(i := j), j))
    else s.(i := if j >= |s.inner| then j - |s.inner| else j)
  }

  lemma {:induction false} SearchIgnoresCursor(s: Sched, j: nat, k: nat, now: int)
    requires NoDup(s.inner) && forall p :: p in s.inner ==> p in s.ctx
    ensures SearchOn(s.(i := j), k, now) == SearchOn(s, k, now)
    decreases |s.inner| - k
  {
    if k < |s.inner| {
      if s.ctx[s.inner[k]].exited {
        ReapMatches(s, k);
        SearchIgnoresCursor(Reap(s, k), j, k, now);
        assert Reap(s.(i := j), k) == Reap(s, k).(i := j);
      } else {
        SearchIgnoresCursor(s, j, k + 1, now);
      }
    }
  }

  /** Cleaning is the part of the search that removes. */
  lemma {:induction false} CleanThenSearch(s: Sched, now: int)
    requires Searchable(s) && 0 < s.i <= |s.inner|
    ensures var d := CleanOn(s);
            && Searchable(d) && d.i < |d.inner| && !d.ctx[d.inner[d.i]].exited
            && |d.inner| <= |s.inner|
            && (if d.i == 0 then SearchOn(s, s.i, now) == d
                else d.i == s.i && SearchOn(s, s.i, now) == SearchOn(d, d.i, now))
    decreases |s.inner|
  {
    hide Reap, Sched.Ok, NoDup;
    if s.i < |s.inner| && s.ctx[s.inner[s.i]].exited {
      ReapSearchable(s, s.i);
      CleanThenSearch(Reap(s, s.i), now);
    }
  }

  class ContextManager {
    var inner: seq<Pid>
    var ctx: map<Pid, Context>
    var enabled: bool
    var i: nat

    ghost function State(): Sched
      reads this
    {
      Sched(inner, ctx, i)
    }

    constructor ()
      ensures inner == [] && ctx == map[] && !enabled && i == 0
    {
      inner, ctx, enabled, i := [], map[], false, 0;
    }

    method Push(p: Pid, c: Context)
      requires p !in ctx
      modifies this`inner, this`ctx
      ensures inner == old(inner) + [p] && ctx == old(ctx)[p := c]
    {
      inner := inner + [p];
      ctx := ctx[p := c];
    }

    /** Remove and drop the context at the cursor. */
    method Remove()
      requires i < |inner| && inner[i] in ctx
      modifies this`inner, this`ctx
      ensures State() == Reap(old(State()), i)
    {
      hide UnblockAll;
      var p := inner[i];
      var c := ctx[p];
      inner := inner[..i] + inner[i + 1..];
      ctx := ctx - {p};
      if c.vfork.Some? && c.vfork.value in ctx {
        ctx := ctx[c.vfork.value := ctx[c.vfork.value].(blocked := false, pending := Ready)];
      }
      Notify(c.statuses.waiters);
    }

    method Notify(waiters: seq<Pid>)
      modifies this`ctx
      ensures ctx == UnblockAll(old(ctx), waiters)
    {
      var k := 0;
      while k < |waiters|
        invariant 0 <= k <= |waiters| && UnblockAll(ctx, waiters[k..]) == UnblockAll(old(ctx), waiters)
      {
        var p := waiters[k];
        if p in ctx {
          ctx := ctx[p := ctx[p].(blocked := false)];
        }
        assert waiters[k..][1..] == waiters[k + 1..];
        k := k + 1;
      }
    }

    method Clean()
      requires enabled && NoDup(inner) && forall p :: p in inner ==> p in ctx
      modifies this`inner, this`ctx, this`i
      ensures State() == CleanOn(old(State()))
    {
      hide Reap;
      while true
        invariant NoDup(inner) && forall p :: p in inner ==> p in ctx
        invariant CleanOn(State()) == CleanOn(old(State()))
        decreases |inner|
      {
        label before:
        if i >= |inner| {
          i := i - |inner|;
        }
        var remove := false;
        if i < |inner| && ctx[inner[i]].exited {
          remove := true;
        }
        if !remove {
          break;
        }
        ReapMatches(State(), i);
        ReapShape(State(), i);
        Remove();
      }
      if i >= |inner| {
        i := i - |inner|;
      }
    }

    method ContextSwitch(now: int)
      requires enabled ==> State().Ok()
      modifies this`inner, this`ctx, this`i
      ensures !enabled ==> State() == old(State())
      ensures enabled ==> State() == SwitchOn(old(State()), now)
    {
      hide Reap, SearchOn, CleanOn, NoDup;
      if enabled {
        var currentI := i;
        ghost var goal := SearchOn(State(), i + 1, now);
        while true
          invariant Searchable(State()) && currentI <= i < |inner|
          invariant SearchOn(State(), i + 1, now) == goal
          decreases |inner| - i
        {
          OneTurn(State(), now);
          i := i + 1;
          Clean();
          var p := inner[i];
          var next := ctx[p];
          if next.blocked {
            if next.wake.Some? && next.wake.value <= now {
              ctx := ctx[p := next.(blocked := false, wake := None, pending := Ready)];
              break;
            }
          } else {
            break;
          }
          if i == currentI {
            break;
          }
        }
        if i != currentI {
          var p := inner[i];
          ctx := ctx[p := ctx[p].(switches := ctx[p].switches + 1)];
        }
      }
    }
  }

  /** What the search makes of a context that has not exited. */
  lemma ProbeHere(s: Sched, now: int)
    requires Searchable(s) && s.i < |s.inner| && !s.ctx[s.inner[s.i]].exited
    ensures SearchOn(s, s.i, now) == Probed(s, now)
    ensures s.i == 0 ==> !s.ctx[s.inner[s.i]].blocked
  {
    hide Reap;
  }

  function Probed(s: Sched, now: int): Sched
    requires NoDup(s.inner) && s.i < |s.inner| && forall p :: p in s.inner ==> p in s.ctx
  {
    var p := s.inner[s.i];
    if !s.ctx[p].blocked then s
    else if s.ctx[p].wake.Some? && s.ctx[p].wake.value <= now then s.(ctx := WakeUp(s.ctx, p))
    else SearchOn(s, s.i + 1, now)
  }

  /** One turn of the search loop: advance, clean, probe. */
  lemma OneTurn(s: Sched, now: int)
    requires Searchable(s) && s.i < |s.inner|
    ensures var d := CleanOn(s.(i := s.i + 1));
            && Searchable(d) && d.i < |d.inner| <= |s.inner|
            && SearchOn(s, s.i + 1, now) == Probed(d, now)
            && (if d.i == 0 then !d.ctx[d.inner[d.i]].blocked else d.i == s.i + 1)
  {
    hide Reap, SearchOn, CleanOn, NoDup, Probed;
    var e := s.(i := s.i + 1);
    SearchIgnoresCursor(s, s.i + 1, s.i + 1, now);
    CleanThenSearch(e, now);
    ProbeHere(CleanOn(e), now);
    if CleanOn(e).i == 0 {
      FirstIsProbed(CleanOn(e), now);
    }
  }

  lemma FirstIsProbed(s: Sched, now: int)
    requires Searchable(s) && s.i == 0
    ensures Probed(s, now) == s
  {
  }
}
