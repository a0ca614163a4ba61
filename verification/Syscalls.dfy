/** The kernel's blocking calls as methods on the environment (kernel/sync/wait_queue.rs,
    wait_map.rs, kernel/syscall/process.rs, time.rs, kernel/arch/context.rs).

    A receiving method is one turn of the retry loop: `None` means that the context was put on the
    waiter list and switched away from. */
module Syscalls {
  import opened Common
  import opened Scheduler
  import opened Kernel

  class Env {
    const contexts: ContextManager
    var nextPid: Pid
    var now: int
    var queues: seq<Queue>
    var maps: seq<Mailbox>

    ghost function View(): State
      reads this, contexts
    {
      State(contexts.State(), nextPid, now, queues, maps)
    }

    ghost predicate Ready()
      reads this, contexts
    {
      contexts.enabled && Inv(View())
    }

    constructor (contexts: ContextManager)
      ensures this.contexts == contexts && nextPid == 1 && now == 0 && queues == [] && maps == []
    {
      this.contexts := contexts;
      nextPid, now, queues, maps := 1, 0, [], [];
    }

    /** `next_pid`: skip the pids in use. */
    method NextPid() returns (pid: Pid)
      requires forall p :: p in contexts.inner <==> p in contexts.ctx
      modifies this`nextPid
      ensures pid == FreePid(contexts.ctx, old(nextPid)) && nextPid == PidAfter(pid)
    {
      var next: Pid := nextPid;
      var collision := true;
      while collision
        invariant FreePid(contexts.ctx, next) == FreePid(contexts.ctx, nextPid)
        invariant !collision ==> next !in contexts.ctx
        invariant nextPid == old(nextPid)
        decreases |(set p | p in contexts.ctx && p >= next)|, collision
      {
        collision := false;
        ghost var was := next;
        var k := 0;
        while k < |contexts.inner|
          invariant 0 <= k <= |contexts.inner| && !collision && next == was
          invariant next !in contexts.inner[..k]
        {
          if next == contexts.inner[k] {
            assert (set p | p in contexts.ctx && p >= next) == (set p | p in contexts.ctx && p >= next + 1) + {next};
            next := next + 1;
            collision := true;
            break;
          }
          k := k + 1;
        }
      }
      pid := next;
      next := next + 1;
      if next >= PID_LIMIT {
        next := 1;
      }
      nextPid := next;
    }

    method Switch()
      requires contexts.enabled && View().sched.Ok()
      modifies contexts`inner, contexts`ctx, contexts`i
      ensures View() == Switched(old(View()))
    {
      hide SwitchOn, Sched.Ok;
      contexts.ContextSwitch(now);
    }

    method SendTo(q: nat, v: int)
      requires q < |queues|
      modifies this`queues, contexts`ctx
      ensures View() == SendQueue(old(View()), q, v)
    {
      hide UnblockAll;
      var w := queues[q];
      queues := queues[q := w.(inner := w.inner + [v], sent := w.sent + [v])];
      var waiters := queues[q].waiters;
      queues := queues[q := queues[q].(waiters := [])];
      contexts.Notify(waiters);
    }

    /** `wait`, once the current context is on a list. */
    method Block(pending: Pending)
      requires contexts.i < |contexts.inner| && View().Cur() in contexts.ctx
      modifies contexts`ctx
      ensures View() == Blocked(old(View()), pending)
    {
      var p := contexts.inner[contexts.i];
      contexts.ctx := contexts.ctx[p := contexts.ctx[p].(blocked := true, pending := pending)];
    }

    method Go()
      requires contexts.i < |contexts.inner| && View().Cur() in contexts.ctx
      modifies contexts`ctx
      ensures View() == Returned(old(View()))
    {
      var p := contexts.inner[contexts.i];
      contexts.ctx := contexts.ctx[p := contexts.ctx[p].(pending := Pending.Ready)];
    }

    method ReceiveFrom(q: nat) returns (r: Option<int>)
      requires Ready() && CanDo(View(), Receive(q))
      modifies this`queues, contexts`inner, contexts`ctx, contexts`i
      ensures View() == Next(old(View()), Receive(q)) && r == ReceiveQueue(old(View()), q).1
      ensures Ready()
    {
      hide Switched, Inv, Sched.Ok, Resumes, Blocked, Returned;
      ghost var k := View();
      StepInv(k, Receive(q));
      PreparedKeeps(k, Receive(q));
      var w := queues[q];
      if w.inner != [] {
        r := Some(w.inner[0]);
        queues := queues[q := w.(inner := w.inner[1..], received := w.received + [w.inner[0]])];
        Go();
      } else {
        r := None;
        queues := queues[q := w.(waiters := w.waiters + [contexts.inner[contexts.i]])];
        Block(OnQueue(q));
        Switch();
      }
    }

    method ReceiveAllFrom(q: nat) returns (r: Option<seq<int>>)
      requires Ready() && CanDo(View(), ReceiveAll(q))
      modifies this`queues, contexts`inner, contexts`ctx, contexts`i
      ensures View() == Next(old(View()), ReceiveAll(q)) && r == ReceiveAllQueue(old(View()), q).1
      ensures Ready()
    {
      hide Switched, Inv, Sched.Ok, Resumes, Blocked, Returned;
      ghost var k := View();
      StepInv(k, ReceiveAll(q));
      PreparedKeeps(k, ReceiveAll(q));
      var w := queues[q];
      if w.inner != [] {
        r := Some(w.inner);
        queues := queues[q := w.(inner := [], received := w.received + w.inner)];
        Go();
      } else {
        r := None;
        queues := queues[q := w.(waiters := w.waiters + [contexts.inner[contexts.i]])];
        Block(OnQueue(q));
        Switch();
      }
    }

    method SendKey(m: nat, key: nat, v: int)
      requires m < |maps|
      modifies this`maps, contexts`ctx
      ensures View() == SendMap(old(View()), m, key, v)
    {
      hide UnblockAll;
      maps := maps[m := maps[m].(inner := maps[m].inner[key := v])];
      var waiters := maps[m].waiters;
      maps := maps[m := maps[m].(waiters := [])];
      contexts.Notify(waiters);
    }

    method ReceiveKeyFrom(m: nat, key: nat) returns (r: Option<int>)
      requires Ready() && CanDo(View(), ReceiveKey(m, key))
      modifies this`maps, contexts`inner, contexts`ctx, contexts`i
      ensures View() == Next(old(View()), ReceiveKey(m, key)) && r == ReceiveMap(old(View()), m, key).1
      ensures Ready()
    {
      hide Switched, Inv, Sched.Ok, Resumes, Blocked, Returned;
      ghost var k := View();
      StepInv(k, ReceiveKey(m, key));
      PreparedKeeps(k, ReceiveKey(m, key));
      var w := maps[m];
      if key in w.inner {
        r := Some(w.inner[key]);
        maps := maps[m := w.(inner := w.inner - {key})];
        Go();
      } else {
        r := None;
        maps := maps[m := w.(waiters := w.waiters + [contexts.inner[contexts.i]])];
        Block(OnMap(m, key));
        Switch();
      }
    }

    /** `waitpid`: a pid that is not positive has no child. */
    method WaitFor(pid: int) returns (r: Option<int>, child: Option<Pid>)
      requires Ready() && (pid > 0 ==> CanDo(View(), Wait(pid)))
      modifies contexts`inner, contexts`ctx, contexts`i
      ensures pid <= 0 ==> r == None && child == None && View() == old(View())
      ensures pid > 0 ==>
                View() == Next(old(View()), Wait(pid)) && r == WaitPid(old(View()), pid).1
                && child == if r.Some? then Some(pid) else None
      ensures Ready()
    {
      hide Switched, Inv, Sched.Ok, Resumes;
      r, child := None, None;
      if pid > 0 {
        ghost var k := View();
        StepInv(k, Wait(pid));
        PreparedKeeps(k, Wait(pid));
        var p := contexts.inner[contexts.i];
        var c := contexts.ctx[p];
        var w := c.statuses;
        if pid in w.inner {
          r, child := Some(w.inner[pid]), Some(pid);
          contexts.ctx := contexts.ctx[p := c.(statuses := w.(inner := w.inner - {pid}), pending := Pending.Ready)];
        } else {
          contexts.ctx := contexts.ctx[p := c.(statuses := w.(waiters := w.waiters + [p]), blocked := true,
                                               pending := OnStatus(pid))];
          Switch();
        }
      }
    }

    method SleepUntil(until: int)
      requires Ready() && CanDo(View(), Sleep(until))
      modifies contexts`inner, contexts`ctx, contexts`i
      ensures View() == Next(old(View()), Sleep(until))
      ensures Ready()
    {
      hide Switched, Inv, Sched.Ok, Resumes;
      ghost var k := View();
      StepInv(k, Sleep(until));
      PreparedKeeps(k, Sleep(until));
      var p := contexts.inner[contexts.i];
      contexts.ctx := contexts.ctx[p := contexts.ctx[p].(blocked := true, wake := Some(until), pending := Sleeping)];
      Switch();
    }

    /** The bookkeeping of `context_clone`; with `vfork` the parent blocks and switches.  `stack` says
        whether there was memory for a kernel stack; `None` is the error that there was not. */
    method CloneContext(vfork: bool, stack: bool) returns (pid: Option<Pid>)
      requires Ready() && CanDo(View(), Clone(vfork))
      modifies this`nextPid, contexts`inner, contexts`ctx, contexts`i
      ensures !stack ==> pid == None && View() == old(View())
      ensures stack ==>
                View() == Next(old(View()), Clone(vfork)) && pid == Some(FreePid(old(View()).Ctx(), old(nextPid)))
      ensures Ready()
    {
      hide Consistent, Sched.Ok, Sched.Runnable, Resumes, Next, FreePid;
      if !stack {
        return None;
      }
      var clone := NewContext(vfork);
      return Some(clone);
    }

    method NewContext(vfork: bool) returns (clone: Pid)
      requires Ready() && CanDo(View(), Clone(vfork))
      modifies this`nextPid, contexts`inner, contexts`ctx, contexts`i
      ensures View() == Next(old(View()), Clone(vfork)) && clone == FreePid(old(View()).Ctx(), old(nextPid))
      ensures Ready()
    {
      hide Switched, Consistent, Sched.Runnable, Resumes, FreePid, NoDup;
      ghost var k := View();
      StepInv(k, Clone(vfork));
      PreparedKeeps(k, Clone(vfork));
      clone := NextPid();
      var p := contexts.inner[contexts.i];
      var parent := if vfork then Some(p) else None;
      var child := Context(p, false, false, None, parent, 0, Mailbox(map[], []), Pending.Ready);
      if vfork {
        contexts.ctx := contexts.ctx[p := contexts.ctx[p].(blocked := true, pending := Vforked(clone))];
      }
      contexts.Push(clone, child);
      if vfork {
        Switch();
      }
    }

    /** `statuses.send` of one context. */
    method SendStatus(x: Pid, key: nat, v: int)
      requires x in contexts.ctx
      modifies contexts`ctx
      ensures contexts.ctx == StatusSent(old(contexts.ctx), x, map[key := v])
      ensures contexts.ctx.Keys == old(contexts.ctx).Keys
    {
      hide UnblockAll;
      SentKeys(contexts.ctx, x, map[key := v]);
      var w := contexts.ctx[x].statuses;
      contexts.ctx := contexts.ctx[x := contexts.ctx[x].(statuses := Mailbox(w.inner[key := v], []))];
      assert w.inner[key := v] == w.inner + map[key := v];
      contexts.Notify(w.waiters);
    }

    /** The exiting context's own status first, then those it had not collected. */
    method SendStatuses(x: Pid, pid: Pid, status: int, statuses: map<nat, int>)
      requires x in contexts.ctx
      modifies contexts`ctx
      ensures contexts.ctx == StatusSent(old(contexts.ctx), x, map[pid := status] + statuses)
      ensures contexts.ctx.Keys == old(contexts.ctx).Keys
    {
      hide StatusSent;
      SendStatus(x, pid, status);
      ghost var sent: map<nat, int> := map[pid := status];
      var rest := statuses;
      assert sent + rest == map[pid := status] + statuses;
      while rest != map[]
        invariant contexts.ctx.Keys == old(contexts.ctx).Keys
        invariant contexts.ctx == StatusSent(old(contexts.ctx), x, sent)
        invariant sent + rest == map[pid := status] + statuses
        decreases |rest|
      {
        var key :| key in rest;
        SendStatus(x, key, rest[key]);
        StatusSentTwice(old(contexts.ctx), x, sent, map[key := rest[key]]);
        MoveOver(sent, rest, key);
        sent := sent + map[key := rest[key]];
        rest := rest - {key};
      }
      assert sent + rest == sent;
    }

    /** `exit`: collect for the parent, move the children up, and never come back. */
    method ExitWith(status: int)
      requires Ready() && CanDo(View(), Exit(status))
      modifies contexts`inner, contexts`ctx, contexts`i
      ensures View() == Next(old(View()), Exit(status))
      ensures Ready()
    {
      hide Switched, Inv, Resumes, StatusSent, ExitOn, ExitUpTo, NoDup, Sched.Ok;
      ghost var k := View();
      StepInv(k, Exit(status));
      PreparedKeeps(k, Exit(status));
      ExitNext(k, status);
      ExitShape(k, status);
      ListedHaveBoxes(k);
      var pid := contexts.inner[contexts.i];
      var ppid := contexts.ctx[pid].ppid;
      var statuses := contexts.ctx[pid].statuses.inner;
      contexts.ctx := contexts.ctx[pid :=
        contexts.ctx[pid].(exited := true, statuses := contexts.ctx[pid].statuses.(inner := map[]))];
      ExitStart(k, status);
      var j := 0;
      while j < |contexts.inner|
        invariant 0 <= j <= |contexts.inner| && contexts.inner == k.sched.inner && contexts.i == k.sched.i
        invariant contexts.ctx.Keys == k.Ctx().Keys
        invariant ExitUpTo(k, status, j, contexts.ctx)
      {
        var x := contexts.inner[j];
        ghost var was := contexts.ctx;
        if x == ppid {
          SendStatuses(x, pid, status, statuses);
        }
        if contexts.ctx[x].ppid == pid {
          contexts.ctx := contexts.ctx[x := contexts.ctx[x].(ppid := ppid)];
        }
        ExitOneMore(k, status, j, was, contexts.ctx);
        j := j + 1;
      }
      ExitDone(k, status, contexts.ctx);
      Switch();
    }
  }

  function StatusSent(ctx: map<Pid, Context>, x: Pid, gift: map<nat, int>): map<Pid, Context>
    requires x in ctx
  {
    var w := ctx[x].statuses;
    UnblockAll(ctx[x := ctx[x].(statuses := Mailbox(w.inner + gift, []))], w.waiters)
  }

  lemma SentKeys(ctx: map<Pid, Context>, x: Pid, gift: map<nat, int>)
    requires x in ctx
    ensures StatusSent(ctx, x, gift).Keys == ctx.Keys
    ensures forall y :: y in ctx ==>
              var c := if y == x then ctx[y].(statuses := Mailbox(ctx[y].statuses.inner + gift, [])) else ctx[y];
              StatusSent(ctx, x, gift)[y] == if y in ctx[x].statuses.waiters then c.(blocked := false) else c
  {
    UnblockAllWakes(ctx[x := ctx[x].(statuses := Mailbox(ctx[x].statuses.inner + gift, []))], ctx[x].statuses.waiters);
  }

  lemma MoveOver(a: map<nat, int>, b: map<nat, int>, key: nat)
    requires key in b
    ensures (a + map[key := b[key]]) + (b - {key}) == a + b && |b - {key}| < |b|
  {
    assert (b - {key}).Keys == b.Keys - {key};
  }

  lemma StatusSentTwice(ctx: map<Pid, Context>, x: Pid, a: map<nat, int>, b: map<nat, int>)
    requires x in ctx
    ensures x in StatusSent(ctx, x, a) && StatusSent(StatusSent(ctx, x, a), x, b) == StatusSent(ctx, x, a + b)
  {
    hide StatusSent, UnblockAll;
    SentKeys(ctx, x, a);
    var once := StatusSent(ctx, x, a);
    SentKeys(once, x, b);
    SentKeys(ctx, x, a + b);
    assert ctx[x].statuses.inner + (a + b) == ctx[x].statuses.inner + a + b;
  }

  lemma ExitNext(k: State, status: int)
    requires Inv(k) && CanDo(k, Exit(status))
    ensures ExitOn(k, status).sched.Ok() && Next(k, Exit(status)) == Switched(ExitOn(k, status))
  {
    hide ExitOn, Consistent, SwitchOn, Sched.Ok;
    PreparedKeeps(k, Exit(status));
  }

  /** The boxes when the loop has done the first `j` contexts. */
  ghost predicate ExitUpTo(k: State, status: int, j: nat, ctx: map<Pid, Context>)
    requires k.sched.i < |k.sched.inner| && k.Cur() in k.Ctx() && j <= |k.sched.inner|
  {
    var p := k.Cur();
    var ppid := k.Ctx()[p].ppid;
    && ctx.Keys == k.Ctx().Keys
    && forall y :: y in ctx ==> ctx[y] == ExitPart(k, status, y, y in k.sched.inner[..j], ppid in k.sched.inner[..j])
  }

  function ExitPart(k: State, status: int, y: Pid, done: bool, sent: bool): Context
    requires k.sched.i < |k.sched.inner| && k.Cur() in k.Ctx() && y in k.Ctx()
  {
    var p := k.Cur();
    var c0 := k.Ctx()[y];
    var ppid, gift := k.Ctx()[p].ppid, map[p := status] + k.Ctx()[p].statuses.inner;
    var c := if done then AfterExit(y, c0, p, ppid, gift)
             else if y == p then c0.(exited := true, statuses := c0.statuses.(inner := map[])) else c0;
    if sent && ppid in k.Ctx() && y in k.Ctx()[ppid].statuses.waiters then c.(blocked := false) else c
  }

  lemma ExitStart(k: State, status: int)
    requires k.sched.i < |k.sched.inner| && k.Cur() in k.Ctx()
    ensures var p := k.Cur();
            ExitUpTo(k, status, 0,
              k.Ctx()[p := k.Ctx()[p].(exited := true, statuses := k.Ctx()[p].statuses.(inner := map[]))])
  {
  }

  lemma ListedHaveBoxes(k: State)
    requires Inv(k)
    ensures forall p :: p in k.sched.inner ==> p in k.Ctx()
  {
  }

  /** What one turn of the loop does to the boxes. */
  predicate ExitTurn(k: State, status: int, x: Pid, was: map<Pid, Context>, ctx: map<Pid, Context>)
    requires k.sched.i < |k.sched.inner| && k.Cur() in k.Ctx()
  {
    var p := k.Cur();
    var ppid, gift := k.Ctx()[p].ppid, map[p := status] + k.Ctx()[p].statuses.inner;
    && x in was
    && var mid := if x == ppid then StatusSent(was, x, gift) else was;
    && x in mid && ctx == if mid[x].ppid == p then mid[x := mid[x].(ppid := ppid)] else mid
  }

  lemma ExitOneMore(k: State, status: int, j: nat, was: map<Pid, Context>, ctx: map<Pid, Context>)
    requires Inv(k) && k.Cur() in k.Ctx() && j < |k.sched.inner| && ExitUpTo(k, status, j, was)
    requires ExitTurn(k, status, k.sched.inner[j], was, ctx)
    ensures ExitUpTo(k, status, j + 1, ctx)
  {
    hide StatusSent, Consistent, NoDup, ExitPart;
    var p, x := k.Cur(), k.sched.inner[j];
    var ppid, gift := k.Ctx()[p].ppid, map[p := status] + k.Ctx()[p].statuses.inner;
    NotBefore(k.sched.inner, j);
    if x == ppid {
      SentKeys(was, x, gift);
    }
    forall y | y in ctx
      ensures ctx[y] == ExitPart(k, status, y, y in k.sched.inner[..j + 1], ppid in k.sched.inner[..j + 1])
    {
      if x == ppid {
        ExitAtParent(k, status, was, ctx, y, y in k.sched.inner[..j]);
      } else {
        ExitElsewhere(k, status, x, was, ctx, y, y in k.sched.inner[..j], ppid in k.sched.inner[..j]);
      }
    }
  }

  lemma ExitElsewhere(k: State, status: int, x: Pid, was: map<Pid, Context>, ctx: map<Pid, Context>, y: Pid,
                      done: bool, sent: bool)
    requires k.sched.i < |k.sched.inner| && k.Cur() in k.Ctx() && x in k.Ctx() && y in k.Ctx()
    requires x != k.Ctx()[k.Cur()].ppid && ExitTurn(k, status, x, was, ctx)
    requires y in was && was[y] == ExitPart(k, status, y, done, sent) && (y == x ==> !done)
    ensures y in ctx && ctx[y] == ExitPart(k, status, y, done || y == x, sent)
  {
    hide StatusSent;
  }

  lemma ExitAtParent(k: State, status: int, was: map<Pid, Context>, ctx: map<Pid, Context>, y: Pid, done: bool)
    requires k.sched.i < |k.sched.inner| && k.Cur() in k.Ctx() && y in k.Ctx()
    requires var x := k.Ctx()[k.Cur()].ppid;
             && x in k.Ctx() && x in was && ExitTurn(k, status, x, was, ctx)
             && was[x] == ExitPart(k, status, x, false, false)
             && y in was && was[y] == ExitPart(k, status, y, done, false) && (y == x ==> !done)
    ensures y in ctx && ctx[y] == ExitPart(k, status, y, done || y == k.Ctx()[k.Cur()].ppid, true)
  {
    hide StatusSent;
    var x := k.Ctx()[k.Cur()].ppid;
    SentKeys(was, x, map[k.Cur() := status] + k.Ctx()[k.Cur()].statuses.inner);
  }

  lemma NotBefore(s: seq<Pid>, j: nat)
    requires NoDup(s) && j < |s|
    ensures s[j] !in s[..j]
  {
  }

  lemma ExitDone(k: State, status: int, ctx: map<Pid, Context>)
    requires Inv(k) && ExitUpTo(k, status, |k.sched.inner|, ctx)
    ensures ctx == ExitOn(k, status).Ctx()
  {
    hide AfterExit, ExitBoxes, Consistent;
    ExitedBox(k.Ctx(), k.Cur(), status);
    assert k.sched.inner[..|k.sched.inner|] == k.sched.inner;
  }
}
