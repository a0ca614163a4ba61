/** Bounded waiting (kernel/arch/context.rs:90-174). */
module Fairness {
  import opened Scheduler

  function Pos(inner: seq<Pid>, p: Pid): (k: nat)
    requires p in inner
    ensures k < |inner| && inner[k] == p
    ensures forall j :: 0 <= j < k ==> inner[j] != p
  {
    if inner[0] == p then 0 else 1 + Pos(inner[1..], p)
  }

  /** How many positions the cursor is away from `p`, going forward and around. */
  function Distance(s: Sched, p: Pid): nat
    requires p in s.inner && s.i < |s.inner|
  {
    var t := Pos(s.inner, p);
    if t >= s.i then t - s.i else t + |s.inner| - s.i
  }

  lemma PosIs(inner: seq<Pid>, p: Pid, k: nat)
    requires NoDup(inner) && k < |inner| && inner[k] == p
    ensures Pos(inner, p) == k
  {
  }

  /** A search from `k` in a list of `n` ended at or before `p`, which was at `t`. */
  predicate Reached(n: nat, k: nat, t: nat, p: Pid, r: Sched) {
    var u := t + |r.inner| - n;
    k <= r.i <= u < |r.inner| && r.inner[u] == p
  }

  /** A runnable context ahead of the search is not passed. */
  lemma {:induction false} SearchReaches(s: Sched, k: nat, now: int, t: nat)
    requires Searchable(s) && 0 < k <= t < |s.inner| && s.Runnable(s.inner[t])
    ensures Reached(|s.inner|, k, t, s.inner[t], SearchOn(s, k, now))
    decreases |s.inner| - k
  {
    hide Reap, NoDup, Reached;
    if s.ctx[s.inner[k]].exited {
      hide Searchable, WakeUp, Sched.Runnable;
      RunnableStays(s, k, t);
      SearchReaches(Reap(s, k), k, now, t - 1);
      ReachedLater(|s.inner| - 1, k, k, t - 1, s.inner[t], SearchOn(Reap(s, k), k, now));
    } else if k < t && s.ctx[s.inner[k]].blocked {
      hide Searchable, WakeUp, Sched.Runnable;
      SearchReaches(s, k + 1, now, t);
      ReachedLater(|s.inner|, k + 1, k, t, s.inner[t], SearchOn(s, k + 1, now));
      ReachedAt(s, k, t, SearchOn(s, k, now));
    } else {
      ReachedAt(s, k, t, SearchOn(s, k, now));
    }
  }

  /** Removing an exited context at `k` moves a runnable one behind it one place up. */
  lemma RunnableStays(s: Sched, k: nat, t: nat)
    requires Searchable(s) && 0 < k <= t < |s.inner| && s.Runnable(s.inner[t]) && s.ctx[s.inner[k]].exited
    ensures k < t && Searchable(Reap(s, k)) && |Reap(s, k).inner| == |s.inner| - 1
    ensures Reap(s, k).inner[t - 1] == s.inner[t] && Reap(s, k).Runnable(s.inner[t])
  {
    hide Reap, NoDup;
    ReapSearchable(s, k);
    StillRunnable(s, k, s.inner[t]);
  }

  lemma ReachedLater(n: nat, j: nat, k: nat, t: nat, p: Pid, r: Sched)
    requires k <= j && Reached(n, j, t, p, r)
    ensures Reached(n, k, t, p, r) && Reached(n + 1, k, t + 1, p, r)
  {
  }

  lemma ReachedAt(s: Sched, k: nat, t: nat, r: Sched)
    requires k <= t < |s.inner|
    ensures r.inner == s.inner && r.i == k ==> Reached(|s.inner|, k, t, s.inner[t], r)
  {
  }

  lemma StillRunnable(s: Sched, k: nat, p: Pid)
    requires Searchable(s) && k < |s.inner| && s.ctx[s.inner[k]].exited && s.Runnable(p)
    ensures Reap(s, k).Runnable(p)
  {
    hide Reap;
    ReapMatches(s, k);
    assert AtMostWoken(s.ctx[p], Reap(s, k).ctx[p]);
  }

  lemma SwitchReaches(s: Sched, now: int, t: nat)
    requires s.Ok()
    ensures var r := SwitchOn(s, now);
            && r.Ok() && |r.inner| <= |s.inner| && (r.i == 0 || s.i < r.i)
            && (t < s.i ==> t < |r.inner| && r.inner[t] == s.inner[t])
            && (s.i < t < |s.inner| && s.Runnable(s.inner[t]) ==>
                  var u := t + |r.inner| - |s.inner|;
                  r.i <= u < |r.inner| && s.i < r.i && r.inner[u] == s.inner[t])
  {
    hide SearchOn, Sched.Runnable, Counted, OnlyWoken, NoDup;
    SwitchShape(s, now);
    SearchStops(s, s.i + 1, now) by { assert Searchable(s); }
    var r := SearchOn(s, s.i + 1, now);
    if t < s.i {
      assert r.inner[..s.i + 1][t] == s.inner[..s.i + 1][t];
    } else if s.i < t < |s.inner| && s.Runnable(s.inner[t]) {
      SearchReaches(s, s.i + 1, now, t);
    }
  }

  lemma SwitchShape(s: Sched, now: int)
    requires s.Ok()
    ensures var r, d := SwitchOn(s, now), SearchOn(s, s.i + 1, now);
            r.Ok() && r.inner == d.inner && r.i == d.i
  {
    hide SearchOn;
    SwitchKeeps(s, now);
  }

  /** Every switch brings the cursor closer to a context that can run, or onto it. */
  lemma SwitchCloser(s: Sched, now: int, p: Pid)
    requires s.Ok() && p in s.inner && s.Runnable(p) && s.Current() != p
    ensures var r := SwitchOn(s, now);
            r.Ok() && p in r.inner && r.i < |r.inner| && Distance(r, p) < Distance(s, p)
  {
    hide SwitchOn, Pos, Sched.Runnable, NoDup;
    var t := Pos(s.inner, p);
    SwitchReaches(s, now, t);
    var r := SwitchOn(s, now);
    if t > s.i {
      PosIs(r.inner, p, t + |r.inner| - |s.inner|);
    } else {
      PosIs(r.inner, p, t);
    }
  }

  /** A run of switches.  Between two of them the running context may do anything but create
      contexts, as long as `p` can still run: the list and cursor stay, the boxes change. */
  ghost predicate IsWait(states: seq<Sched>, before: seq<Sched>, times: seq<int>, p: Pid) {
    && |states| == |before| + 1 && |times| == |before|
    && p in states[0].inner && states[0].i < |states[0].inner|
    && forall k :: 0 <= k < |before| ==>
         && before[k].Ok() && before[k].Runnable(p)
         && before[k].inner == states[k].inner && before[k].i == states[k].i
         && states[k + 1] == SwitchOn(before[k], times[k])
  }

  /** A context that stays runnable runs after at most as many switches as its distance from the cursor. */
  lemma {:induction false} BoundedWaiting(states: seq<Sched>, before: seq<Sched>, times: seq<int>, p: Pid)
    requires IsWait(states, before, times, p) && |before| >= Distance(states[0], p)
    ensures exists k :: 0 <= k <= Distance(states[0], p) && states[k].i < |states[k].inner| && states[k].Current() == p
    decreases |before|
  {
    hide Pos, SwitchOn, Sched.Ok, Sched.Runnable;
    var d := Distance(states[0], p);
    if states[0].Current() != p {
      assert d > 0;
      assert Distance(before[0], p) == d;
      SwitchCloser(before[0], times[0], p);
      BoundedWaiting(states[1..], before[1..], times[1..], p);
      var k :| 0 <= k <= Distance(states[1], p) && states[1..][k].i < |states[1..][k].inner|
        && states[1..][k].Current() == p;
      assert states[k + 1] == states[1..][k];
    }
  }
}
