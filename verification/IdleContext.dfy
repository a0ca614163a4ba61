/** What the context switch owes to the idle context at index 0 (kernel/arch/context.rs:90-174,
    kernel/main.rs:204-224).

    `Roam` is the search without any promise: the two nested loops of `context_switch` and `clean`, one
    turn at a time.  The switch saves the old context's registers through the index it remembered, and
    that index goes wrong when a context at or before it is removed. */
module IdleContext {
  import opened Common
  import opened Scheduler

  predicate Due(c: Context, now: int) { c.wake.Some? && c.wake.value <= now }

  ghost predicate Matched(s: Sched) {
    NoDup(s.inner) && forall p :: p in s.inner ==> p in s.ctx
  }

  /** The search from `k`, at most so many turns of it: wrap around, remove, stop, or go on. */
  ghost function Roam(s: Sched, k: nat, home: nat, now: int, turns: nat): Sched
    requires Matched(s)
    decreases turns
  {
    if turns == 0 || s.inner == [] then s.(i := k)
    else if k >= |s.inner| then Roam(s, k - |s.inner|, home, now, turns - 1)
    else
      var p := s.inner[k];
      var c := s.ctx[p];
      if c.exited then
        ReapMatches(s, k);
        Roam(Reap(s, k), k, home, now, turns - 1)
      else if !c.blocked then s.(i := k)
      else if Due(c, now) then s.(ctx := WakeUp(s.ctx, p), i := k)
      else if k == home then s.(i := k)
      else Roam(s, k + 1, home, now, turns - 1)
  }

  /** The search of a switch, at most so many turns of it. */
  ghost function Searched(s: Sched, now: int, turns: nat): Sched
    requires Matched(s) && s.i < |s.inner|
  {
    Roam(s, s.i + 1, s.i, now, turns)
  }

  /** The remembered index still names the context that was running. */
  predicate Names(s: Sched, z: Sched)
    requires s.i < |s.inner|
  {
    s.i < |z.inner| && z.inner[s.i] == s.Current()
  }

  /** From the front up to `home`, no exited context comes before the first that stops the search. */
  ghost predicate HeadSafe(s: Sched, j: nat, home: nat, now: int)
    requires Matched(s) && home < |s.inner|
    decreases home - j
  {
    if j > home then true
    else
      var c := s.ctx[s.inner[j]];
      !c.exited && (!c.blocked || Due(c, now) || HeadSafe(s, j + 1, home, now))
  }

  /** Either a context behind the running one stops the search, or none in front of it is removed
      before one there does. */
  ghost predicate IndexHolds(s: Sched, now: int)
    requires Matched(s) && s.i < |s.inner|
  {
    var w := SearchOn(s, s.i + 1, now);
    TailKept(s, s.i + 1, s.i, now);
    w.i != 0 || HeadSafe(w, 0, s.i, now)
  }

  // ---------------------------------------------------------------- behind the running context

  /** Searching to the end of the list leaves everything up to `home` where it was. */
  lemma {:induction false} TailKept(s: Sched, k: nat, home: nat, now: int)
    requires Matched(s) && home < k <= |s.inner|
    ensures var w := SearchOn(s, k, now);
            && Matched(w) && home < |w.inner| && w.inner[..home + 1] == s.inner[..home + 1] && (w.i == 0 || k <= w.i)
    decreases |s.inner| - k
  {
    hide Reap, NoDup;
    if k < |s.inner| {
      if s.ctx[s.inner[k]].exited {
        ReapMatches(s, k);
        ReapShape(s, k);
        TailKept(Reap(s, k), k, home, now);
        assert Reap(s, k).inner[..home + 1] == s.inner[..home + 1];
      } else {
        TailKept(s, k + 1, home, now);
      }
    }
  }

  /** What is up to `home` is in place, or the search has wrapped around and goes on in front. */
  ghost predicate Behind(front: seq<Pid>, w: Sched, home: nat, now: int, z: Sched) {
    || z.inner[..Min(home + 1, |z.inner|)] == front
    || (Matched(w) && w.i == 0 && exists m: nat :: z == Roam(w, 0, home, now, m))
  }

  /** Until it wraps around, the search keeps what is up to `home` in place; then it goes on in front. */
  lemma {:induction false} TailRoams(s: Sched, k: nat, home: nat, now: int, turns: nat)
    requires Matched(s) && home < k <= |s.inner|
    ensures Behind(s.inner[..home + 1], SearchOn(s, k, now), home, now, Roam(s, k, home, now, turns))
    decreases turns
  {
    hide Reap, NoDup;
    var w, z := SearchOn(s, k, now), Roam(s, k, home, now, turns);
    if turns > 0 && k == |s.inner| {
      RoamIgnoresCursor(s, 0, 0, home, now, turns - 1);
      assert z == Roam(w, 0, home, now, turns - 1);
    } else if turns > 0 {
      hide Behind;
      if s.ctx[s.inner[k]].exited {
        ReapMatches(s, k);
        ReapShape(s, k);
        TailRoams(Reap(s, k), k, home, now, turns - 1);
        assert Reap(s, k).inner[..home + 1] == s.inner[..home + 1];
      } else if s.ctx[s.inner[k]].blocked && !Due(s.ctx[s.inner[k]], now) {
        TailRoams(s, k + 1, home, now, turns - 1);
      } else {
        BehindSame(s, w, home, now, z);
      }
    }
  }

  lemma BehindSame(s: Sched, w: Sched, home: nat, now: int, z: Sched)
    requires z.inner == s.inner && home < |s.inner|
    ensures Behind(s.inner[..home + 1], w, home, now, z)
  {
  }

  /** Where the cursor was before makes no difference. */
  lemma {:induction false} RoamIgnoresCursor(s: Sched, i: nat, k: nat, home: nat, now: int, turns: nat)
    requires Matched(s)
    ensures Matched(s.(i := i)) && Roam(s.(i := i), k, home, now, turns) == Roam(s, k, home, now, turns)
    decreases turns
  {
    hide NoDup;
    if turns > 0 && s.inner != [] {
      if k >= |s.inner| {
        RoamIgnoresCursor(s, i, k - |s.inner|, home, now, turns - 1);
      } else if s.ctx[s.inner[k]].exited {
        ReapMatches(s, k);
        RoamIgnoresCursor(Reap(s, k), i, k, home, now, turns - 1);
        assert Reap(s.(i := i), k) == Reap(s, k).(i := i);
      } else {
        RoamIgnoresCursor(s, i, k + 1, home, now, turns - 1);
      }
    }
  }

  /** After enough turns the search has stopped behind the running context, or goes on in front. */
  lemma {:induction false} TailEnds(s: Sched, k: nat, home: nat, now: int) returns (n: nat)
    requires Matched(s) && home < k <= |s.inner|
    ensures Matched(SearchOn(s, k, now))
    ensures forall m: nat :: m >= n ==> Roam(s, k, home, now, m) == TailGoal(SearchOn(s, k, now), home, now, m - n)
    decreases |s.inner| - k
  {
    hide Reap, NoDup;
    TailKept(s, k, home, now);
    var w := SearchOn(s, k, now);
    if k == |s.inner| {
      n := 1;
      forall m: nat | m >= n
        ensures Roam(s, k, home, now, m) == TailGoal(w, home, now, m - n)
      {
        RoamIgnoresCursor(s, 0, 0, home, now, m - 1);
      }
    } else {
      var c := s.ctx[s.inner[k]];
      if c.exited {
        ReapMatches(s, k);
        ReapShape(s, k);
        var rest := TailEnds(Reap(s, k), k, home, now);
        n := rest + 1;
        forall m: nat | m >= n
          ensures Roam(s, k, home, now, m) == TailGoal(w, home, now, m - n)
        {
          assert Roam(s, k, home, now, m) == Roam(Reap(s, k), k, home, now, m - 1);
        }
      } else if !c.blocked || Due(c, now) {
        n := 1;
      } else {
        var rest := TailEnds(s, k + 1, home, now);
        n := rest + 1;
        forall m: nat | m >= n
          ensures Roam(s, k, home, now, m) == TailGoal(w, home, now, m - n)
        {
          assert Roam(s, k, home, now, m) == Roam(s, k + 1, home, now, m - 1);
        }
      }
    }
  }

  ghost function TailGoal(w: Sched, home: nat, now: int, turns: nat): Sched
    requires Matched(w)
  {
    if w.i != 0 then w else Roam(w, 0, home, now, turns)
  }

  // ---------------------------------------------------------------- in front of the running context

  /** A safe head is searched without removing anything. */
  lemma {:induction false} HeadKept(s: Sched, j: nat, home: nat, now: int, turns: nat)
    requires Matched(s) && j <= home < |s.inner| && HeadSafe(s, j, home, now)
    ensures Roam(s, j, home, now, turns).inner == s.inner
    decreases turns
  {
    if turns > 0 && j < home {
      if HeadSafe(s, j + 1, home, now) {
        HeadKept(s, j + 1, home, now, turns - 1);
      }
    }
  }

  predicate GoneFrom(inner: seq<Pid>, home: nat, p: Pid) {
    forall j :: home <= j < |inner| ==> inner[j] != p
  }

  /** Removing at or in front of `home` moves what was there away from it. */
  lemma ReapMoves(s: Sched, k: nat, home: nat)
    requires Matched(s) && k <= home < |s.inner|
    ensures GoneFrom(Reap(s, k).inner, home, s.inner[home])
  {
    ReapShape(s, k);
    var r := Reap(s, k).inner;
    forall j | home <= j < |r|
      ensures r[j] != s.inner[home]
    {
      assert r[j] == s.inner[j + 1];
    }
  }

  /** It never comes back: contexts only move to the front. */
  lemma {:induction false} StaysGone(s: Sched, k: nat, home: nat, now: int, turns: nat, p: Pid)
    requires Matched(s) && GoneFrom(s.inner, home, p)
    ensures GoneFrom(Roam(s, k, home, now, turns).inner, home, p)
    decreases turns
  {
    hide Reap, NoDup;
    if turns > 0 && s.inner != [] {
      if k >= |s.inner| {
        StaysGone(s, k - |s.inner|, home, now, turns - 1, p);
      } else if s.ctx[s.inner[k]].exited {
        ReapMatches(s, k);
        ReapShape(s, k);
        var r := Reap(s, k).inner;
        assert forall j :: 0 <= j < |r| ==> r[j] == s.inner[if j < k then j else j + 1];
        StaysGone(Reap(s, k), k, home, now, turns - 1, p);
      } else {
        StaysGone(s, k + 1, home, now, turns - 1, p);
      }
    }
  }

  /** In an unsafe head an exited context at or in front of `home` is removed, and from then on what was at
      `home` is no longer there. */
  lemma {:induction false} HeadLost(s: Sched, j: nat, home: nat, now: int) returns (n: nat)
    requires Matched(s) && j <= home < |s.inner| && !HeadSafe(s, j, home, now)
    ensures forall m: nat :: m >= n ==> GoneFrom(Roam(s, j, home, now, m).inner, home, s.inner[home])
    decreases home - j
  {
    hide Reap, NoDup, GoneFrom;
    if s.ctx[s.inner[j]].exited {
      n := 1;
      ReapMatches(s, j);
      ReapMoves(s, j, home);
      forall m: nat | m >= n
        ensures GoneFrom(Roam(s, j, home, now, m).inner, home, s.inner[home])
      {
        StaysGone(Reap(s, j), j, home, now, m - 1, s.inner[home]);
      }
    } else {
      var rest := HeadLost(s, j + 1, home, now);
      n := rest + 1;
      forall m: nat | m >= n
        ensures GoneFrom(Roam(s, j, home, now, m).inner, home, s.inner[home])
      {
        assert Roam(s, j, home, now, m) == Roam(s, j + 1, home, now, m - 1);
      }
    }
  }

  // ---------------------------------------------------------------- when the index goes wrong

  /** However long the search goes on, the remembered index names the context that was running, if and
      only if the condition holds; where it does not, there is a turn from which on the index never does. */
  lemma IndexKept(s: Sched, now: int)
    requires Matched(s) && s.i < |s.inner|
    ensures (forall m: nat :: Names(s, Searched(s, now, m))) <==> IndexHolds(s, now)
    ensures !IndexHolds(s, now) ==> exists n: nat :: LostFrom(s, now, n)
  {
    hide SearchOn, HeadSafe, Roam, NoDup;
    var home, k := s.i, s.i + 1;
    TailKept(s, k, home, now);
    var w := SearchOn(s, k, now);
    assert w.inner[..home + 1][home] == s.inner[..home + 1][home];
    if IndexHolds(s, now) {
      forall m: nat
        ensures Names(s, Searched(s, now, m))
      {
        SafeNames(s, now, m);
      }
    } else {
      var n := TailEnds(s, k, home, now);
      var h := HeadLost(w, 0, home, now);
      forall m: nat | m >= n + h
        ensures !Names(s, Searched(s, now, m))
      {
        assert Searched(s, now, m) == TailGoal(w, home, now, m - n);
        assert GoneFrom(Roam(w, 0, home, now, m - n).inner, home, w.inner[home]);
      }
      assert !Names(s, Searched(s, now, n + h));
      assert LostFrom(s, now, n + h);
    }
  }

  ghost predicate LostFrom(s: Sched, now: int, n: nat)
    requires Matched(s) && s.i < |s.inner|
  {
    forall m: nat :: m >= n ==> !Names(s, Searched(s, now, m))
  }

  lemma SafeNames(s: Sched, now: int, turns: nat)
    requires Matched(s) && s.i < |s.inner| && IndexHolds(s, now)
    ensures Names(s, Searched(s, now, turns))
  {
    hide SearchOn, HeadSafe, Roam, NoDup;
    var home, z := s.i, Roam(s, s.i + 1, s.i, now, turns);
    TailKept(s, s.i + 1, home, now);
    TailRoams(s, s.i + 1, home, now, turns);
    var w := SearchOn(s, s.i + 1, now);
    assert w.inner[..home + 1][home] == s.inner[..home + 1][home];
    var front := z.inner[..Min(home + 1, |z.inner|)];
    if front == s.inner[..home + 1] {
      assert |front| == home + 1 && front[home] == s.inner[home];
    } else {
      var m: nat :| z == Roam(w, 0, home, now, m);
      HeadKept(w, 0, home, now, m);
    }
  }

  /** An idle context at index 0 that can run keeps the index, and then `Roam` is the search of the switch. */
  lemma IdleKeepsIndex(s: Sched, now: int) returns (n: nat)
    requires s.Ok()
    ensures IndexHolds(s, now)
    ensures forall m: nat :: m >= n ==> Searched(s, now, m) == SearchOn(s, s.i + 1, now)
  {
    hide SearchOn, NoDup;
    SearchStops(s, s.i + 1, now) by { assert Searchable(s); }
    TailKept(s, s.i + 1, s.i, now);
    var w := SearchOn(s, s.i + 1, now);
    var tail := TailEnds(s, s.i + 1, s.i, now);
    n := tail + 1;
    forall m: nat | m >= n
      ensures Searched(s, now, m) == w
    {
      assert Searched(s, now, m) == TailGoal(w, s.i, now, m - tail);
    }
  }

  // ---------------------------------------------------------------- an input

  function Plain(blocked: bool, exited: bool): Context {
    Context(0, blocked, exited, None, None, 0, Mailbox(map[], []), Ready)
  }

  /** Context 3 runs at index 2; index 0 holds a blocked context instead of the idle one, and context 2
      has exited. */
  const NO_IDLE: Sched :=
    Sched([1, 2, 3, 4],
          map[1 := Plain(true, false), 2 := Plain(false, true), 3 := Plain(false, false), 4 := Plain(true, false)],
          2)

  lemma IdleNeeded()
    ensures Matched(NO_IDLE) && !IndexHolds(NO_IDLE, 0)
  {
    var w := SearchOn(NO_IDLE, 3, 0);
    assert w == NO_IDLE.(i := 0) by { assert SearchOn(NO_IDLE, 4, 0) == NO_IDLE.(i := 0); }
    assert !HeadSafe(w, 1, 2, 0);
  }
}
