/** The load statistics of the API server: one slot for each of the last sixty seconds, shared by the
    workers, which record finished jobs, and the monitor, which reads the total. */
module ApiWindow {
  const WINDOW: nat := 60   // PROCESS_WINDOW

  /** A finished job: the second it finished in, and how long it took. */
  datatype Job = Job(at: nat, elapsed: real)

  function Slot(t: nat): nat { t % WINDOW }

  /** How many seconds before `t` the second of slot `s` was. */
  function Age(t: int, s: nat): (a: nat)
    requires s < WINDOW
    ensures a < WINDOW
  {
    (t - s) % WINDOW
  }

  /** The one second of the sixty up to `t` that maps to slot `s`. */
  function SecondOf(t: int, s: nat): int
    requires s < WINDOW
  {
    t - Age(t, s)
  }

  lemma SecondUnique(t: int, s: nat, x: nat)
    requires s < WINDOW
    ensures t - WINDOW < x <= t && Slot(x) == s <==> x == SecondOf(t, s)
  {
  }

  function Finished(jobs: seq<Job>, second: int): nat {
    if jobs == [] then 0 else Finished(jobs[1..], second) + if jobs[0].at == second then 1 else 0
  }

  function Spent(jobs: seq<Job>, second: int): real {
    if jobs == [] then 0.0 else Spent(jobs[1..], second) + if jobs[0].at == second then jobs[0].elapsed else 0.0
  }

  /** Jobs finished in the sixty seconds up to `t`. */
  function Recent(jobs: seq<Job>, t: int): nat {
    if jobs == [] then 0 else Recent(jobs[1..], t) + if t - WINDOW < jobs[0].at <= t then 1 else 0
  }

  /** The time they took. */
  function RecentTime(jobs: seq<Job>, t: int): real {
    if jobs == [] then 0.0 else RecentTime(jobs[1..], t) + if t - WINDOW < jobs[0].at <= t then jobs[0].elapsed else 0.0
  }

  lemma {:induction false} FinishedSnoc(jobs: seq<Job>, j: Job, second: int)
    ensures Finished(jobs + [j], second) == Finished(jobs, second) + if j.at == second then 1 else 0
    ensures Spent(jobs + [j], second) == Spent(jobs, second) + if j.at == second then j.elapsed else 0.0
  {
    if jobs == [] {
      assert (jobs + [j])[1..] == [];
    } else {
      FinishedSnoc(jobs[1..], j, second);
      assert (jobs + [j])[1..] == jobs[1..] + [j];
    }
  }

  lemma {:induction false} NoneLater(jobs: seq<Job>, second: int)
    requires forall k :: 0 <= k < |jobs| ==> jobs[k].at < second
    ensures Finished(jobs, second) == 0 && Spent(jobs, second) == 0.0
  {
    if jobs != [] { NoneLater(jobs[1..], second); }
  }

  /** Slots summed up to `n`. */
  function Total(jobs: seq<Job>, t: int, n: nat): nat
    requires n <= WINDOW
  {
    if n == 0 then 0 else Total(jobs, t, n - 1) + Finished(jobs, SecondOf(t, n - 1))
  }

  function TotalTime(jobs: seq<Job>, t: int, n: nat): real
    requires n <= WINDOW
  {
    if n == 0 then 0.0 else TotalTime(jobs, t, n - 1) + Spent(jobs, SecondOf(t, n - 1))
  }

  lemma {:induction false} TotalNone(t: int, n: nat)
    requires n <= WINDOW
    ensures Total([], t, n) == 0 && TotalTime([], t, n) == 0.0
  {
    if n > 0 { TotalNone(t, n - 1); }
  }

  lemma {:induction false} TotalFirst(jobs: seq<Job>, t: int, n: nat)
    requires jobs != [] && n <= WINDOW
    ensures Total(jobs, t, n) == Total(jobs[1..], t, n) +
            if t - WINDOW < jobs[0].at <= t && Slot(jobs[0].at) < n then 1 else 0
    ensures TotalTime(jobs, t, n) == TotalTime(jobs[1..], t, n) +
            if t - WINDOW < jobs[0].at <= t && Slot(jobs[0].at) < n then jobs[0].elapsed else 0.0
  {
    if n > 0 {
      TotalFirst(jobs, t, n - 1);
      SecondUnique(t, n - 1, jobs[0].at);
    }
  }

  /** The sums over the slots are the number of jobs in the sliding window and the time they took. */
  lemma {:induction false} TotalIsRecent(jobs: seq<Job>, t: int)
    ensures Total(jobs, t, WINDOW) == Recent(jobs, t) && TotalTime(jobs, t, WINDOW) == RecentTime(jobs, t)
  {
    if jobs == [] {
      TotalNone(t, WINDOW);
    } else {
      TotalIsRecent(jobs[1..], t);
      TotalFirst(jobs, t, WINDOW);
    }
  }

  class Load {
    const count: array<int>
    const time: array<real>
    var last: nat             // last_update
    ghost var jobs: seq<Job>

    ghost predicate SlotRight(s: nat)
      requires s < WINDOW && count.Length == time.Length == WINDOW
      reads this, count, time
    {
      count[s] == Finished(jobs, SecondOf(last, s)) && time[s] == Spent(jobs, SecondOf(last, s))
    }

    /** Each slot is right for its second of the last sixty, and no job is later than that. */
    ghost predicate Valid()
      reads this, count, time
    {
      count.Length == time.Length == WINDOW && (forall k :: 0 <= k < |jobs| ==> jobs[k].at <= last) &&
      forall s: nat :: s < WINDOW ==> SlotRight(s)
    }

    constructor ()
      ensures Valid() && jobs == [] && last == 0 && fresh(count) && fresh(time)
    {
      count := new int[WINDOW](_ => 0);
      time := new real[WINDOW](_ => 0.0);
      last, jobs := 0, [];
    }

    /** Empties the slots of the `n` seconds up to `now`, going backwards. */
    method Clear(now: nat, n: nat)
      requires count.Length == time.Length == WINDOW && n <= WINDOW
      modifies count, time
      ensures forall s: nat :: s < WINDOW ==> count[s] == if Age(now, s) < n then 0 else old(count[s])
      ensures forall s: nat :: s < WINDOW ==> time[s] == if Age(now, s) < n then 0.0 else old(time[s])
    {
      hide Age;
      var left := n;
      var cur: int := Slot(now);
      AgeNow(now);
      while left > 0
        invariant 0 <= left <= n && (left > 0 ==> 0 <= cur < WINDOW && Age(now, cur) == n - left)
        invariant forall s: nat :: s < WINDOW ==> count[s] == if Age(now, s) < n - left then 0 else old(count[s])
        invariant forall s: nat :: s < WINDOW ==> time[s] == if Age(now, s) < n - left then 0.0 else old(time[s])
      {
        left := left - 1;
        AgeOnce(now, cur);
        if left > 0 { AgeBack(now, cur); }
        count[cur] := 0;
        time[cur] := 0.0;
        if left <= 0 { break; }
        cur := cur - 1;
        if cur < 0 { cur := WINDOW - 1; }
      }
    }

    /** Moves the window up to `now`: the slots of the seconds since then are emptied. */
    method Advance(now: nat)
      requires Valid()
      modifies this`last, count, time
      ensures Valid() && last == if old(last) < now then now else old(last)
      ensures now <= old(last) ==> count[..] == old(count[..]) && time[..] == old(time[..])
    {
      if last >= now { return; }
      var n := if now - last > WINDOW then WINDOW else now - last;
      Clear(now, n);
      ghost var before := last;
      last := now;
      forall s: nat | s < WINDOW ensures SlotRight(s) {
        assert old(SlotRight(s));
        if Age(now, s) < n { NoneLater(jobs, SecondOf(now, s)); } else { SameSecond(before, now, s); }
      }
    }

    /** A worker records a job that finished in second `t`, perhaps after others have gone ahead. */
    method Record(t: nat, elapsed: real)
      requires Valid()
      modifies this, count, time
      ensures last == (if old(last) < t then t else old(last)) && jobs == old(jobs) + [Job(t, elapsed)]
      ensures Valid() <==> t > old(last) - WINDOW
      ensures t <= old(last) ==> count[..] == old(count[..])[t % WINDOW := old(count[t % WINDOW]) + 1]
      ensures t <= old(last) ==> time[..] == old(time[..])[t % WINDOW := old(time[t % WINDOW]) + elapsed]
    {
      var s := Slot(t);
      Advance(t);
      ghost var j, js := Job(t, elapsed), jobs;
      ghost var c, d := count[..], time[..];
      assert forall k: nat :: k < WINDOW ==>
               c[k] == Finished(js, SecondOf(last, k)) && d[k] == Spent(js, SecondOf(last, k)) by {
        forall k: nat | k < WINDOW
          ensures c[k] == Finished(js, SecondOf(last, k)) && d[k] == Spent(js, SecondOf(last, k))
        {
          assert SlotRight(k);
        }
      }
      count[s] := count[s] + 1;
      time[s] := time[s] + elapsed;
      jobs := jobs + [j];
      SecondUnique(last, s, t);
      forall k: nat | k < WINDOW ensures SlotRight(k) <==> t > last - WINDOW || k != s {
        FinishedSnoc(js, j, SecondOf(last, k));
        SecondUnique(last, k, t);
        assert k != s ==> count[k] == c[k] && time[k] == d[k];
      }
      if t <= last - WINDOW { assert !SlotRight(s); }
    }

    /** The monitor brings the window up to date and adds it up. */
    method Monitor(now: nat) returns (total: int, spent: real)
      requires Valid()
      modifies this`last, count, time
      ensures Valid() && total == Recent(jobs, last) && spent == RecentTime(jobs, last)
      ensures last == if old(last) < now then now else old(last)
    {
      Advance(now);
      total, spent := 0, 0.0;
      for k := 0 to WINDOW
        invariant total == Total(jobs, last, k) && spent == TotalTime(jobs, last, k)
      {
        assert SlotRight(k);
        total, spent := total + count[k], spent + time[k];
      }
      TotalIsRecent(jobs, last);
    }
  }

  /** A job from second 0 recorded when the window has moved on to second 60 is counted there. */
  method LateJob(elapsed: real) returns (w: Load)
    ensures fresh(w) && !w.Valid() && w.jobs == [Job(0, elapsed)] && w.last == WINDOW
  {
    w := new Load();
    var _, _ := w.Monitor(WINDOW);
    w.Record(0, elapsed);
  }

  lemma AgeOnce(t: int, s: nat)
    requires s < WINDOW
    ensures forall k: nat :: k < WINDOW && Age(t, k) == Age(t, s) ==> k == s
  {
  }

  lemma AgeNow(t: nat)
    ensures Age(t, Slot(t)) == 0
  {
  }

  lemma AgeBack(t: int, s: nat)
    requires s < WINDOW && Age(t, s) + 1 < WINDOW
    ensures Age(t, if s == 0 then WINDOW - 1 else s - 1) == Age(t, s) + 1
  {
  }

  lemma SameSecond(before: int, now: int, s: nat)
    requires s < WINDOW && before < now && now - before <= Age(now, s)
    ensures SecondOf(now, s) == SecondOf(before, s)
  {
  }
}
