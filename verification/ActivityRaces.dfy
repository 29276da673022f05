// Overlapping activity transactions of one user: each inserts its day, computes the streaks from the days it can see, and
// then writes the cache and commits.
module ActivityRaces {
  import opened Prelude
  import opened Text
  import opened DayKeys
  import opened Streaks
  import opened ActivityRollup

  // A transaction sees the rows committed by the time it reads, and its own.
  datatype Txn = Inserted(day: string) | Computed(day: string, view: set<string>)

  // `cached` is history: the days from which the cached streaks were computed.
  datatype World = World(rows: set<string>, cached: set<string>, open: map<nat, Txn>)

  datatype Step = Insert(txn: nat, day: string) | Compute(txn: nat) | Finish(txn: nat)

  // A step that does not apply does nothing.
  function Next(w: World, e: Step): World {
    match e
    case Insert(txn, day) => if txn in w.open then w else w.(open := w.open[txn := Inserted(day)])
    case Compute(txn) =>
      if txn in w.open && w.open[txn].Inserted?
      then w.(open := w.open[txn := Computed(w.open[txn].day, w.rows + {w.open[txn].day})]) else w
    case Finish(txn) =>
      if txn in w.open && w.open[txn].Computed?
      then World(w.rows + {w.open[txn].day}, w.open[txn].view, w.open - {txn}) else w
  }

  function Run(w: World, steps: seq<Step>): World
    decreases |steps|
  {
    if steps == [] then w else Run(Next(w, steps[0]), steps[1..])
  }

  // The state before step `n` of a run.
  function At(w: World, steps: seq<Step>, n: nat): World
    requires n <= |steps|
  {
    Run(w, steps[..n])
  }

  lemma {:induction false} AtNext(w: World, steps: seq<Step>, n: nat)
    requires n < |steps|
    ensures At(w, steps, n + 1) == Next(At(w, steps, n), steps[n])
    decreases n
  {
    hide Next;
    if n == 0 {
      assert steps[..1] == [steps[0]] && steps[..0] == [];
      RunCons(w, steps[0], []);
      assert [steps[0]] + [] == [steps[0]];
    } else {
      AtNext(Next(w, steps[0]), steps[1..], n - 1);
      assert steps[..n + 1] == [steps[0]] + steps[1..][..n] && steps[..n] == [steps[0]] + steps[1..][..n - 1];
      RunCons(w, steps[0], steps[1..][..n]);
      RunCons(w, steps[0], steps[1..][..n - 1]);
    }
  }

  // The step computes the streaks of a transaction that has inserted its day.
  predicate Computes(w: World, e: Step) {
    e.Compute? && e.txn in w.open && w.open[e.txn].Inserted?
  }

  // The step commits a transaction that has computed the streaks.
  predicate Finishes(w: World, e: Step) {
    e.Finish? && e.txn in w.open && w.open[e.txn].Computed?
  }

  // Step `k` computes the streaks of a transaction that finishes at step `n`, and in between, at step `m`, another one
  // commits a day that was not there when the streaks were computed.
  predicate Overtakes(w: World, steps: seq<Step>, k: nat, m: nat, n: nat) {
    && k < m < n < |steps|
    && Computes(At(w, steps, k), steps[k]) && steps[n] == Finish(steps[k].txn) && Finish(steps[k].txn) !in steps[k + 1..n]
    && Finishes(At(w, steps, m), steps[m])
    && At(w, steps, m).open[steps[m].txn].day !in At(w, steps, k).rows + {At(w, steps, k).open[steps[k].txn].day}
  }

  // A computed view holds its own day and, beyond it, only days that are committed.
  ghost predicate ViewsOk(w: World) {
    forall t :: t in w.open && w.open[t].Computed? ==> w.open[t].day in w.open[t].view && w.open[t].view <= w.rows + {w.open[t].day}
  }

  ghost predicate Idle(w: World) {
    w.open == map[] && w.cached == w.rows
  }

  lemma {:induction false} RunKeepsViews(w: World, steps: seq<Step>, n: nat)
    requires Idle(w) && n <= |steps|
    ensures ViewsOk(At(w, steps, n)) && At(w, steps, n).cached <= At(w, steps, n).rows
  {
    if 0 < n {
      RunKeepsViews(w, steps, n - 1);
      AtNext(w, steps, n - 1);
      hide At;
    }
  }

  lemma {:induction false} RowsGrow(w: World, steps: seq<Step>, k: nat, n: nat)
    requires k <= n <= |steps|
    ensures At(w, steps, k).rows <= At(w, steps, n).rows
  {
    if k < n {
      RowsGrow(w, steps, k, n - 1);
      AtNext(w, steps, n - 1);
      hide At;
    }
  }

  // What a transaction computed stays with it until it finishes.
  lemma {:induction false} ViewStays(w: World, steps: seq<Step>, k: nat, n: nat)
    requires k < n <= |steps| && Computes(At(w, steps, k), steps[k]) && Finish(steps[k].txn) !in steps[k + 1..n]
    ensures var t, since := steps[k].txn, At(w, steps, k);
            && t in At(w, steps, n).open
            && At(w, steps, n).open[t] == Computed(since.open[t].day, since.rows + {since.open[t].day})
  {
    AtNext(w, steps, n - 1);
    hide At;
    if k + 1 < n {
      assert steps[k + 1..n] == steps[k + 1..n - 1] + [steps[n - 1]];
      ViewStays(w, steps, k, n - 1);
    }
  }

  // A transaction that has computed the streaks did so at some step, and has not finished since.
  lemma {:induction false} ComputedAt(w: World, steps: seq<Step>, n: nat, t: nat) returns (k: nat)
    requires Idle(w) && n <= |steps| && t in At(w, steps, n).open && At(w, steps, n).open[t].Computed?
    ensures k < n && steps[k] == Compute(t) && Computes(At(w, steps, k), steps[k]) && Finish(t) !in steps[k + 1..n]
  {
    assert n != 0 by { assert steps[..0] == []; }
    AtNext(w, steps, n - 1);
    hide At;
    if steps[n - 1] == Compute(t) && Computes(At(w, steps, n - 1), steps[n - 1]) {
      k := n - 1;
    } else {
      k := ComputedAt(w, steps, n - 1, t);
      assert steps[k + 1..n] == steps[k + 1..n - 1] + [steps[n - 1]];
    }
  }

  // A new row was committed by some step.
  lemma {:induction false} CommittedAt(w: World, steps: seq<Step>, k: nat, n: nat, day: string) returns (m: nat)
    requires k <= n <= |steps| && day in At(w, steps, n).rows && day !in At(w, steps, k).rows
    ensures k <= m < n && Finishes(At(w, steps, m), steps[m]) && At(w, steps, m).open[steps[m].txn].day == day
  {
    AtNext(w, steps, n - 1);
    hide At;
    if day in At(w, steps, n - 1).rows {
      m := CommittedAt(w, steps, k, n - 1, day);
    } else {
      m := n - 1;
    }
  }

  lemma CompleteStep(w: World, e: Step)
    requires ViewsOk(w) && w.cached == w.rows
    ensures Next(w, e).cached == Next(w, e).rows <==> !(Finishes(w, e) && !(w.rows <= w.open[e.txn].view))
  {
  }

  // The transaction that finishes at step `n` left a committed day out exactly when it was overtaken.
  lemma LeavesOutExactly(w: World, steps: seq<Step>, n: nat)
    requires Idle(w) && n < |steps| && Finishes(At(w, steps, n), steps[n])
    ensures At(w, steps, n).rows <= At(w, steps, n).open[steps[n].txn].view <==> forall k, m :: !Overtakes(w, steps, k, m, n)
  {
    hide At;
    var t, now := steps[n].txn, At(w, steps, n);
    if !(now.rows <= now.open[t].view) {
      var day :| day in now.rows && day !in now.open[t].view;
      var k := ComputedAt(w, steps, n, t);
      ViewStays(w, steps, k, n);
      var m := CommittedAt(w, steps, k, n, day);
      assert Overtakes(w, steps, k, m, n);
    }
    if k: nat, m: nat :| Overtakes(w, steps, k, m, n) {
      ViewStays(w, steps, k, n);
      AtNext(w, steps, m);
      RowsGrow(w, steps, m + 1, n);
    }
  }

  // From an idle start the cached streaks are those of all days at every point of a run exactly when no transaction is
  // overtaken: nobody commits an unseen day between its computing the streaks and its finishing.
  lemma CacheIsCompleteExactly(w: World, steps: seq<Step>)
    requires Idle(w)
    ensures (forall n :: 0 <= n <= |steps| ==> At(w, steps, n).cached == At(w, steps, n).rows) <==>
              forall k, m, n :: !Overtakes(w, steps, k, m, n)
  {
    hide At, Overtakes;
    if forall n :: 0 <= n <= |steps| ==> At(w, steps, n).cached == At(w, steps, n).rows {
      forall k: nat, m: nat, n: nat ensures !Overtakes(w, steps, k, m, n) {
        OvertakenFinishes(w, steps, k, m, n);
        if Overtakes(w, steps, k, m, n) {
          AtNext(w, steps, n);
          RunKeepsViews(w, steps, n);
          CompleteStep(At(w, steps, n), steps[n]);
          LeavesOutExactly(w, steps, n);
        }
      }
    }
    if forall k, m, n :: !Overtakes(w, steps, k, m, n) {
      forall n: nat | n <= |steps| ensures At(w, steps, n).cached == At(w, steps, n).rows { StaysComplete(w, steps, n); }
    }
  }

  lemma OvertakenFinishes(w: World, steps: seq<Step>, k: nat, m: nat, n: nat)
    ensures Overtakes(w, steps, k, m, n) ==> n < |steps| && Finishes(At(w, steps, n), steps[n])
  {
    if Overtakes(w, steps, k, m, n) { ViewStays(w, steps, k, n); }
    hide At;
  }

  lemma {:induction false} StaysComplete(w: World, steps: seq<Step>, n: nat)
    requires Idle(w) && n <= |steps| && forall k, m, i :: !Overtakes(w, steps, k, m, i)
    ensures At(w, steps, n).cached == At(w, steps, n).rows
  {
    if n == 0 {
      assert steps[..0] == [];
    } else {
      hide At, Overtakes, Next;
      StaysComplete(w, steps, n - 1);
      AtNext(w, steps, n - 1);
      RunKeepsViews(w, steps, n - 1);
      CompleteStep(At(w, steps, n - 1), steps[n - 1]);
      if Finishes(At(w, steps, n - 1), steps[n - 1]) { LeavesOutExactly(w, steps, n - 1); }
    }
  }

  // After any run the guard serves a wrong longest streak exactly when every day left out of the cache is earlier than the
  // cached last one and one of them lies in a run longer than the cached one; in a run without overtaking it never does.
  lemma ServedAfterRun(w: World, steps: seq<Step>, cache: Cache)
    requires Idle(w)
    requires var end := Run(w, steps);
             CacheOk(cache, end.cached) && end.cached != {} && forall s :: s in end.rows ==> IsDayKey(s)
    ensures var end := Run(w, steps);
            Served(Some(cache), end.rows) != LongestStreak(DayNumbers(end.rows)) <==>
              && (forall s :: s in end.rows && s !in end.cached ==> Before(s, cache.lastActiveDayKey.value))
              && (exists s :: s in end.rows && s !in end.cached && cache.longestStreak < RunAround(DayNumbers(end.rows), DayOf(s)))
    ensures (forall k, m, n :: !Overtakes(w, steps, k, m, n)) ==>
              Served(Some(cache), Run(w, steps).rows) == LongestStreak(DayNumbers(Run(w, steps).rows))
  {
    assert steps[..|steps|] == steps;
    assert At(w, steps, |steps|) == Run(w, steps);
    RunKeepsViews(w, steps, |steps|);
    var end := Run(w, steps);
    hide At, Run, Overtakes, IsDayKey, DayOf, Before, CacheOk, RunAround, LongestStreak, DayNumbers, Served, ViewsOk;
    GuardServesStaleExactly(cache, end.cached, end.rows);
    if forall k, m, n :: !Overtakes(w, steps, k, m, n) { StaysComplete(w, steps, |steps|); }
  }

  lemma RunCons(w: World, e: Step, steps: seq<Step>)
    ensures Run(w, [e] + steps) == Run(Next(w, e), steps)
  {
    assert ([e] + steps)[1..] == steps;
  }

  // Two transactions around midnight, the later day finishing last: the earlier day is missing from
  // what was cached.
  lemma MidnightRace(day: string, early: string, late: string)
    requires early != late && day != early && day != late
    ensures var end := Run(World({day}, {day}, map[]), [Insert(1, early), Compute(1), Insert(2, late), Compute(2), Finish(1), Finish(2)]);
            end.rows == {day, early, late} && end.cached == {day, late} && end.open == map[]
  {
    var w0 := World({day}, {day}, map[]);
    var w2 := World({day}, {day}, map[1 := Computed(early, {day, early})]);
    var w4 := World({day}, {day}, map[1 := Computed(early, {day, early}), 2 := Computed(late, {day, late})]);
    var w6 := World({day, early, late}, {day, late}, map[]);
    assert {day} + {early} == {day, early} && {day} + {late} == {day, late};
    assert Next(w0, Insert(1, early)).open == map[1 := Inserted(early)];
    assert Next(Next(w0, Insert(1, early)), Compute(1)).open == w2.open;
    assert Next(w2, Insert(2, late)).open == map[1 := Computed(early, {day, early}), 2 := Inserted(late)];
    assert Next(Next(w2, Insert(2, late)), Compute(2)).open == w4.open;
    assert Next(Next(w4, Finish(1)), Finish(2)) == w6;
    hide Next;
    var steps := [Insert(1, early), Compute(1), Insert(2, late), Compute(2), Finish(1), Finish(2)];
    assert steps == [Insert(1, early)] + ([Compute(1)] + ([Insert(2, late)] + ([Compute(2)] + ([Finish(1)] + ([Finish(2)] + [])))));
    RunCons(w4, Finish(1), [Finish(2)] + []);
    RunCons(Next(w4, Finish(1)), Finish(2), []);
    RunCons(w2, Insert(2, late), [Compute(2)] + ([Finish(1)] + ([Finish(2)] + [])));
    RunCons(Next(w2, Insert(2, late)), Compute(2), [Finish(1)] + ([Finish(2)] + []));
    RunCons(w0, Insert(1, early), steps[1..]);
    RunCons(Next(w0, Insert(1, early)), Compute(1), steps[2..]);
    assert [Insert(1, early)] + steps[1..] == steps && [Compute(1)] + steps[2..] == steps[1..];
    assert steps[2..] == [Insert(2, late)] + ([Compute(2)] + ([Finish(1)] + ([Finish(2)] + [])));
  }

  // After such a race over three consecutive days the guard serves a longest streak of one day where three were read.
  lemma MidnightRaceServesStale(n: int)
    requires Keyed(n) && Keyed(n + 1) && Keyed(n + 2)
    ensures var end := Run(World({IsoDay(n)}, {IsoDay(n)}, map[]),
                           [Insert(1, IsoDay(n + 1)), Compute(1), Insert(2, IsoDay(n + 2)), Compute(2), Finish(1), Finish(2)]);
            exists cache :: CacheOk(cache, end.cached) && IsLatest(end.rows, cache.lastActiveDayKey)
              && cache.longestStreak == 1 && LongestStreak(DayNumbers(end.rows)) == 3
  {
    KeyOrder(n, n + 1);
    KeyOrder(n, n + 2);
    KeyOrder(n + 1, n + 2);
    hide IsoDay, Keyed, Run, LongestStreak, DayNumbers, CacheOk, IsLatest;
    MidnightRace(IsoDay(n), IsoDay(n + 1), IsoDay(n + 2));
    StaleCacheWitness(n);
  }
}
