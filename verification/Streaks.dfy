// Reading streaks: the run of days up to now and the longest run, computed on lists of day keys.
module Streaks {
  import opened Prelude
  import opened Text
  import opened DayKeys

  // ── What streaks are, on sets of days ──

  // Every day from the first up to but not including the end.
  ghost predicate Stretch(days: set<int>, first: int, end: int) {
    forall n :: first <= n < end ==> n in days
  }

  // The length of the unbroken run right before a day.
  ghost function RunBefore(days: set<int>, end: int): (k: nat)
    ensures Stretch(days, end - k, end) && end - k - 1 !in days
    decreases |days|
  {
    if end - 1 in days then
      var rest := days - {end - 1};
      var k := RunBefore(rest, end - 1);
      assert Stretch(rest, end - 1 - k, end - 1);
      assert Stretch(days, end - 1 - k, end) by {
        forall n | end - 1 - k <= n < end ensures n in days {
          if n != end - 1 { assert n in rest; }
        }
      }
      1 + k
    else 0
  }

  lemma RunIsUnique(days: set<int>, end: int, k: nat)
    requires Stretch(days, end - k, end) && end - k - 1 !in days
    ensures k == RunBefore(days, end)
  {
    var j := RunBefore(days, end);
    assert Stretch(days, end - j, end);
    assert k < j ==> end - k - 1 in days;
    assert j < k ==> end - j - 1 in days;
  }

  // The run that ends today, or, when today has not been read yet, yesterday.
  ghost function CurrentStreak(days: set<int>, today: int): nat {
    RunBefore(days, if today in days then today + 1 else today)
  }

  ghost predicate IsLongest(days: set<int>, k: nat) {
    && (exists first, end :: end - first == k && Stretch(days, first, end))
    && forall first, end :: first <= end && Stretch(days, first, end) ==> end - first <= k
  }

  ghost function LongestWithin(days: set<int>, bound: nat): (k: nat)
    requires forall first, end :: first <= end && Stretch(days, first, end) ==> end - first <= bound
    ensures IsLongest(days, k)
  {
    if exists first, end :: end - first == bound && Stretch(days, first, end) then bound
    else
      assert Stretch(days, 0, 0);
      LongestWithin(days, bound - 1)
  }

  ghost function LongestStreak(days: set<int>): (k: nat)
    ensures IsLongest(days, k)
  {
    assert forall first, end :: first <= end && Stretch(days, first, end) ==> end - first <= |days| by {
      forall first, end | first <= end && Stretch(days, first, end) ensures end - first <= |days| {
        StretchFits(days, first, end);
      }
    }
    LongestWithin(days, |days|)
  }

  lemma {:induction false} StretchFits(days: set<int>, first: int, end: int)
    requires first <= end && Stretch(days, first, end)
    ensures end - first <= |days|
    decreases end - first
  {
    if first < end {
      assert end - 1 in days;
      StretchFits(days - {end - 1}, first, end - 1);
    }
  }

  lemma LongestIsUnique(days: set<int>, k: nat)
    requires IsLongest(days, k)
    ensures k == LongestStreak(days)
  {
    var a, b :| b - a == k && Stretch(days, a, b);
    var c, d :| d - c == LongestStreak(days) && Stretch(days, c, d);
  }

  // The current streak is at most the longest, which is at most the number of days read.
  lemma CurrentAtMostLongest(days: set<int>, today: int)
    ensures CurrentStreak(days, today) <= LongestStreak(days) <= |days|
  {
    var k := LongestStreak(days);
    var a, b :| b - a == k && Stretch(days, a, b);
    StretchFits(days, a, b);
    var end := if today in days then today + 1 else today;
    assert Stretch(days, end - CurrentStreak(days, today), end);
  }

  // Activity older than yesterday gives no current streak, and any from yesterday on gives one.
  lemma StreakNeedsYesterday(days: set<int>, today: int)
    ensures CurrentStreak(days, today) == 0 <==> today !in days && today - 1 !in days
  {
  }

  // A day read adds one to the run it extends: reading today after yesterday's streak of k makes it k + 1.
  lemma ReadingTodayExtends(days: set<int>, today: int)
    requires today !in days
    ensures CurrentStreak(days + {today}, today) == CurrentStreak(days, today) + 1
  {
    var k := RunBefore(days, today);
    assert Stretch(days, today - k, today);
    RunIsUnique(days + {today}, today + 1, k + 1);
  }

  // The length of the unbroken run from a day on.
  ghost function RunAfter(days: set<int>, start: int): (k: nat)
    ensures Stretch(days, start, start + k) && start + k !in days
    decreases |days|
  {
    if start in days then
      var rest := days - {start};
      var k := RunAfter(rest, start + 1);
      assert Stretch(rest, start + 1, start + 1 + k);
      assert Stretch(days, start, start + 1 + k) by {
        forall n | start <= n < start + 1 + k ensures n in days {
          if n != start { assert n in rest; }
        }
      }
      1 + k
    else 0
  }

  // A day that is added joins the runs on its two sides: the longest streak becomes the joined run if that is longer, and
  // stays what it was otherwise.
  lemma AddedDayJoinsRuns(days: set<int>, d: int)
    requires d !in days
    ensures var joined := RunBefore(days, d) + 1 + RunAfter(days, d + 1);
            LongestStreak(days + {d}) == if LongestStreak(days) < joined then joined else LongestStreak(days)
  {
    hide RunBefore, RunAfter, LongestStreak, Stretch;
    var a, b, k, more := RunBefore(days, d), RunAfter(days, d + 1), LongestStreak(days), days + {d};
    var longest := if k < a + 1 + b then a + 1 + b else k;
    RunsAround(days, d);
    JoinedStretch(days, d, d - a, d + 1 + b);
    var first, end :| end - first == k && Stretch(days, first, end);
    StretchOfMore(days, d, first, end);
    forall f, e | f <= e && Stretch(more, f, e) ensures e - f <= longest {
      if f <= d < e {
        StretchAround(days, d, f, e);
      } else {
        StretchOfLess(days, d, f, e);
      }
    }
    LongestIsUnique(more, longest);
  }

  // Days that are left out do not change the longest streak exactly when none of them lies in a longer run.
  lemma LeftOutDaysMatterExactly(days: set<int>, known: set<int>)
    requires known <= days
    ensures LongestStreak(known) <= LongestStreak(days)
    ensures LongestStreak(known) == LongestStreak(days) <==>
              forall d :: d in days && d !in known ==> RunAround(days, d) <= LongestStreak(known)
  {
    hide RunAround, LongestStreak, Stretch;
    var first, end :| end - first == LongestStreak(known) && Stretch(known, first, end);
    StretchOfAll(days, known, first, end);
    forall d | d in days ensures RunAround(days, d) <= LongestStreak(days) { RunAroundIsStretch(days, d); }
    if forall d :: d in days && d !in known ==> RunAround(days, d) <= LongestStreak(known) {
      var f, e :| e - f == LongestStreak(days) && Stretch(days, f, e);
      if d :| f <= d < e && d !in known {
        StretchWithin(days, d, f, e);
      } else {
        assert Stretch(known, f, e) by { StretchOfKnown(days, known, f, e); }
      }
    }
  }

  // The length of the run of days that a day of the set lies in.
  ghost function RunAround(days: set<int>, d: int): nat {
    RunBefore(days, d) + 1 + RunAfter(days, d + 1)
  }

  lemma StretchOfAll(days: set<int>, known: set<int>, first: int, end: int)
    requires known <= days && Stretch(known, first, end)
    ensures Stretch(days, first, end)
  {
    forall n | first <= n < end ensures n in days { assert n in known; }
  }

  lemma StretchOfKnown(days: set<int>, known: set<int>, first: int, end: int)
    requires Stretch(days, first, end) && forall d :: first <= d < end ==> d in known
    ensures Stretch(known, first, end)
  {
  }

  lemma RunAroundIsStretch(days: set<int>, d: int)
    requires d in days
    ensures RunAround(days, d) <= LongestStreak(days)
  {
    var a, b := RunBefore(days, d), RunAfter(days, d + 1);
    assert Stretch(days, d - a, d + 1 + b) by {
      forall n | d - a <= n < d + 1 + b ensures n in days {
        assert n < d ==> n in days;
        assert d < n ==> n in days;
      }
    }
  }

  lemma StretchWithin(days: set<int>, d: int, f: int, e: int)
    requires f <= d < e && Stretch(days, f, e)
    ensures d in days && e - f <= RunAround(days, d)
  {
    var a, b := RunBefore(days, d), RunAfter(days, d + 1);
    assert f <= d - a - 1 ==> d - a - 1 in days;
    assert d + 1 + b < e ==> d + 1 + b in days;
  }

  lemma RunsAround(days: set<int>, d: int)
    ensures Stretch(days, d - RunBefore(days, d), d) && Stretch(days, d + 1, d + 1 + RunAfter(days, d + 1))
  {
  }

  lemma JoinedStretch(days: set<int>, d: int, first: int, end: int)
    requires Stretch(days, first, d) && Stretch(days, d + 1, end)
    ensures Stretch(days + {d}, first, end)
  {
    forall n | first <= n < end ensures n in days + {d} {
      assert n < d ==> n in days;
      assert d < n ==> n in days;
    }
  }

  lemma StretchOfMore(days: set<int>, d: int, first: int, end: int)
    requires Stretch(days, first, end)
    ensures Stretch(days + {d}, first, end)
  {
    forall n | first <= n < end ensures n in days + {d} { assert n in days; }
  }

  lemma StretchOfLess(days: set<int>, d: int, first: int, end: int)
    requires Stretch(days + {d}, first, end) && !(first <= d < end)
    ensures Stretch(days, first, end)
  {
    forall n | first <= n < end ensures n in days { assert n in days + {d}; }
  }

  lemma StretchAround(days: set<int>, d: int, f: int, e: int)
    requires d !in days && f <= d < e && Stretch(days + {d}, f, e)
    ensures d - f <= RunBefore(days, d) && e - d - 1 <= RunAfter(days, d + 1)
  {
    var a, b := RunBefore(days, d), RunAfter(days, d + 1);
    assert f <= d - a - 1 ==> d - a - 1 in days + {d};
    assert d + 1 + b < e ==> d + 1 + b in days + {d};
  }

  // ── Lists of day keys ──

  ghost predicate AllDayKeys(days: seq<string>) {
    forall s :: s in days ==> IsDayKey(s)
  }

  ghost function DaySet(days: seq<string>): set<int> {
    set s | s in days && IsDayKey(s) :: DayOf(s)
  }

  lemma DayOfInjective(s: string, t: string)
    requires IsDayKey(s) && IsDayKey(t)
    ensures DayOf(s) < DayOf(t) <==> Before(s, t)
    ensures DayOf(s) == DayOf(t) <==> s == t
  {
    hide ParseDay, IsoDay, Before;
    IsoDayOfParse(s);
    IsoDayOfParse(t);
    KeyOrder(DayOf(s), DayOf(t));
  }

  lemma KeyInDaySet(days: seq<string>, s: string)
    requires IsDayKey(s)
    ensures s in days <==> DayOf(s) in DaySet(days)
  {
    hide ParseDay;
    if DayOf(s) in DaySet(days) {
      var t :| t in days && IsDayKey(t) && DayOf(t) == DayOf(s);
      DayOfInjective(s, t);
    }
  }

  // Neither order nor repetition of the list matters to either streak.
  lemma OnlyTheDaysMatter(a: seq<string>, b: seq<string>, today: int)
    requires forall s :: s in a <==> s in b
    ensures LongestStreak(DaySet(a)) == LongestStreak(DaySet(b))
    ensures CurrentStreak(DaySet(a), today) == CurrentStreak(DaySet(b), today)
  {
    assert DaySet(a) == DaySet(b);
  }

  // One day earlier in the calendar is a present key exactly when the day is in the set.
  lemma StepBack(days: seq<string>, cursor: string)
    requires AllDayKeys(days) && IsDayKey(cursor)
    ensures ShiftDayKey(cursor, -1).Some?
    ensures var earlier := ShiftDayKey(cursor, -1).value;
            && (earlier in days <==> DayOf(cursor) - 1 in DaySet(days))
            && (IsDayKey(earlier) ==> DayOf(earlier) == DayOf(cursor) - 1)
            && (earlier in days ==> IsDayKey(earlier))
  {
    hide ParseDay, IsoDay;
    IsoDayOfParse(cursor);
    KeyedInRange(DayOf(cursor));
    ShiftHits(cursor, -1, cursor);
    var earlier := ShiftDayKey(cursor, -1).value;
    if IsDayKey(earlier) {
      ShiftHits(cursor, -1, earlier);
      KeyInDaySet(days, earlier);
    } else if DayOf(cursor) - 1 in DaySet(days) {
      var t :| t in days && IsDayKey(t) && DayOf(t) == DayOf(cursor) - 1;
      ShiftHits(cursor, -1, t);
    }
  }

  method CurrentStreakFromDays(days: seq<string>, todayDayKey: string) returns (streak: nat)
    requires AllDayKeys(days) && IsDayKey(todayDayKey)
    ensures streak == CurrentStreak(DaySet(days), DayOf(todayDayKey))
  {
    hide IsDayKey, DayOf, ShiftDayKey;
    ghost var present := DaySet(days);
    KeyInDaySet(days, todayDayKey);
    StepBack(days, todayDayKey);
    var cursor := if todayDayKey in days then todayDayKey else ShiftDayKey(todayDayKey, -1).value;
    ghost var next := if todayDayKey in days then DayOf(todayDayKey) else DayOf(todayDayKey) - 1;
    streak := 0;
    while cursor in days
      invariant cursor in days <==> next in present
      invariant cursor in days ==> IsDayKey(cursor) && DayOf(cursor) == next
      invariant RunBefore(present, next + 1) + streak == CurrentStreak(present, DayOf(todayDayKey))
      decreases RunBefore(present, next + 1)
    {
      RunStep(present, next + 1);
      StepBack(days, cursor);
      streak := streak + 1;
      cursor := ShiftDayKey(cursor, -1).value;
      next := next - 1;
    }
  }

  lemma RunStep(days: set<int>, end: int)
    requires end - 1 in days
    ensures RunBefore(days, end) == 1 + RunBefore(days, end - 1)
  {
    var j := RunBefore(days, end - 1);
    assert Stretch(days, end - 1 - j, end - 1);
    RunIsUnique(days, end, 1 + j);
  }

  // ── The longest run ──

  ghost predicate Ascending(keys: seq<string>) {
    forall i, j :: 0 <= i < j < |keys| ==> Before(keys[i], keys[j])
  }

  function Insert(keys: seq<string>, s: string): (r: seq<string>)
    ensures forall k :: k in r <==> k in keys || k == s
  {
    if keys == [] then [s]
    else if s == keys[0] then keys
    else if Before(s, keys[0]) then [s] + keys
    else [keys[0]] + Insert(keys[1..], s)
  }

  // The keys without duplicates, in string order.
  function SortedUnique(days: seq<string>): (r: seq<string>)
    ensures forall k :: k in r <==> k in days
  {
    if days == [] then [] else Insert(SortedUnique(days[1..]), days[0])
  }

  lemma {:induction false} InsertAscending(keys: seq<string>, s: string)
    requires Ascending(keys)
    ensures Ascending(Insert(keys, s))
  {
    if keys != [] && s != keys[0] {
      if Before(s, keys[0]) {
        forall k | k in keys ensures Before(s, k) {
          if k != keys[0] { BeforeTransitive(s, keys[0], k); }
        }
      } else {
        BeforeTotal(s, keys[0]);
        InsertAscending(keys[1..], s);
        forall k | k in Insert(keys[1..], s) ensures Before(keys[0], k) {
        }
      }
    }
  }

  lemma {:induction false} SortedUniqueAscending(days: seq<string>)
    ensures Ascending(SortedUnique(days))
  {
    if days != [] {
      SortedUniqueAscending(days[1..]);
      InsertAscending(SortedUnique(days[1..]), days[0]);
    }
  }

  ghost function SetOf(ds: seq<int>): set<int> {
    set d | d in ds
  }

  ghost predicate Increasing(ds: seq<int>) {
    forall i, j :: 0 <= i < j < |ds| ==> ds[i] < ds[j]
  }

  lemma {:induction false} Gap(ds: seq<int>, i: nat, j: nat)
    requires Increasing(ds) && i <= j < |ds|
    ensures j - i <= ds[j] - ds[i]
    decreases j
  {
    if i < j { Gap(ds, i, j - 1); }
  }

  // Days i to j are consecutive.
  ghost predicate Consecutive(ds: seq<int>, i: nat, j: nat)
    requires i <= j < |ds|
  {
    ds[j] - ds[i] == j - i
  }

  // After the first n days: the run ending at the last of them, and the longest run among them.
  ghost predicate Counted(ds: seq<int>, n: nat, run: nat, longest: nat)
    requires 1 <= n <= |ds|
  {
    && 1 <= run <= longest <= n
    && Consecutive(ds, n - run, n - 1)
    && (forall i: nat, j: nat :: i <= j == n - 1 && Consecutive(ds, i, j) ==> j - i + 1 <= run)
    && (exists i: nat, j: nat :: i <= j < n && j - i + 1 == longest && Consecutive(ds, i, j))
    && (forall i: nat, j: nat :: i <= j < n && Consecutive(ds, i, j) ==> j - i + 1 <= longest)
  }

  lemma CountNext(ds: seq<int>, n: nat, run: nat, longest: nat)
    requires Increasing(ds) && 1 <= n < |ds| && Counted(ds, n, run, longest)
    ensures var run' := if ds[n] == ds[n - 1] + 1 then run + 1 else 1;
            Counted(ds, n + 1, run', if longest < run' then run' else longest)
  {
    var run' := if ds[n] == ds[n - 1] + 1 then run + 1 else 1;
    var longest' := if longest < run' then run' else longest;
    assert Consecutive(ds, n + 1 - run', n);
    forall i: nat, j: nat | i <= j == n && Consecutive(ds, i, j) ensures j - i + 1 <= run' {
      if i < n {
        Gap(ds, i, n - 1);
        assert Consecutive(ds, i, n - 1);
      }
    }
    forall i: nat, j: nat | i <= j < n + 1 && Consecutive(ds, i, j) ensures j - i + 1 <= longest' {
    }
  }

  lemma {:induction false} ConsecutiveFills(ds: seq<int>, i: nat, j: nat, n: int)
    requires Increasing(ds) && i <= j < |ds| && Consecutive(ds, i, j) && ds[i] <= n <= ds[j]
    ensures n in ds
  {
    var m := i + (n - ds[i]);
    Gap(ds, i, m);
    Gap(ds, m, j);
  }

  // A stretch of days is a consecutive piece of the list.
  lemma {:induction false} StretchIsConsecutive(ds: seq<int>, first: int, end: int) returns (i: nat, j: nat)
    requires Increasing(ds) && first < end && Stretch(SetOf(ds), first, end)
    ensures i <= j < |ds| && ds[i] == first && ds[j] == end - 1 && Consecutive(ds, i, j)
    decreases end - first
  {
    assert end - 1 in SetOf(ds);
    j :| 0 <= j < |ds| && ds[j] == end - 1;
    if first + 1 == end {
      i := j;
    } else {
      var m;
      i, m := StretchIsConsecutive(ds, first, end - 1);
      assert m < j;
      assert ds[m] < ds[m + 1] <= ds[j];
    }
  }

  lemma CountedAll(ds: seq<int>, run: nat, longest: nat)
    requires Increasing(ds) && ds != [] && Counted(ds, |ds|, run, longest)
    ensures IsLongest(SetOf(ds), longest)
  {
    var days := SetOf(ds);
    var i: nat, j: nat :| i <= j < |ds| && j - i + 1 == longest && Consecutive(ds, i, j);
    forall n | ds[i] <= n < ds[i] + longest ensures n in days {
      ConsecutiveFills(ds, i, j, n);
    }
    assert Stretch(days, ds[i], ds[i] + longest);
    forall first, end | first <= end && Stretch(days, first, end) ensures end - first <= longest {
      if first < end { var a, b := StretchIsConsecutive(ds, first, end); }
    }
  }

  ghost function Numbers(keys: seq<string>): (ds: seq<int>)
    requires AllDayKeys(keys)
    ensures |ds| == |keys| && forall i :: 0 <= i < |ds| ==> ds[i] == DayOf(keys[i])
  {
    seq(|keys|, i requires 0 <= i < |keys| => DayOf(keys[i]))
  }

  lemma SortedNumbers(days: seq<string>)
    requires AllDayKeys(days)
    ensures AllDayKeys(SortedUnique(days))
    ensures Increasing(Numbers(SortedUnique(days))) && SetOf(Numbers(SortedUnique(days))) == DaySet(days)
  {
    hide IsDayKey, DayOf, Before;
    var keys := SortedUnique(days);
    SortedUniqueAscending(days);
    forall i, j | 0 <= i < j < |keys| ensures DayOf(keys[i]) < DayOf(keys[j]) {
      DayOfInjective(keys[i], keys[j]);
    }
    var ds := Numbers(keys);
    forall d | d in DaySet(days) ensures d in ds {
      var s :| s in days && IsDayKey(s) && DayOf(s) == d;
      var i :| 0 <= i < |keys| && keys[i] == s;
      assert ds[i] == d;
    }
  }

  method LongestStreakFromDays(days: seq<string>) returns (longest: nat)
    requires AllDayKeys(days)
    ensures longest == LongestStreak(DaySet(days))
  {
    hide IsDayKey, DayOf, ShiftDayKey, IsLongest, Increasing;
    if |days| == 0 {
      NothingRead(days);
      return 0;
    }
    var sorted := SortedUnique(days);
    assert days[0] in sorted;
    SortedNumbers(days);
    ghost var ds := Numbers(sorted);
    longest := 1;
    var run := 1;
    for index := 1 to |sorted|
      invariant Counted(ds, index, run, longest)
    {
      StepForward(sorted, index);
      CountNext(ds, index, run, longest);
      var continuesRun := Some(sorted[index]) == ShiftDayKey(sorted[index - 1], 1);
      run := if continuesRun then run + 1 else 1;
      longest := if longest < run then run else longest;
    }
    CountedAll(ds, run, longest);
    LongestIsUnique(DaySet(days), longest);
  }

  lemma NothingRead(days: seq<string>)
    requires days == []
    ensures LongestStreak(DaySet(days)) == 0
  {
    assert DaySet(days) == {};
    CurrentAtMostLongest(DaySet(days), 0);
  }

  lemma StepForward(keys: seq<string>, index: nat)
    requires AllDayKeys(keys) && 1 <= index < |keys|
    ensures Some(keys[index]) == ShiftDayKey(keys[index - 1], 1) <==> DayOf(keys[index]) == DayOf(keys[index - 1]) + 1
  {
    hide ParseDay, IsoDay;
    IsoDayOfParse(keys[index - 1]);
    KeyedInRange(DayOf(keys[index - 1]));
    ShiftHits(keys[index - 1], 1, keys[index]);
  }
}
