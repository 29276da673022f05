// Reading activity: events, the per-day rollup, replay receipts and the cached streak.
module ActivityRollup {
  import opened Prelude
  import opened Text
  import opened DayKeys
  import opened Streaks

  type UserId = string
  type ActivityType = string

  // ── The page delta a client may claim ──

  // A number of the client's: only finite ones have a value.
  datatype Number = NaN | Infinite(positive: bool) | Finite(value: real)

  function Trunc(x: real): int {
    if 0.0 <= x then x.Floor else -((-x).Floor)
  }

  // One page or none: one exactly for finite numbers from 1 on.
  function ClampPagesDelta(n: Number): (pages: nat)
    ensures pages <= 1
    ensures pages == 1 <==> n.Finite? && 1.0 <= n.value
  {
    if !n.Finite? then 0
    else
      var t := Trunc(n.value);
      var atLeast0 := if 0 < t then t else 0;
      if 1 < atLeast0 then 1 else atLeast0
  }

  // ── What the tables mean, on the history of calls ──

  // One recorded call, with its clamped delta. An empty operation id is no id.
  datatype Call = Call(user: UserId, kind: ActivityType, dayKey: string, pagesDelta: nat, operationId: string)

  // A call replays an earlier one of its user with its id.
  predicate IsReplay(log: seq<Call>, i: nat)
    requires i < |log|
  {
    log[i].operationId != "" && exists j :: 0 <= j < i && log[j].user == log[i].user && log[j].operationId == log[i].operationId
  }

  function CountedDelta(log: seq<Call>, i: nat): nat
    requires i < |log|
  {
    if IsReplay(log, i) then 0 else log[i].pagesDelta
  }

  // Pages of one day: the deltas of its calls, each operation id counting once over all days.
  function PagesOn(log: seq<Call>, user: UserId, dayKey: string, n: nat): nat
    requires n <= |log|
  {
    if n == 0 then 0
    else PagesOn(log, user, dayKey, n - 1)
           + if log[n - 1].user == user && log[n - 1].dayKey == dayKey then CountedDelta(log, n - 1) else 0
  }

  // Pages of all days: every delta without an id, and for each id the delta of its first call.
  function PagesOf(log: seq<Call>, user: UserId, n: nat): nat
    requires n <= |log|
  {
    if n == 0 then 0 else PagesOf(log, user, n - 1) + if log[n - 1].user == user then CountedDelta(log, n - 1) else 0
  }

  function TypesOn(log: seq<Call>, user: UserId, dayKey: string): set<ActivityType> {
    set i | 0 <= i < |log| && log[i].user == user && log[i].dayKey == dayKey :: log[i].kind
  }

  function DaysOf(log: seq<Call>, user: UserId): set<string> {
    set i | 0 <= i < |log| && log[i].user == user :: log[i].dayKey
  }

  ghost function DayNumbers(keys: set<string>): set<int> {
    set s | s in keys && IsDayKey(s) :: DayOf(s)
  }

  ghost predicate IsLatest(keys: set<string>, k: Option<string>) {
    if keys == {} then k.None? else k.Some? && k.value in keys && forall s :: s in keys ==> !Before(k.value, s)
  }

  // ── The tables ──

  datatype Daily = Daily(pagesRead: nat, activityCount: nat)

  datatype Cache = Cache(currentStreak: nat, longestStreak: nat, lastActiveDayKey: Option<string>)

  datatype Event = Event(user: UserId, kind: ActivityType, dayKey: string, pagesDelta: nat)

  type Receipts = set<(UserId, string)>
  type TypeClaims = set<(UserId, string, ActivityType)>
  type Rollup = map<(UserId, string), Daily>

  ghost predicate EventsOk(events: seq<Event>, log: seq<Call>) {
    |events| == |log| && forall i :: 0 <= i < |log| ==>
      events[i] == Event(log[i].user, log[i].kind, log[i].dayKey, log[i].pagesDelta)
  }

  ghost predicate ReceiptsOk(receipts: Receipts, log: seq<Call>) {
    receipts == set i | 0 <= i < |log| && log[i].operationId != "" :: (log[i].user, log[i].operationId)
  }

  ghost predicate ClaimsOk(claims: TypeClaims, log: seq<Call>) {
    claims == set i | 0 <= i < |log| :: (log[i].user, log[i].dayKey, log[i].kind)
  }

  // A row for every day with a call: its distinct types and its pages.
  ghost predicate RowOk(daily: Rollup, log: seq<Call>, user: UserId, day: string) {
    && ((user, day) in daily <==> day in DaysOf(log, user))
    && ((user, day) in daily ==> daily[(user, day)] == Daily(PagesOn(log, user, day, |log|), |TypesOn(log, user, day)|))
  }

  ghost predicate RollupOk(daily: Rollup, log: seq<Call>) {
    forall user, day :: RowOk(daily, log, user, day)
  }

  // The cached streaks of a user were computed from all days there are.
  ghost predicate CacheOk(cache: Cache, days: set<string>) {
    && cache.longestStreak == LongestStreak(DayNumbers(days))
    && IsLatest(days, cache.lastActiveDayKey)
  }

  ghost predicate UserOk(caches: map<UserId, Cache>, log: seq<Call>, user: UserId) {
    && (user in caches <==> DaysOf(log, user) != {})
    && (user in caches ==> CacheOk(caches[user], DaysOf(log, user)))
  }

  ghost predicate CachesOk(caches: map<UserId, Cache>, log: seq<Call>) {
    forall user :: UserOk(caches, log, user)
  }

  ghost predicate KeysOk(log: seq<Call>) {
    forall i :: 0 <= i < |log| ==> IsDayKey(log[i].dayKey)
  }

  // ── One more call ──

  lemma {:induction false} PagesPrefix(log: seq<Call>, call: Call, user: UserId, day: string, n: nat)
    requires n <= |log|
    ensures PagesOn(log + [call], user, day, n) == PagesOn(log, user, day, n)
    ensures PagesOf(log + [call], user, n) == PagesOf(log, user, n)
  {
    if n != 0 {
      PagesPrefix(log, call, user, day, n - 1);
      ReplayPrefix(log, call, n - 1);
    }
  }

  lemma ReplayPrefix(log: seq<Call>, call: Call, i: nat)
    requires i < |log|
    ensures IsReplay(log + [call], i) == IsReplay(log, i)
  {
    assert forall j :: 0 <= j <= i ==> (log + [call])[j] == log[j];
  }

  lemma ReceiptsKnowReplays(receipts: Receipts, log: seq<Call>, call: Call)
    requires ReceiptsOk(receipts, log)
    ensures IsReplay(log + [call], |log|) <==> call.operationId != "" && (call.user, call.operationId) in receipts
  {
    var all := log + [call];
    if call.operationId != "" && (call.user, call.operationId) in receipts {
      var i :| 0 <= i < |log| && log[i].operationId != "" && (log[i].user, log[i].operationId) == (call.user, call.operationId);
      assert all[i] == log[i];
    }
  }

  lemma EventsStep(events: seq<Event>, log: seq<Call>, call: Call)
    requires KeysOk(log) && EventsOk(events, log) && IsDayKey(call.dayKey)
    ensures KeysOk(log + [call])
    ensures EventsOk(events + [Event(call.user, call.kind, call.dayKey, call.pagesDelta)], log + [call])
  {
  }

  lemma ReceiptsStep(receipts: Receipts, log: seq<Call>, call: Call)
    requires ReceiptsOk(receipts, log)
    ensures ReceiptsOk(if call.operationId == "" then receipts else receipts + {(call.user, call.operationId)}, log + [call])
  {
    var all := log + [call];
    assert all[|log|] == call && forall i :: 0 <= i < |log| ==> all[i] == log[i];
  }

  lemma ClaimsStep(claims: TypeClaims, log: seq<Call>, call: Call)
    requires ClaimsOk(claims, log)
    ensures ClaimsOk(claims + {(call.user, call.dayKey, call.kind)}, log + [call])
    ensures (call.user, call.dayKey, call.kind) in claims <==> call.kind in TypesOn(log, call.user, call.dayKey)
  {
    var all := log + [call];
    assert all[|log|] == call && forall i :: 0 <= i < |log| ==> all[i] == log[i];
  }

  lemma SetsStep(log: seq<Call>, call: Call, user: UserId, day: string)
    ensures DaysOf(log + [call], user) == DaysOf(log, user) + if user == call.user then {call.dayKey} else {}
    ensures TypesOn(log + [call], user, day)
              == TypesOn(log, user, day) + if user == call.user && day == call.dayKey then {call.kind} else {}
  {
    var all := log + [call];
    assert all[|log|] == call && forall i :: 0 <= i < |log| ==> all[i] == log[i];
  }

  function RolledUp(daily: Rollup, user: UserId, dayKey: string, pagesDelta: nat, counted: bool): Rollup {
    var key, one := (user, dayKey), if counted then 1 else 0;
    daily[key := if key in daily then Daily(daily[key].pagesRead + pagesDelta, daily[key].activityCount + one)
                 else Daily(pagesDelta, one)]
  }

  // A day's row after one more call: its pages, and one more type unless the type was claimed that day.
  function DayAfter(daily: Rollup, user: UserId, dayKey: string, pages: nat, claimed: bool): Daily {
    var row := if (user, dayKey) in daily then daily[(user, dayKey)] else Daily(0, 0);
    Daily(row.pagesRead + pages, if claimed then row.activityCount else row.activityCount + 1)
  }

  lemma RolledUpDay(daily: Rollup, user: UserId, dayKey: string, pages: nat, claimed: bool)
    ensures RolledUp(daily, user, dayKey, pages, !claimed) == daily[(user, dayKey) := DayAfter(daily, user, dayKey, pages, claimed)]
  {
  }

  lemma TypesNeedACall(log: seq<Call>, user: UserId, day: string)
    ensures TypesOn(log, user, day) != {} ==> day in DaysOf(log, user)
  {
    if TypesOn(log, user, day) != {} {
      var kind :| kind in TypesOn(log, user, day);
      var i :| 0 <= i < |log| && log[i].user == user && log[i].dayKey == day && log[i].kind == kind;
      assert log[i].dayKey in DaysOf(log, user);
    }
  }

  lemma {:induction false} NoCallsNoPages(log: seq<Call>, user: UserId, day: string, n: nat)
    requires n <= |log| && day !in DaysOf(log, user)
    ensures PagesOn(log, user, day, n) == 0 && TypesOn(log, user, day) == {}
  {
    if n != 0 {
      NoCallsNoPages(log, user, day, n - 1);
      assert log[n - 1].user == user ==> log[n - 1].dayKey in DaysOf(log, user);
    }
    TypesNeedACall(log, user, day);
  }

  lemma RowStep(daily: Rollup, log: seq<Call>, call: Call, counted: bool, user: UserId, day: string)
    requires RowOk(daily, log, user, day) && (counted <==> call.kind !in TypesOn(log, call.user, call.dayKey))
    ensures RowOk(RolledUp(daily, call.user, call.dayKey, CountedDelta(log + [call], |log|), counted), log + [call], user, day)
  {
    hide PagesOn, TypesOn, DaysOf, CountedDelta;
    SetsStep(log, call, user, day);
    PagesStep(log, call, user, day);
    if user == call.user && day == call.dayKey {
      if day !in DaysOf(log, user) { NoCallsNoPages(log, user, day, |log|); }
      AddOne(TypesOn(log, user, day), call.kind);
    } else {
      RolledUpElsewhere(daily, call.user, call.dayKey, CountedDelta(log + [call], |log|), counted, user, day);
      hide RolledUp;
      assert TypesOn(log, user, day) + {} == TypesOn(log, user, day);
      assert user != call.user ==> DaysOf(log, user) + {} == DaysOf(log, user);
    }
  }

  lemma RolledUpElsewhere(daily: Rollup, user: UserId, dayKey: string, pages: nat, counted: bool, other: UserId, day: string)
    requires other != user || day != dayKey
    ensures var after := RolledUp(daily, user, dayKey, pages, counted);
            && ((other, day) in after <==> (other, day) in daily)
            && ((other, day) in daily ==> after[(other, day)] == daily[(other, day)])
  {
  }

  lemma AddOne<T>(s: set<T>, x: T)
    ensures |s + {x}| == |s| + if x in s then 0 else 1
  {
    if x in s { assert s + {x} == s; }
  }

  lemma PagesStep(log: seq<Call>, call: Call, user: UserId, day: string)
    ensures PagesOn(log + [call], user, day, |log + [call]|)
         == PagesOn(log, user, day, |log|)
              + if call.user == user && call.dayKey == day then CountedDelta(log + [call], |log|) else 0
  {
    hide CountedDelta;
    PagesPrefix(log, call, user, day, |log|);
    assert |log + [call]| == |log| + 1 && (log + [call])[|log|] == call;
  }

  lemma RollupStep(daily: Rollup, log: seq<Call>, call: Call, counted: bool)
    requires RollupOk(daily, log) && (counted <==> call.kind !in TypesOn(log, call.user, call.dayKey))
    ensures RollupOk(RolledUp(daily, call.user, call.dayKey, CountedDelta(log + [call], |log|), counted), log + [call])
  {
    hide RowOk, CountedDelta, TypesOn;
    var after := RolledUp(daily, call.user, call.dayKey, CountedDelta(log + [call], |log|), counted);
    forall user, day ensures RowOk(after, log + [call], user, day) {
      RowStep(daily, log, call, counted, user, day);
    }
  }

  lemma UserStep(caches: map<UserId, Cache>, log: seq<Call>, call: Call, cache: Cache, user: UserId)
    requires UserOk(caches, log, user) && CacheOk(cache, DaysOf(log + [call], call.user))
    ensures UserOk(caches[call.user := cache], log + [call], user)
  {
    hide CacheOk, DaysOf, TypesOn;
    SetsStep(log, call, user, "");
    if user == call.user {
      assert call.dayKey in DaysOf(log + [call], user);
    } else {
      assert DaysOf(log, user) + {} == DaysOf(log, user);
    }
  }

  lemma CachesStep(caches: map<UserId, Cache>, log: seq<Call>, call: Call, cache: Cache)
    requires CachesOk(caches, log) && CacheOk(cache, DaysOf(log + [call], call.user))
    ensures CachesOk(caches[call.user := cache], log + [call])
  {
    hide UserOk, CacheOk, DaysOf;
    var after := caches[call.user := cache];
    forall user ensures UserOk(after, log + [call], user) {
      UserStep(caches, log, call, cache, user);
    }
  }

  // ── Results ──

  function SumPages(daily: Rollup, user: UserId, days: seq<string>): nat
    requires forall d :: d in days ==> (user, d) in daily
  {
    if days == [] then 0 else daily[(user, days[0])].pagesRead + SumPages(daily, user, days[1..])
  }

  function SumOn(log: seq<Call>, user: UserId, days: seq<string>, n: nat): nat
    requires n <= |log|
  {
    if days == [] then 0 else PagesOn(log, user, days[0], n) + SumOn(log, user, days[1..], n)
  }

  lemma {:induction false} SumStep(log: seq<Call>, user: UserId, days: seq<string>, n: nat)
    requires n < |log| && forall i, j :: 0 <= i < j < |days| ==> days[i] != days[j]
    ensures SumOn(log, user, days, n + 1)
              == SumOn(log, user, days, n) + if log[n].user == user && log[n].dayKey in days then CountedDelta(log, n) else 0
  {
    hide CountedDelta;
    if days != [] {
      SumStep(log, user, days[1..], n);
      assert days == [days[0]] + days[1..];
    }
  }

  lemma {:induction false} SumIsTotal(log: seq<Call>, user: UserId, days: seq<string>, n: nat)
    requires n <= |log| && forall i, j :: 0 <= i < j < |days| ==> days[i] != days[j]
    requires forall i :: 0 <= i < |log| && log[i].user == user ==> log[i].dayKey in days
    ensures SumOn(log, user, days, n) == PagesOf(log, user, n)
  {
    hide CountedDelta;
    if n == 0 {
      NothingYet(log, user, days);
    } else {
      SumIsTotal(log, user, days, n - 1);
      SumStep(log, user, days, n - 1);
    }
  }

  lemma {:induction false} NothingYet(log: seq<Call>, user: UserId, days: seq<string>)
    ensures SumOn(log, user, days, 0) == 0
  {
    if days != [] { NothingYet(log, user, days[1..]); }
  }

  lemma {:induction false} SumOfRows(daily: Rollup, log: seq<Call>, user: UserId, days: seq<string>)
    requires RollupOk(daily, log) && forall d :: d in days ==> (user, d) in daily
    ensures SumPages(daily, user, days) == SumOn(log, user, days, |log|)
  {
    if days != [] {
      assert RowOk(daily, log, user, days[0]);
      SumOfRows(daily, log, user, days[1..]);
    }
  }

  // Added up over all rows of a user, in whatever order, the pages are every delta without an operation id plus, for
  // each id, the delta of its first call.
  lemma TotalPages(daily: Rollup, log: seq<Call>, user: UserId, days: seq<string>)
    requires RollupOk(daily, log)
    requires forall i, j :: 0 <= i < j < |days| ==> days[i] != days[j]
    requires forall d :: d in days <==> (user, d) in daily
    ensures SumPages(daily, user, days) == PagesOf(log, user, |log|)
  {
    SumOfRows(daily, log, user, days);
    forall i | 0 <= i < |log| && log[i].user == user ensures log[i].dayKey in days {
      assert log[i].dayKey in DaysOf(log, user);
      assert RowOk(daily, log, user, log[i].dayKey);
    }
    SumIsTotal(log, user, days, |log|);
  }

  // The longest streak a guard serves from the cache is the one recomputing would give.
  lemma CacheAgrees(caches: map<UserId, Cache>, log: seq<Call>, user: UserId)
    requires CachesOk(caches, log)
    ensures user in caches ==> caches[user].longestStreak == LongestStreak(DayNumbers(DaysOf(log, user)))
    ensures user !in caches ==> LongestStreak(DayNumbers(DaysOf(log, user))) == 0
  {
    assert UserOk(caches, log, user);
    if user !in caches {
      assert DaysOf(log, user) == {};
      assert DayNumbers({}) == {};
      CurrentAtMostLongest({}, 0);
    }
  }

  // ── When the guard is not enough ──

  // What a guard serves: the cached longest streak while the cached last day is the latest day, else a recomputed one.
  ghost function Served(cache: Option<Cache>, days: set<string>): nat {
    if cache.Some? && IsLatest(days, cache.value.lastActiveDayKey) then cache.value.longestStreak
    else LongestStreak(DayNumbers(days))
  }

  // Overlapping transactions of one user can leave days out of the cache. The guard lets the cached value through exactly
  // when all the days left out are earlier than the cached last one, and that value is right exactly when none of them
  // lies in a run longer than it.
  lemma GuardServesStaleExactly(cache: Cache, known: set<string>, days: set<string>)
    requires CacheOk(cache, known) && known != {} && known <= days
    requires forall s :: s in days ==> IsDayKey(s)
    ensures IsLatest(days, cache.lastActiveDayKey) <==> forall s :: s in days && s !in known ==> Before(s, cache.lastActiveDayKey.value)
    ensures cache.longestStreak == LongestStreak(DayNumbers(days)) <==>
              forall s :: s in days && s !in known ==> RunAround(DayNumbers(days), DayOf(s)) <= cache.longestStreak
    ensures Served(Some(cache), days) != LongestStreak(DayNumbers(days)) <==>
              && (forall s :: s in days && s !in known ==> Before(s, cache.lastActiveDayKey.value))
              && (exists s :: s in days && s !in known && cache.longestStreak < RunAround(DayNumbers(days), DayOf(s)))
  {
    hide IsDayKey, DayOf, Before, IsLatest, LongestStreak, IsLongest, RunAround, DayNumbers;
    LatestOfMore(known, days, cache.lastActiveDayKey);
    NumbersOfMore(known, days);
    LeftOutDaysMatterExactly(DayNumbers(days), DayNumbers(known));
  }

  lemma LatestOfMore(known: set<string>, days: set<string>, latest: Option<string>)
    requires IsLatest(known, latest) && known != {} && known <= days
    ensures latest.Some? && (IsLatest(days, latest) <==> forall s :: s in days && s !in known ==> Before(s, latest.value))
  {
    hide Before;
    var last := latest.value;
    assert last in known && last in days;
    forall s | s in days && s !in known ensures Before(s, last) <==> !Before(last, s) {
      BeforeTotal(s, last);
      if Before(s, last) && Before(last, s) { BeforeTransitive(s, last, s); }
      BeforeIrreflexive(s);
    }
  }

  lemma NumbersOfMore(known: set<string>, days: set<string>)
    requires known <= days && forall s :: s in days ==> IsDayKey(s)
    ensures DayNumbers(known) <= DayNumbers(days)
    ensures forall s :: s in days ==> DayOf(s) in DayNumbers(days) && (DayOf(s) in DayNumbers(known) <==> s in known)
    ensures forall d :: d in DayNumbers(days) ==> exists s :: s in days && DayOf(s) == d
  {
    hide IsDayKey, DayOf, Before;
    forall s | s in days && DayOf(s) in DayNumbers(known) ensures s in known {
      var t :| t in known && IsDayKey(t) && DayOf(t) == DayOf(s);
      DayOfInjective(s, t);
    }
  }

  lemma LatestIsUnique(days: set<string>, a: Option<string>, b: Option<string>)
    requires IsLatest(days, a) && IsLatest(days, b)
    ensures a == b
  {
    hide Before;
    if days != {} { BeforeTotal(a.value, b.value); }
  }

  // The days around a missing one: the cache says one day, three were read.
  lemma StaleCacheWitness(n: int)
    requires Keyed(n) && Keyed(n + 1) && Keyed(n + 2)
    ensures var before, days := {IsoDay(n), IsoDay(n + 2)}, {IsoDay(n), IsoDay(n + 1), IsoDay(n + 2)};
            exists cache :: CacheOk(cache, before) && IsLatest(days, cache.lastActiveDayKey)
              && cache.longestStreak == 1 && LongestStreak(DayNumbers(days)) == 3
  {
    var before, days := {IsoDay(n), IsoDay(n + 2)}, {IsoDay(n), IsoDay(n + 1), IsoDay(n + 2)};
    hide IsoDay, ParseDay, Keyed, Before, IsDayKey, DayOf;
    KeyFacts(n);
    KeyFacts(n + 1);
    KeyFacts(n + 2);
    KeyOrder(n, n + 2);
    KeyOrder(n + 2, n);
    KeyOrder(n + 1, n + 2);
    KeyOrder(n + 2, n + 1);
    BeforeIrreflexive(IsoDay(n + 2));
    NumbersOf(before, {n, n + 2});
    NumbersOf(days, {n, n + 1, n + 2});
    hide DayNumbers;
    OneApart(n);
    var cache := Cache(1, 1, Some(IsoDay(n + 2)));
    assert CacheOk(cache, before) && IsLatest(days, cache.lastActiveDayKey);
  }

  lemma KeyFacts(n: int)
    requires Keyed(n)
    ensures IsDayKey(IsoDay(n)) && DayOf(IsoDay(n)) == n
  {
    ParseOfIsoDay(n);
    hide ParseDay, IsoDay, Keyed;
  }

  lemma NumbersOf(keys: set<string>, numbers: set<int>)
    requires forall s :: s in keys ==> IsDayKey(s) && DayOf(s) in numbers
    requires forall d :: d in numbers ==> IsoDay(d) in keys && IsDayKey(IsoDay(d)) && DayOf(IsoDay(d)) == d
    ensures DayNumbers(keys) == numbers
  {
    hide IsDayKey, DayOf, IsoDay;
    forall d | d in numbers ensures d in DayNumbers(keys) { assert IsoDay(d) in keys; }
  }

  lemma OneApart(n: int)
    ensures LongestStreak({n, n + 2}) == 1 && LongestStreak({n, n + 1, n + 2}) == 3
  {
    var two, three := {n, n + 2}, {n, n + 1, n + 2};
    assert Stretch(two, n, n + 1) && Stretch(three, n, n + 3);
    forall f, e | f <= e && Stretch(two, f, e) ensures e - f <= 1 {
      assert f < e ==> f in two;
      assert f + 1 < e ==> f + 1 in two;
    }
    LongestIsUnique(two, 1);
    forall f, e | f <= e && Stretch(three, f, e) ensures e - f <= 3 {
      StretchFits(three, f, e);
    }
    LongestIsUnique(three, 3);
  }

  // ── The service ──

  // The clock reads a year that day keys print with four digits.
  predicate FourDigitYear(now: int) {
    var n := (now + UTC_OFFSET_MS) / MS_PER_DAY;
    Keyed(n) && 1000 <= CivilOf(n).year
  }

  lemma NowIsDayKey(now: int)
    requires FourDigitYear(now)
    ensures IsDayKey(ToDayKey(now)) && DayOf(ToDayKey(now)) == (now + UTC_OFFSET_MS) / MS_PER_DAY
  {
    hide ParseDay, IsoDay, ToDayKey;
    ToDayKeyIsIso(now);
    ParseOfIsoDay((now + UTC_OFFSET_MS) / MS_PER_DAY);
  }

  class ProgressService {
    var events: seq<Event>
    var receipts: Receipts
    var claims: TypeClaims
    var daily: Rollup
    var caches: map<UserId, Cache>
    ghost var log: seq<Call>

    // Every table says what the history of calls makes it say.
    ghost predicate Valid()
      reads this
    {
      && KeysOk(log) && EventsOk(events, log) && ReceiptsOk(receipts, log) && ClaimsOk(claims, log)
      && RollupOk(daily, log) && CachesOk(caches, log)
    }

    constructor ()
      ensures Valid() && log == []
    {
      events, receipts, claims, daily, caches, log := [], {}, {}, map[], map[], [];
    }

    method ClaimReceipt(user: UserId, operationId: string) returns (replayed: bool)
      modifies this`receipts
      ensures replayed <==> operationId != "" && (user, operationId) in old(receipts)
      ensures receipts == if operationId == "" then old(receipts) else old(receipts) + {(user, operationId)}
    {
      if operationId == "" { return false; }
      replayed := (user, operationId) in receipts;
      receipts := receipts + {(user, operationId)};
    }

    method ClaimActivityType(user: UserId, dayKey: string, kind: ActivityType) returns (counted: bool)
      modifies this`claims
      ensures counted <==> (user, dayKey, kind) !in old(claims)
      ensures claims == old(claims) + {(user, dayKey, kind)}
    {
      counted := (user, dayKey, kind) !in claims;
      claims := claims + {(user, dayKey, kind)};
    }

    method ApplyDailyRollup(user: UserId, dayKey: string, pagesDelta: nat, incrementActivityCount: bool)
      modifies this`daily
      ensures daily == RolledUp(old(daily), user, dayKey, pagesDelta, incrementActivityCount)
    {
      var key := (user, dayKey);
      if key in daily {
        var row := daily[key].(pagesRead := daily[key].pagesRead + pagesDelta);
        if incrementActivityCount { row := row.(activityCount := row.activityCount + 1); }
        daily := daily[key := row];
      } else {
        daily := daily[key := Daily(pagesDelta, if incrementActivityCount then 1 else 0)];
      }
    }

    // The query for a user's days, in key order.
    method ReadDayKeys(user: UserId) returns (days: seq<string>)
      ensures Ascending(days) && forall d :: d in days <==> (user, d) in daily
    {
      days := [];
      var rest := set k | k in daily && k.0 == user;
      while rest != {}
        invariant rest <= set k | k in daily && k.0 == user
        invariant Ascending(days)
        invariant forall d :: d in days <==> (user, d) in daily && (user, d) !in rest
        decreases |rest|
      {
        var key :| key in rest;
        InsertAscending(days, key.1);
        days := Insert(days, key.1);
        rest := rest - {key};
      }
    }

    // Computes the streaks from all days and caches them with the last of the days.
    method RefreshCache(user: UserId, todayDayKey: string)
      requires KeysOk(log) && RollupOk(daily, log) && IsDayKey(todayDayKey)
      modifies this`caches
      ensures user in caches && caches == old(caches)[user := caches[user]]
      ensures CacheOk(caches[user], DaysOf(log, user))
      ensures caches[user].currentStreak == CurrentStreak(DayNumbers(DaysOf(log, user)), DayOf(todayDayKey))
    {
      var days := ReadDayKeys(user);
      DaysRead(daily, log, user, days);
      hide IsDayKey, RollupOk, DaysOf, Ascending, DayOf;
      var currentStreak := CurrentStreakFromDays(days, todayDayKey);
      var longestStreak := LongestStreakFromDays(days);
      var lastActiveDayKey := if days == [] then None else Some(days[|days| - 1]);
      caches := caches[user := Cache(currentStreak, longestStreak, lastActiveDayKey)];
    }

    // Records one activity. The pages count once for each operation id, and a type counts once a day.
    method RecordActivity(user: UserId, kind: ActivityType, pagesDelta: Number, operationId: string, now: int)
      returns (dayKey: string, counted: bool)
      requires Valid() && FourDigitYear(now)
      modifies this
      ensures Valid()
      ensures dayKey == ToDayKey(now)
      ensures log == old(log) + [Call(user, kind, dayKey, ClampPagesDelta(pagesDelta), operationId)]
      ensures counted <==> kind !in TypesOn(old(log), user, dayKey)
      ensures events == old(events) + [Event(user, kind, dayKey, ClampPagesDelta(pagesDelta))]
      ensures claims == old(claims) + {(user, dayKey, kind)}
      ensures receipts == if operationId == "" then old(receipts) else old(receipts) + {(user, operationId)}
      ensures daily == old(daily)[(user, dayKey) := DayAfter(old(daily), user, dayKey,
                                    if operationId != "" && (user, operationId) in old(receipts) then 0 else ClampPagesDelta(pagesDelta),
                                    (user, dayKey, kind) in old(claims))]
      ensures user in caches && caches == old(caches)[user := caches[user]]
      ensures caches[user].currentStreak
                == CurrentStreak(DayNumbers(DaysOf(log, user)), (now + UTC_OFFSET_MS) / MS_PER_DAY)
    {
      hide Valid, IsDayKey, DayOf, ToDayKey, ClampPagesDelta;
      dayKey := ToDayKey(now);
      NowIsDayKey(now);
      var pages := ClampPagesDelta(pagesDelta);
      counted := RecordInTransaction(user, kind, dayKey, pages, operationId);
    }

    method RecordInTransaction(user: UserId, kind: ActivityType, dayKey: string, pages: nat, operationId: string)
      returns (counted: bool)
      requires Valid() && IsDayKey(dayKey)
      modifies this
      ensures Valid()
      ensures log == old(log) + [Call(user, kind, dayKey, pages, operationId)]
      ensures counted <==> kind !in TypesOn(old(log), user, dayKey)
      ensures events == old(events) + [Event(user, kind, dayKey, pages)]
      ensures claims == old(claims) + {(user, dayKey, kind)}
      ensures receipts == if operationId == "" then old(receipts) else old(receipts) + {(user, operationId)}
      ensures daily == old(daily)[(user, dayKey) := DayAfter(old(daily), user, dayKey,
                                    if operationId != "" && (user, operationId) in old(receipts) then 0 else pages,
                                    (user, dayKey, kind) in old(claims))]
      ensures user in caches && caches == old(caches)[user := caches[user]]
      ensures caches[user].currentStreak == CurrentStreak(DayNumbers(DaysOf(log, user)), DayOf(dayKey))
    {
      ghost var call := Call(user, kind, dayKey, pages, operationId);
      hide KeysOk, EventsOk, ReceiptsOk, ClaimsOk, RollupOk, CachesOk, CacheOk, IsReplay, TypesOn, DaysOf, IsDayKey, DayOf;
      hide RolledUp, DayAfter;
      RolledUpDay(daily, user, dayKey, if operationId != "" && (user, operationId) in receipts then 0 else pages, (user, dayKey, kind) in claims);
      EventsStep(events, log, call);
      ReceiptsKnowReplays(receipts, log, call);
      ReceiptsStep(receipts, log, call);
      ClaimsStep(claims, log, call);
      RollupStep(daily, log, call, kind !in TypesOn(log, user, dayKey));
      ghost var before := log;
      events := events + [Event(user, kind, dayKey, pages)];
      var replayed := ClaimReceipt(user, operationId);
      counted := ClaimActivityType(user, dayKey, kind);
      ApplyDailyRollup(user, dayKey, if replayed then 0 else pages, counted);
      log := log + [call];
      RefreshCache(user, dayKey);
      CachesStep(old(caches), before, call, caches[user]);
    }

    method ReadLatestDayKey(user: UserId) returns (latest: Option<string>)
      requires KeysOk(log) && RollupOk(daily, log)
      ensures IsLatest(DaysOf(log, user), latest)
    {
      var days := ReadDayKeys(user);
      DaysRead(daily, log, user, days);
      latest := if days == [] then None else Some(days[|days| - 1]);
    }

    // Serves the cache while its last day is the user's latest day, and recomputes otherwise. With a cache of all recorded
    // days either way gives the longest streak of all recorded days.
    method ResolveLongestStreak(user: UserId) returns (longest: nat)
      requires KeysOk(log) && RollupOk(daily, log)
      ensures longest == Served(if user in caches then Some(caches[user]) else None, DaysOf(log, user))
      ensures CachesOk(caches, log) ==> longest == LongestStreak(DayNumbers(DaysOf(log, user)))
    {
      hide KeysOk, RollupOk, CachesOk, IsLatest, DaysOf, CacheOk;
      if CachesOk(caches, log) { CacheAgrees(caches, log, user); }
      if user in caches {
        var latestDayKey := ReadLatestDayKey(user);
        if IsLatest(DaysOf(log, user), caches[user].lastActiveDayKey) {
          LatestIsUnique(DaysOf(log, user), caches[user].lastActiveDayKey, latestDayKey);
        }
        if caches[user].lastActiveDayKey == latestDayKey { return caches[user].longestStreak; }
      }
      var days := ReadDayKeys(user);
      DaysRead(daily, log, user, days);
      longest := LongestStreakFromDays(days);
    }
  }

  lemma DaysRead(daily: Rollup, log: seq<Call>, user: UserId, days: seq<string>)
    requires KeysOk(log) && RollupOk(daily, log) && Ascending(days) && forall d :: d in days <==> (user, d) in daily
    ensures (forall d :: d in days <==> d in DaysOf(log, user)) && AllDayKeys(days)
    ensures DaySet(days) == DayNumbers(DaysOf(log, user))
    ensures IsLatest(DaysOf(log, user), if days == [] then None else Some(days[|days| - 1]))
  {
    hide IsDayKey, DayOf, Before;
    forall d ensures d in days <==> d in DaysOf(log, user) {
      assert RowOk(daily, log, user, d);
    }
    var keys := DaysOf(log, user);
    if days == [] {
      assert keys == {};
    } else {
      var last := days[|days| - 1];
      assert last in days;
      forall s | s in keys ensures !Before(last, s) {
        var i :| 0 <= i < |days| && days[i] == s;
        if i < |days| - 1 && Before(last, s) { BeforeTransitive(s, last, s); }
        BeforeIrreflexive(s);
      }
    }
  }
}
