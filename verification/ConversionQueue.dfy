// The queue of conversion jobs: claimed oldest first, retried at most MAX_CONVERSION_ATTEMPTS times.
module ConversionQueue {
  import opened Prelude
  import opened ContentModel

  const MAX_CONVERSION_ATTEMPTS := 3
  const STALE_AFTER_MS := 15 * 60 * 1000

  type Time = int

  datatype Status = PENDING | PROCESSING | READY | FAILED

  datatype Job = Job(bookId: BookId, status: Status, attempts: nat, createdAt: Time, lockedAt: Option<Time>,
                     lastError: Option<string>)

  // The conversion columns of a book. Only a failed conversion has an error.
  datatype Conversion = NotApplicable | AwaitingConversion | Converted | ConversionFailed(error: string)

  // Job ids are positions. A book that is not in `books` has never been submitted.
  datatype Queue = Queue(jobs: seq<Job>, books: map<BookId, Conversion>)

  function ConversionOf(q: Queue, book: BookId): Conversion {
    if book in q.books then q.books[book] else NotApplicable
  }

  // ── The operations ──

  predicate StaleAt(job: Job, before: Time) {
    job.status.PROCESSING? && job.lockedAt.Some? && job.lockedAt.value < before
  }

  predicate Eligible(job: Job, now: Time) {
    job.status.PENDING? || StaleAt(job, now - STALE_AFTER_MS)
  }

  ghost predicate OldestEligible(jobs: seq<Job>, id: nat, now: Time) {
    && id < |jobs| && Eligible(jobs[id], now)
    && forall k :: 0 <= k < |jobs| && Eligible(jobs[k], now) ==> jobs[id].createdAt <= jobs[k].createdAt
  }

  function Enqueued(q: Queue, book: BookId, now: Time): Queue {
    q.(jobs := q.jobs + [Job(book, PENDING, 0, now, None, None)])
  }

  // An upload or a retry: a new job, and whatever the columns said before is wiped.
  function Submitted(q: Queue, book: BookId, now: Time): Queue {
    Enqueued(q, book, now).(books := q.books[book := AwaitingConversion])
  }

  // A conversion commits while it holds the book's newest reservation.
  function Published(q: Queue, book: BookId): Queue {
    q.(books := q.books[book := Converted])
  }

  function Claimed(q: Queue, id: nat, now: Time): Queue
    requires id < |q.jobs|
  {
    q.(jobs := q.jobs[id := q.jobs[id].(status := PROCESSING, lockedAt := Some(now))])
  }

  function Completed(q: Queue, id: nat): Queue
    requires id < |q.jobs|
  {
    q.(jobs := q.jobs[id := q.jobs[id].(status := READY, lockedAt := None, lastError := None)])
  }

  function FailedOnce(job: Job, error: string): Job {
    job.(status := if job.attempts + 1 >= MAX_CONVERSION_ATTEMPTS then FAILED else PENDING,
         lockedAt := None, lastError := Some(error), attempts := job.attempts + 1)
  }

  function Failed(q: Queue, id: nat, error: string): Queue
    requires id < |q.jobs|
  {
    var job := FailedOnce(q.jobs[id], error);
    Queue(q.jobs[id := job], if job.status.FAILED? then q.books[job.bookId := ConversionFailed(error)] else q.books)
  }

  function Requeued(job: Job, before: Time): Job {
    if StaleAt(job, before) then job.(status := PENDING, lockedAt := None) else job
  }

  function RequeuedAll(jobs: seq<Job>, before: Time): (r: seq<Job>)
    ensures |r| == |jobs| && forall i :: 0 <= i < |r| ==> r[i] == Requeued(jobs[i], before)
  {
    seq(|jobs|, i requires 0 <= i < |jobs| => Requeued(jobs[i], before))
  }

  // ── Runs of several workers ──

  // A worker holds the job it claimed until it completes or fails it, or stops for good. `claims` is history: how often
  // each job has been claimed.
  datatype System = System(queue: Queue, workers: map<nat, nat>, claims: seq<nat>)

  datatype Event =
    | Upload(book: BookId, at: Time)
    | Retry(book: BookId, at: Time)
    | Claim(worker: nat, id: nat, at: Time)
    | Publish(worker: nat)
    | Complete(worker: nat)
    | Fail(worker: nat, error: string)
    | Crash(worker: nat)
    | Requeue(at: Time, olderThan: nat)

  ghost predicate Applies(s: System, e: Event) {
    match e
    case Upload(_, _) => true
    case Retry(book, _) => ConversionOf(s.queue, book).ConversionFailed?
    case Claim(worker, id, at) => worker !in s.workers && OldestEligible(s.queue.jobs, id, at) && id < |s.claims|
    case Publish(worker) => worker in s.workers && s.workers[worker] < |s.queue.jobs|
    case Complete(worker) => worker in s.workers && s.workers[worker] < |s.queue.jobs|
    case Fail(worker, _) => worker in s.workers && s.workers[worker] < |s.queue.jobs|
    case Crash(worker) => worker in s.workers
    case Requeue(_, _) => true
  }

  // An event that does not apply does nothing.
  ghost function Next(s: System, e: Event): System {
    if !Applies(s, e) then s else
      match e
      case Upload(book, at) => s.(queue := Submitted(s.queue, book, at), claims := s.claims + [0])
      case Retry(book, at) => s.(queue := Submitted(s.queue, book, at), claims := s.claims + [0])
      case Claim(worker, id, at) =>
        System(Claimed(s.queue, id, at), s.workers[worker := id], s.claims[id := s.claims[id] + 1])
      case Publish(worker) => s.(queue := Published(s.queue, s.queue.jobs[s.workers[worker]].bookId))
      case Complete(worker) => s.(queue := Completed(s.queue, s.workers[worker]), workers := s.workers - {worker})
      case Fail(worker, error) => s.(queue := Failed(s.queue, s.workers[worker], error), workers := s.workers - {worker})
      case Crash(worker) => s.(workers := s.workers - {worker})
      case Requeue(at, olderThan) => s.(queue := s.queue.(jobs := RequeuedAll(s.queue.jobs, at - olderThan)))
  }

  ghost function Run(s: System, events: seq<Event>): System
    decreases |events|
  {
    if events == [] then s else Run(Next(s, events[0]), events[1..])
  }

  const EMPTY := System(Queue([], map[]), map[], [])

  // The event does not take a job out of the hands of whoever locked it: no stale lock is claimed or requeued.
  ghost predicate TakesNoLock(s: System, e: Event) {
    match e
    case Claim(_, id, _) => Applies(s, e) ==> !s.queue.jobs[id].status.PROCESSING?
    case Requeue(at, olderThan) => forall i :: 0 <= i < |s.queue.jobs| ==> !StaleAt(s.queue.jobs[i], at - olderThan)
    case _ => true
  }

  ghost predicate NoLockIsTaken(s: System, events: seq<Event>)
    decreases |events|
  {
    events == [] || (TakesNoLock(s, events[0]) && NoLockIsTaken(Next(s, events[0]), events[1..]))
  }

  // ── What every step does to the rows ──

  // The job waits, or has been locked for more than fifteen minutes by a worker that has not settled it.
  ghost predicate MayBeClaimed(job: Job, now: Time) {
    job.status == PENDING || (job.status == PROCESSING && exists at :: job.lockedAt == Some(at) && at + 900_000 < now)
  }

  // A worker that holds no job claims one that may be claimed and that no other such job is older than; it settles or
  // publishes the job it holds; and a retry needs a failed conversion.
  lemma AppliesExactly(s: System, e: Event)
    requires |s.claims| == |s.queue.jobs| && forall w :: w in s.workers ==> s.workers[w] < |s.queue.jobs|
    ensures Applies(s, e) <==>
              match e
              case Upload(_, _) => true
              case Retry(book, _) => exists error :: book in s.queue.books && s.queue.books[book] == ConversionFailed(error)
              case Claim(worker, id, at) =>
                && worker !in s.workers && id < |s.queue.jobs| && MayBeClaimed(s.queue.jobs[id], at)
                && forall k :: 0 <= k < |s.queue.jobs| && s.queue.jobs[k].createdAt < s.queue.jobs[id].createdAt ==> !MayBeClaimed(s.queue.jobs[k], at)
              case Publish(worker) => worker in s.workers
              case Complete(worker) => worker in s.workers
              case Fail(worker, _) => worker in s.workers
              case Crash(worker) => worker in s.workers
              case Requeue(_, _) => true
  {
    EligibleMeaning(s.queue.jobs, e);
    hide Eligible, MayBeClaimed;
  }

  lemma EligibleMeaning(jobs: seq<Job>, e: Event)
    ensures e.Claim? ==> forall k :: 0 <= k < |jobs| ==> (Eligible(jobs[k], e.at) <==> MayBeClaimed(jobs[k], e.at))
  {
  }

  // A new job waits, with no attempt made; a claim locks its job; completing ends it; a failure counts one more attempt and
  // ends it at the third; requeueing unlocks the jobs locked before the limit. Nothing else about any job ever changes.
  lemma StepOnJobs(s: System, e: Event)
    requires Applies(s, e)
    ensures var jobs, after := s.queue.jobs, Next(s, e).queue.jobs;
            match e
            case Upload(book, at) => after == jobs + [Job(book, PENDING, 0, at, None, None)]
            case Retry(book, at) => after == jobs + [Job(book, PENDING, 0, at, None, None)]
            case Claim(_, id, at) =>
              var job := jobs[id];
              after == jobs[id := Job(job.bookId, PROCESSING, job.attempts, job.createdAt, Some(at), job.lastError)]
            case Complete(worker) =>
              var job := jobs[s.workers[worker]];
              after == jobs[s.workers[worker] := Job(job.bookId, READY, job.attempts, job.createdAt, None, None)]
            case Fail(worker, error) =>
              var job := jobs[s.workers[worker]];
              after == jobs[s.workers[worker] := Job(job.bookId, if job.attempts < 2 then PENDING else FAILED, job.attempts + 1,
                                                     job.createdAt, None, Some(error))]
            case Requeue(at, olderThan) =>
              |after| == |jobs| && forall i :: 0 <= i < |jobs| ==> RequeuedRow(jobs[i], after[i], at, olderThan)
            case _ => after == jobs
  {
    hide OldestEligible;
  }

  ghost predicate RequeuedRow(job: Job, after: Job, at: Time, olderThan: nat) {
    if job.status == PROCESSING && job.lockedAt != None && job.lockedAt.value < at - olderThan
    then after == Job(job.bookId, PENDING, job.attempts, job.createdAt, None, job.lastError) else after == job
  }

  // A claim hands its job to the worker; settling it or crashing takes it away.
  lemma StepOnWorkers(s: System, e: Event)
    requires Applies(s, e)
    ensures var workers, after := s.workers, Next(s, e).workers;
            match e
            case Claim(worker, id, _) => after == workers[worker := id]
            case Complete(worker) => after == workers - {worker}
            case Fail(worker, _) => after == workers - {worker}
            case Crash(worker) => after == workers - {worker}
            case _ => after == workers
  {
    hide OldestEligible;
  }

  // ── The attempt bound ──

  ghost predicate JobOk(job: Job, claims: nat) {
    && job.attempts <= MAX_CONVERSION_ATTEMPTS
    && (job.status.FAILED? <==> job.attempts == MAX_CONVERSION_ATTEMPTS)
    && claims == job.attempts + if job.status.PROCESSING? || job.status.READY? then 1 else 0
  }

  ghost predicate JobsOk(s: System) {
    |s.claims| == |s.queue.jobs| && forall i :: 0 <= i < |s.claims| ==> JobOk(s.queue.jobs[i], s.claims[i])
  }

  // Every held job is being processed, and by one worker.
  ghost predicate HoldersOk(s: System) {
    && (forall w :: w in s.workers ==> s.workers[w] < |s.queue.jobs| && s.queue.jobs[s.workers[w]].status.PROCESSING?)
    && (forall v, w :: v in s.workers && w in s.workers && s.workers[v] == s.workers[w] ==> v == w)
  }

  // A book whose conversion is marked as failed has a job that was given up.
  ghost predicate MarksOk(q: Queue) {
    forall book :: ConversionOf(q, book).ConversionFailed? ==>
      exists i :: 0 <= i < |q.jobs| && q.jobs[i].bookId == book && q.jobs[i].status.FAILED?
  }

  // Jobs that were given up stay given up, and no book is newly marked.
  lemma MarksFrame(q: Queue, r: Queue)
    requires MarksOk(q) && |q.jobs| <= |r.jobs|
    requires forall i :: 0 <= i < |q.jobs| && q.jobs[i].status.FAILED? ==>
               r.jobs[i].bookId == q.jobs[i].bookId && r.jobs[i].status.FAILED?
    requires forall book :: ConversionOf(r, book).ConversionFailed? ==> ConversionOf(q, book).ConversionFailed?
    ensures MarksOk(r)
  {
    forall book | ConversionOf(r, book).ConversionFailed?
      ensures exists i :: 0 <= i < |r.jobs| && r.jobs[i].bookId == book && r.jobs[i].status.FAILED?
    {
      var i :| 0 <= i < |q.jobs| && q.jobs[i].bookId == book && q.jobs[i].status.FAILED?;
      assert r.jobs[i].bookId == book;
    }
  }

  lemma GivingUpMarks(q: Queue, id: nat, error: string)
    requires MarksOk(q) && id < |q.jobs| && !q.jobs[id].status.FAILED?
    ensures MarksOk(Failed(q, id, error))
  {
    var job, r := FailedOnce(q.jobs[id], error), Failed(q, id, error);
    if job.status.FAILED? {
      assert r.jobs[id].bookId == job.bookId;
      forall book | ConversionOf(r, book).ConversionFailed?
        ensures exists i :: 0 <= i < |r.jobs| && r.jobs[i].bookId == book && r.jobs[i].status.FAILED?
      {
        if book != job.bookId {
          assert ConversionOf(q, book).ConversionFailed?;
          var i :| 0 <= i < |q.jobs| && q.jobs[i].bookId == book && q.jobs[i].status.FAILED?;
          assert r.jobs[i].bookId == book;
        }
      }
    } else {
      MarksFrame(q, r);
    }
  }

  lemma NextKeepsMarks(s: System, e: Event)
    requires HoldersOk(s) && TakesNoLock(s, e) && MarksOk(s.queue)
    ensures MarksOk(Next(s, e).queue)
  {
    hide MarksOk, FailedOnce;
    if Applies(s, e) {
      match e
      case Fail(worker, error) => GivingUpMarks(s.queue, s.workers[worker], error);
      case _ => MarksFrame(s.queue, Next(s, e).queue);
    }
  }

  lemma NextKeepsJobs(s: System, e: Event)
    requires JobsOk(s) && HoldersOk(s) && TakesNoLock(s, e)
    ensures JobsOk(Next(s, e))
  {
  }

  // The counts stay right exactly as long as nobody takes over a lock.
  lemma CountsBreakExactlyByTakeOver(s: System, e: Event)
    requires JobsOk(s) && HoldersOk(s)
    ensures JobsOk(Next(s, e)) <==> TakesNoLock(s, e)
  {
    if TakesNoLock(s, e) {
      NextKeepsJobs(s, e);
    } else if e.Claim? {
      assert JobOk(s.queue.jobs[e.id], s.claims[e.id]);
      assert !JobOk(Next(s, e).queue.jobs[e.id], Next(s, e).claims[e.id]);
    } else {
      var i :| 0 <= i < |s.queue.jobs| && StaleAt(s.queue.jobs[i], e.at - e.olderThan);
      assert JobOk(s.queue.jobs[i], s.claims[i]);
      assert !JobOk(Next(s, e).queue.jobs[i], Next(s, e).claims[i]);
    }
  }

  // ── The cap itself ──

  // What a job's row promises: at most three attempts, and FAILED exactly at three.
  predicate Capped(jobs: seq<Job>) {
    forall i :: 0 <= i < |jobs| ==>
      && jobs[i].attempts <= MAX_CONVERSION_ATTEMPTS
      && (jobs[i].status.FAILED? <==> jobs[i].attempts == MAX_CONVERSION_ATTEMPTS)
  }

  // A worker completes or fails a job that another worker has already brought to FAILED.
  ghost predicate SettlesGivenUp(s: System, e: Event) {
    (e.Complete? || e.Fail?) && Applies(s, e) && s.queue.jobs[s.workers[e.worker]].status.FAILED?
  }

  // Whatever locks are taken over, a step breaks the cap exactly when it settles a job that is FAILED already.
  lemma CapBreaksExactlyByLateSettling(s: System, e: Event)
    requires Capped(s.queue.jobs)
    ensures Capped(Next(s, e).queue.jobs) <==> !SettlesGivenUp(s, e)
  {
    if SettlesGivenUp(s, e) {
      var id := s.workers[e.worker];
      assert Next(s, e).queue.jobs[id].attempts >= MAX_CONVERSION_ATTEMPTS;
    }
  }

  ghost predicate AlwaysCapped(s: System, events: seq<Event>)
    decreases |events|
  {
    Capped(s.queue.jobs) && (events != [] ==> AlwaysCapped(Next(s, events[0]), events[1..]))
  }

  ghost predicate NeverSettlesGivenUp(s: System, events: seq<Event>)
    decreases |events|
  {
    events == [] || (!SettlesGivenUp(s, events[0]) && NeverSettlesGivenUp(Next(s, events[0]), events[1..]))
  }

  // Over any run, with locks going stale and being taken over: the cap holds at every point exactly when no worker settles
  // a job that is FAILED by then.
  lemma {:induction false} CapHoldsExactly(s: System, events: seq<Event>)
    requires Capped(s.queue.jobs)
    ensures AlwaysCapped(s, events) <==> NeverSettlesGivenUp(s, events)
    decreases |events|
  {
    hide Next, Capped, SettlesGivenUp;
    if events != [] {
      CapBreaksExactlyByLateSettling(s, events[0]);
      if !SettlesGivenUp(s, events[0]) { CapHoldsExactly(Next(s, events[0]), events[1..]); }
      else { UncappedAtOnce(Next(s, events[0]), events[1..]); }
    }
  }

  lemma UncappedAtOnce(s: System, events: seq<Event>)
    requires !Capped(s.queue.jobs)
    ensures !AlwaysCapped(s, events)
  {
  }

  lemma NextKeepsHolders(s: System, e: Event)
    requires JobsOk(s) && HoldersOk(s) && TakesNoLock(s, e)
    ensures HoldersOk(Next(s, e))
  {
    hide JobOk;
    if e.Requeue? { assert RequeuedAll(s.queue.jobs, e.at - e.olderThan) == s.queue.jobs; }
  }

  lemma {:induction false} RunKeeps(s: System, events: seq<Event>)
    requires JobsOk(s) && HoldersOk(s) && MarksOk(s.queue) && NoLockIsTaken(s, events)
    ensures JobsOk(Run(s, events)) && HoldersOk(Run(s, events)) && MarksOk(Run(s, events).queue)
    decreases |events|
  {
    hide JobsOk, HoldersOk, MarksOk, TakesNoLock, Next;
    if events != [] {
      NextKeepsJobs(s, events[0]);
      NextKeepsHolders(s, events[0]);
      NextKeepsMarks(s, events[0]);
      RunKeeps(Next(s, events[0]), events[1..]);
    }
  }

  // However many workers claim, fail, complete and crash, as long as no lock is taken over: a job is claimed at most three
  // times, fails at most three times, and is FAILED exactly when it has failed three times; and a book marked as failed
  // has a FAILED job.
  lemma AttemptsAreBounded(events: seq<Event>)
    requires NoLockIsTaken(EMPTY, events)
    ensures var s := Run(EMPTY, events);
            && |s.claims| == |s.queue.jobs|
            && Capped(s.queue.jobs)
            && forall i :: 0 <= i < |s.claims| ==> s.claims[i] <= MAX_CONVERSION_ATTEMPTS
    ensures MarksOk(Run(EMPTY, events).queue)
  {
    RunKeeps(EMPTY, events);
  }

  // One job that has failed `attempts` times, held by `workers`.
  function OneJob(status: Status, attempts: nat, lockedAt: Option<Time>, workers: map<nat, nat>, claims: nat): System {
    System(Queue([Job("book", status, attempts, 0, lockedAt, if attempts == 0 then None else Some("x"))],
                 map["book" := if status.FAILED? then ConversionFailed("x") else AwaitingConversion]), workers, [claims])
  }

  lemma ClaimAndFail(attempts: nat, claims: nat)
    requires attempts < 2
    ensures var s := OneJob(PENDING, attempts, None, map[], claims);
            Next(Next(s, Claim(1, 0, 0)), Fail(1, "x")) == OneJob(PENDING, attempts + 1, None, map[], claims + 1)
  {
    var s := OneJob(PENDING, attempts, None, map[], claims);
    assert OldestEligible(s.queue.jobs, 0, 0);
    var held := Next(s, Claim(1, 0, 0));
    assert held == OneJob(PROCESSING, attempts, Some(0), map[1 := 0], claims + 1);
    assert held.workers - {1} == map[];
  }

  lemma TakeOver()
    ensures var s := OneJob(PENDING, 2, None, map[], 2);
            Next(Next(s, Claim(1, 0, 0)), Claim(2, 0, STALE_AFTER_MS + 1))
              == OneJob(PROCESSING, 2, Some(STALE_AFTER_MS + 1), map[1 := 0, 2 := 0], 4)
  {
    var s := OneJob(PENDING, 2, None, map[], 2);
    assert OldestEligible(s.queue.jobs, 0, 0);
    var held := Next(s, Claim(1, 0, 0));
    assert held == OneJob(PROCESSING, 2, Some(0), map[1 := 0], 3);
    assert OldestEligible(held.queue.jobs, 0, STALE_AFTER_MS + 1);
  }

  lemma SharedFailures()
    ensures var shared := OneJob(PROCESSING, 2, Some(STALE_AFTER_MS + 1), map[1 := 0, 2 := 0], 4);
            Next(Next(shared, Fail(1, "x")), Fail(2, "x")) == OneJob(FAILED, 4, None, map[], 4)
  {
    var shared := OneJob(PROCESSING, 2, Some(STALE_AFTER_MS + 1), map[1 := 0, 2 := 0], 4);
    assert shared.workers - {1} == map[2 := 0] && map[2 := 0] - {2} == map[];
    assert Next(shared, Fail(1, "x")) == OneJob(FAILED, 3, None, map[2 := 0], 4);
  }

  lemma TwiceFailed(events: seq<Event>)
    requires events == [Claim(1, 0, 0), Fail(1, "x"), Claim(1, 0, 0), Fail(1, "x")]
    ensures Run(OneJob(PENDING, 0, None, map[], 0), events) == OneJob(PENDING, 2, None, map[], 2)
  {
    ClaimAndFail(0, 0);
    ClaimAndFail(1, 1);
    hide Next;
    RunFour(OneJob(PENDING, 0, None, map[], 0), events[0], events[1], events[2], events[3]);
  }

  lemma TwiceHeld(events: seq<Event>)
    requires events == [Claim(1, 0, 0), Claim(2, 0, STALE_AFTER_MS + 1), Fail(1, "x"), Fail(2, "x")]
    ensures Run(OneJob(PENDING, 2, None, map[], 2), events) == OneJob(FAILED, 4, None, map[], 4)
  {
    TakeOver();
    SharedFailures();
    hide Next;
    RunFour(OneJob(PENDING, 2, None, map[], 2), events[0], events[1], events[2], events[3]);
  }

  // Once a stale lock is taken over two workers hold one job, and its failures add up past the cap.
  lemma StaleReclaimBreaksTheCap()
    ensures exists events :: var jobs := Run(EMPTY, events).queue.jobs;
              |jobs| == 1 && jobs[0].status.FAILED? && jobs[0].attempts == MAX_CONVERSION_ATTEMPTS + 1
  {
    var first := Upload("book", 0);
    assert Next(EMPTY, first) == OneJob(PENDING, 0, None, map[], 0);
    hide Next, Run, Applies;
    var failing := [Claim(1, 0, 0), Fail(1, "x"), Claim(1, 0, 0), Fail(1, "x")];
    var racing := [Claim(1, 0, 0), Claim(2, 0, STALE_AFTER_MS + 1), Fail(1, "x"), Fail(2, "x")];
    TwiceFailed(failing);
    TwiceHeld(racing);
    RunConcat(OneJob(PENDING, 0, None, map[], 0), failing, racing);
    RunCons(EMPTY, first, failing + racing);
    assert Run(EMPTY, [first] + (failing + racing)) == OneJob(FAILED, 4, None, map[], 4);
  }

  lemma RunFour(s: System, a: Event, b: Event, c: Event, d: Event)
    ensures Run(s, [a, b, c, d]) == Next(Next(Next(Next(s, a), b), c), d)
  {
    hide Next;
    RunCons(s, a, [b, c, d]);
    RunCons(Next(s, a), b, [c, d]);
    RunCons(Next(Next(s, a), b), c, [d]);
    RunCons(Next(Next(Next(s, a), b), c), d, []);
    assert [a] + [b, c, d] == [a, b, c, d] && [b] + [c, d] == [b, c, d] && [c] + [d] == [c, d] && [d] + [] == [d];
  }

  lemma {:induction false} RunConcat(s: System, first: seq<Event>, second: seq<Event>)
    ensures Run(s, first + second) == Run(Run(s, first), second)
    decreases |first|
  {
    hide Next;
    if first == [] {
      assert first + second == second;
    } else {
      RunConcat(Next(s, first[0]), first[1..], second);
      RunCons(s, first[0], first[1..] + second);
      assert [first[0]] + (first[1..] + second) == first + second;
    }
  }

  lemma RunCons(s: System, e: Event, events: seq<Event>)
    ensures Run(s, [e] + events) == Run(Next(s, e), events)
  {
    assert ([e] + events)[1..] == events;
  }

  // ── Draining ──

  // Steps a job can still cause: a claim and a failure for every attempt it has left.
  function JobWeight(job: Job): nat {
    if MAX_CONVERSION_ATTEMPTS <= job.attempts then 0
    else if job.status.PENDING? then 2 * (MAX_CONVERSION_ATTEMPTS - job.attempts)
    else if job.status.PROCESSING? then 2 * (MAX_CONVERSION_ATTEMPTS - job.attempts) - 1
    else 0
  }

  function Weight(jobs: seq<Job>): nat {
    if jobs == [] then 0 else Weight(jobs[..|jobs| - 1]) + JobWeight(jobs[|jobs| - 1])
  }

  lemma {:induction false} WeightUpdate(jobs: seq<Job>, i: nat, job: Job)
    requires i < |jobs|
    ensures Weight(jobs[i := job]) == Weight(jobs) - JobWeight(jobs[i]) + JobWeight(job)
  {
    var last := |jobs| - 1;
    if i == last {
      assert jobs[i := job][..last] == jobs[..last];
    } else {
      WeightUpdate(jobs[..last], i, job);
      assert jobs[i := job][..last] == jobs[..last][i := job];
    }
  }

  predicate IsSubmission(e: Event) {
    e.Upload? || e.Retry?
  }

  predicate IsWork(e: Event) {
    e.Claim? || e.Complete? || e.Fail?
  }

  // Every claim, completion and failure uses up weight, and only new jobs bring any.
  lemma WorkUsesWeight(s: System, e: Event)
    requires JobsOk(s) && HoldersOk(s) && TakesNoLock(s, e)
    ensures IsWork(e) && Applies(s, e) ==> Weight(Next(s, e).queue.jobs) < Weight(s.queue.jobs)
    ensures Weight(Next(s, e).queue.jobs)
              <= Weight(s.queue.jobs) + if IsSubmission(e) then 2 * MAX_CONVERSION_ATTEMPTS else 0
  {
    hide Weight;
    var jobs := s.queue.jobs;
    if Applies(s, e) {
      match e
      case Upload(book, at) =>
        WeightSnoc(jobs, Job(book, PENDING, 0, at, None, None));
      case Retry(book, at) =>
        WeightSnoc(jobs, Job(book, PENDING, 0, at, None, None));
      case Publish(_) =>
      case Claim(_, id, at) =>
        assert JobOk(jobs[id], s.claims[id]);
        WeightUpdate(jobs, id, Claimed(s.queue, id, at).jobs[id]);
      case Complete(worker) =>
        var id := s.workers[worker];
        assert JobOk(jobs[id], s.claims[id]);
        WeightUpdate(jobs, id, Completed(s.queue, id).jobs[id]);
      case Fail(worker, error) =>
        var id := s.workers[worker];
        assert JobOk(jobs[id], s.claims[id]);
        WeightUpdate(jobs, id, FailedOnce(jobs[id], error));
      case Crash(_) =>
      case Requeue(at, olderThan) =>
        assert RequeuedAll(jobs, at - olderThan) == jobs;
    }
  }

  lemma WeightSnoc(jobs: seq<Job>, job: Job)
    ensures Weight(jobs + [job]) == Weight(jobs) + JobWeight(job)
  {
    assert (jobs + [job])[..|jobs|] == jobs;
  }

  ghost function WorkDone(s: System, events: seq<Event>): nat
    decreases |events|
  {
    if events == [] then 0
    else (if IsWork(events[0]) && Applies(s, events[0]) then 1 else 0) + WorkDone(Next(s, events[0]), events[1..])
  }

  function Submissions(events: seq<Event>): nat {
    if events == [] then 0 else (if IsSubmission(events[0]) then 1 else 0) + Submissions(events[1..])
  }

  lemma {:induction false} WorkFrom(s: System, events: seq<Event>)
    requires JobsOk(s) && HoldersOk(s) && NoLockIsTaken(s, events)
    ensures WorkDone(s, events) + Weight(Run(s, events).queue.jobs)
              <= Weight(s.queue.jobs) + 2 * MAX_CONVERSION_ATTEMPTS * Submissions(events)
    decreases |events|
  {
    hide JobsOk, HoldersOk, TakesNoLock, Next, Applies, Weight;
    if events != [] {
      WorkUsesWeight(s, events[0]);
      NextKeepsJobs(s, events[0]);
      NextKeepsHolders(s, events[0]);
      WorkFrom(Next(s, events[0]), events[1..]);
    }
  }

  // Every queue drains: all the claims, completions and failures of a run together are at most six for each upload
  // or retry.
  lemma FiniteQueueDrains(events: seq<Event>)
    requires NoLockIsTaken(EMPTY, events)
    ensures WorkDone(EMPTY, events) <= 2 * MAX_CONVERSION_ATTEMPTS * Submissions(events)
  {
    WorkFrom(EMPTY, events);
  }

  // A failed job keeps its place: unless it is given up, the next claim takes it again before any younger job.
  lemma RetriesComeFirst(q: Queue, id: nat, now: Time, error: string, later: Time, next: nat)
    requires OldestEligible(q.jobs, id, now) && q.jobs[id].attempts + 1 < MAX_CONVERSION_ATTEMPTS
    requires forall k :: 0 <= k < |q.jobs| && k != id ==> !StaleAt(q.jobs[k], later - STALE_AFTER_MS)
    requires forall k :: 0 <= k < |q.jobs| && k != id && q.jobs[k].status.PENDING? ==> q.jobs[k].createdAt != q.jobs[id].createdAt
    ensures OldestEligible(Failed(Claimed(q, id, now), id, error).jobs, next, later) <==> next == id
  {
    var jobs := Failed(Claimed(q, id, now), id, error).jobs;
    assert Eligible(jobs[id], later);
    forall k | 0 <= k < |jobs| && k != id && Eligible(jobs[k], later) ensures jobs[id].createdAt < jobs[k].createdAt {
      assert jobs[k] == q.jobs[k] && Eligible(q.jobs[k], now);
    }
  }

  // ── The service and the worker ──

  // Every job of a queue with one worker, when that worker holds none.
  ghost predicate Idle(jobs: seq<Job>) {
    Capped(jobs) && forall i :: 0 <= i < |jobs| ==> !jobs[i].status.PROCESSING?
  }

  lemma AllSettled(jobs: seq<Job>, now: Time)
    requires Idle(jobs) && forall i :: 0 <= i < |jobs| ==> !Eligible(jobs[i], now)
    ensures forall i :: 0 <= i < |jobs| ==> jobs[i].status.READY? || jobs[i].status.FAILED?
  {
  }

  // A job claimed, its conversion published or not, and then completed, or failed with an error.
  function Settled(q: Queue, id: nat, now: Time, swaps: bool, outcome: Option<string>): Queue
    requires id < |q.jobs|
  {
    var claimed := Claimed(q, id, now);
    var held := if swaps then Published(claimed, q.jobs[id].bookId) else claimed;
    if outcome.Some? then Failed(held, id, outcome.value) else Completed(held, id)
  }

  // What that leaves of the job and of the columns of its book.
  lemma SettledRows(q: Queue, id: nat, now: Time, swaps: bool, outcome: Option<string>)
    requires id < |q.jobs|
    ensures var job, after := q.jobs[id], Settled(q, id, now, swaps, outcome);
            match outcome
            case None =>
              && after.jobs == q.jobs[id := Job(job.bookId, READY, job.attempts, job.createdAt, None, None)]
              && after.books == if swaps then q.books[job.bookId := Converted] else q.books
            case Some(error) =>
              && after.jobs == q.jobs[id := Job(job.bookId, if job.attempts < 2 then PENDING else FAILED, job.attempts + 1,
                                                job.createdAt, None, Some(error))]
              && after.books == if 2 <= job.attempts then q.books[job.bookId := ConversionFailed(error)]
                                else if swaps then q.books[job.bookId := Converted] else q.books
  {
  }

  lemma SettlingUsesWeight(q: Queue, id: nat, now: Time, swaps: bool, outcome: Option<string>)
    requires Idle(q.jobs) && OldestEligible(q.jobs, id, now)
    ensures var jobs := Settled(q, id, now, swaps, outcome).jobs;
            |jobs| == |q.jobs| && Idle(jobs) && Weight(jobs) < Weight(q.jobs)
  {
    var jobs := Settled(q, id, now, swaps, outcome).jobs;
    assert jobs == q.jobs[id := jobs[id]];
    WeightUpdate(q.jobs, id, jobs[id]);
  }

  class ConversionJobService {
    var jobs: seq<Job>
    var books: map<BookId, Conversion>

    constructor ()
      ensures Contents() == Queue([], map[])
    {
      jobs, books := [], map[];
    }

    function Contents(): Queue
      reads this
    {
      Queue(jobs, books)
    }

    method Enqueue(book: BookId, now: Time)
      modifies this`jobs
      ensures Contents() == Enqueued(old(Contents()), book, now)
    {
      jobs := jobs + [Job(book, PENDING, 0, now, None, None)];
    }

    // The book service's two ways to create a job, on the same tables: an accepted upload, and a retry, which only a
    // failed conversion with a stored original gets.
    method UploadBookFile(book: BookId, now: Time)
      modifies this
      ensures Contents() == Submitted(old(Contents()), book, now)
    {
      books := books[book := AwaitingConversion];
      Enqueue(book, now);
    }

    method RetryConversion(book: BookId, hasOriginal: bool, now: Time) returns (ok: bool)
      modifies this
      ensures ok <==> ConversionOf(old(Contents()), book).ConversionFailed? && hasOriginal
      ensures Contents() == if ok then Submitted(old(Contents()), book, now) else old(Contents())
    {
      if book !in books || !books[book].ConversionFailed? { return false; }
      if !hasOriginal { return false; }
      books := books[book := AwaitingConversion];
      Enqueue(book, now);
      ok := true;
    }

    // Claims an eligible job that no eligible job is older than, if there is any.
    method ClaimNext(now: Time) returns (claimed: Option<nat>)
      modifies this`jobs
      ensures claimed.None? ==> jobs == old(jobs) && forall i :: 0 <= i < |jobs| ==> !Eligible(jobs[i], now)
      ensures claimed.Some? ==> OldestEligible(old(jobs), claimed.value, now) && Contents() == Claimed(old(Contents()), claimed.value, now)
    {
      claimed := None;
      for i := 0 to |jobs|
        invariant claimed.None? ==> forall k :: 0 <= k < i ==> !Eligible(jobs[k], now)
        invariant claimed.Some? ==> claimed.value < i && OldestEligible(jobs[..i], claimed.value, now)
      {
        if Eligible(jobs[i], now) && (claimed.None? || jobs[i].createdAt < jobs[claimed.value].createdAt) {
          claimed := Some(i);
        }
      }
      assert jobs[..|jobs|] == jobs;
      if claimed.Some? {
        jobs := jobs[claimed.value := jobs[claimed.value].(status := PROCESSING, lockedAt := Some(now))];
      }
    }

    // Updating a job that does not exist is an error.
    method Complete(id: nat) returns (ok: bool)
      modifies this`jobs
      ensures ok == (id < |old(jobs)|)
      ensures Contents() == if ok then Completed(old(Contents()), id) else old(Contents())
    {
      ok := id < |jobs|;
      if ok {
        jobs := jobs[id := jobs[id].(status := READY, lockedAt := None, lastError := None)];
      }
    }

    method Fail(id: nat, error: string)
      modifies this
      ensures Contents() == if id < |old(jobs)| then Failed(old(Contents()), id, error) else old(Contents())
    {
      if |jobs| <= id { return; }
      var job := jobs[id];
      if job.attempts + 1 >= MAX_CONVERSION_ATTEMPTS {
        jobs := jobs[id := job.(status := FAILED, lockedAt := None, lastError := Some(error), attempts := job.attempts + 1)];
        books := books[job.bookId := ConversionFailed(error)];
        return;
      }
      jobs := jobs[id := job.(status := PENDING, lockedAt := None, lastError := Some(error), attempts := job.attempts + 1)];
    }

    method RequeueStale(now: Time, olderThan: nat) returns (count: nat)
      modifies this`jobs
      ensures jobs == RequeuedAll(old(jobs), now - olderThan)
      ensures count == |set i | 0 <= i < |old(jobs)| && StaleAt(old(jobs)[i], now - olderThan)|
    {
      count := 0;
      ghost var seen: set<int> := {};
      for i := 0 to |jobs|
        invariant |jobs| == |old(jobs)|
        invariant forall k :: 0 <= k < |jobs| ==>
          jobs[k] == if k < i then Requeued(old(jobs)[k], now - olderThan) else old(jobs)[k]
        invariant seen == set k | 0 <= k < i && StaleAt(old(jobs)[k], now - olderThan)
        invariant count == |seen|
      {
        if StaleAt(jobs[i], now - olderThan) {
          jobs := jobs[i := jobs[i].(status := PENDING, lockedAt := None)];
          count := count + 1;
          seen := seen + {i};
        }
      }
    }

    // Claims at most one job and settles it by what its processing came to: whether its conversion swapped the projection,
    // and the error that processing or completing ended with, if any.
    method RunOnce(now: Time, swaps: bool, outcome: Option<string>) returns (worked: bool)
      modifies this
      ensures worked <==> exists i :: 0 <= i < |old(jobs)| && Eligible(old(jobs)[i], now)
      ensures !worked ==> Contents() == old(Contents())
      ensures worked ==> exists id: nat ::
                id < |old(jobs)| && OldestEligible(old(jobs), id, now) && Contents() == Settled(old(Contents()), id, now, swaps, outcome)
    {
      var claimed := ClaimNext(now);
      if claimed.None? { return false; }
      if swaps { books := books[jobs[claimed.value].bookId := Converted]; }
      if outcome.None? {
        var ok := Complete(claimed.value);
      } else {
        Fail(claimed.value, outcome.value);
      }
      assert OldestEligible(old(jobs), claimed.value, now);
      worked := true;
    }

    // A lone worker polling until there is nothing to do, however each conversion turns out: every job ends READY, or
    // FAILED after three attempts.
    method PollUntilIdle(now: Time)
      requires Idle(jobs)
      modifies this
      ensures |jobs| == |old(jobs)| && Idle(jobs)
      ensures forall i :: 0 <= i < |jobs| ==> jobs[i].status.READY? || jobs[i].status.FAILED?
    {
      var worked := true;
      hide Idle, Weight, Settled, OldestEligible;
      while worked
        invariant |jobs| == |old(jobs)| && Idle(jobs)
        invariant !worked ==> forall i :: 0 <= i < |jobs| ==> !Eligible(jobs[i], now)
        decreases worked, Weight(jobs)
      {
        ghost var was := Contents();
        var outcome: Option<string> := *;
        var swaps: bool := *;
        worked := RunOnce(now, swaps, outcome);
        if worked {
          ghost var id: nat :| id < |was.jobs| && OldestEligible(was.jobs, id, now)
            && Contents() == Settled(was, id, now, swaps, outcome);
          SettlingUsesWeight(was, id, now, swaps, outcome);
        }
      }
      AllSettled(jobs, now);
    }
  }
}
