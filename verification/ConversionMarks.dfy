// What the conversion columns of a book say after any run of the queue, and when a readable book is taken from its readers.
module ConversionMarks {
  import opened Prelude
  import opened ContentModel
  import opened ConversionQueue

  // ── What writes the columns ──

  // A retry checks the columns before its transaction; one whose check is out of date by the time it writes is an upload
  // to the queue.
  ghost predicate Submits(s: System, e: Event, book: BookId) {
    IsSubmission(e) && Applies(s, e) && e.book == book
  }

  ghost predicate Publishes(s: System, e: Event, book: BookId) {
    e.Publish? && Applies(s, e) && s.queue.jobs[s.workers[e.worker]].bookId == book
  }

  // The failure that uses up the attempts of one of the book's jobs.
  ghost predicate GivesUp(s: System, e: Event, book: BookId) {
    && e.Fail? && Applies(s, e) && s.queue.jobs[s.workers[e.worker]].bookId == book
    && MAX_CONVERSION_ATTEMPTS <= s.queue.jobs[s.workers[e.worker]].attempts + 1
  }

  lemma ColumnsAfter(s: System, e: Event, book: BookId)
    ensures ConversionOf(Next(s, e).queue, book) ==
              if GivesUp(s, e, book) then ConversionFailed(e.error)
              else if Submits(s, e, book) then AwaitingConversion
              else if Publishes(s, e, book) then Converted
              else ConversionOf(s.queue, book)
  {
    hide OldestEligible;
  }

  // Step `n` gives the book up, and no later one submits or publishes it.
  ghost predicate LastGivenUpAt(s: System, events: seq<Event>, n: nat, book: BookId) {
    && n < |events| && GivesUp(Run(s, events[..n]), events[n], book)
    && forall m :: n < m < |events| ==>
         !Submits(Run(s, events[..m]), events[m], book) && !Publishes(Run(s, events[..m]), events[m], book)
  }

  // Step `n` publishes the book, and no later one submits it or gives it up.
  ghost predicate LastPublishedAt(s: System, events: seq<Event>, n: nat, book: BookId) {
    && n < |events| && Publishes(Run(s, events[..n]), events[n], book)
    && forall m :: n < m < |events| ==>
         !Submits(Run(s, events[..m]), events[m], book) && !GivesUp(Run(s, events[..m]), events[m], book)
  }

  lemma RunSnoc(s: System, most: seq<Event>, e: Event)
    ensures Run(s, most + [e]) == Next(Run(s, most), e)
  {
    RunConcat(s, most, [e]);
    RunCons(Run(s, most), e, []);
    assert [e] + [] == [e];
  }

  lemma SamePrefix(most: seq<Event>, e: Event)
    ensures forall m :: 0 <= m <= |most| ==> (most + [e])[..m] == most[..m]
    ensures most[..|most|] == most
  {
  }

  lemma GivenUpSnoc(s: System, most: seq<Event>, e: Event, n: nat, book: BookId)
    ensures n < |most| ==>
              (LastGivenUpAt(s, most + [e], n, book) <==>
                 LastGivenUpAt(s, most, n, book) && !Submits(Run(s, most), e, book) && !Publishes(Run(s, most), e, book))
    ensures LastGivenUpAt(s, most + [e], |most|, book) <==> GivesUp(Run(s, most), e, book)
  {
    hide Run, Submits, Publishes, GivesUp;
    SamePrefix(most, e);
    var all := most + [e];
    assert all[..|most|] == most && all[|most|] == e;
    if n < |most| && LastGivenUpAt(s, all, n, book) {
      forall m | n < m < |most|
        ensures !Submits(Run(s, most[..m]), most[m], book) && !Publishes(Run(s, most[..m]), most[m], book)
      {
        assert all[..m] == most[..m] && all[m] == most[m];
      }
    }
  }

  lemma PublishedSnoc(s: System, most: seq<Event>, e: Event, n: nat, book: BookId)
    ensures n < |most| ==>
              (LastPublishedAt(s, most + [e], n, book) <==>
                 LastPublishedAt(s, most, n, book) && !Submits(Run(s, most), e, book) && !GivesUp(Run(s, most), e, book))
    ensures LastPublishedAt(s, most + [e], |most|, book) <==> Publishes(Run(s, most), e, book)
  {
    hide Run, Submits, Publishes, GivesUp;
    SamePrefix(most, e);
    var all := most + [e];
    assert all[..|most|] == most && all[|most|] == e;
    if n < |most| && LastPublishedAt(s, all, n, book) {
      forall m | n < m < |most|
        ensures !Submits(Run(s, most[..m]), most[m], book) && !GivesUp(Run(s, most[..m]), most[m], book)
      {
        assert all[..m] == most[..m] && all[m] == most[m];
      }
    }
  }

  lemma OnlyOneKind(s: System, e: Event, book: BookId)
    ensures !(GivesUp(s, e, book) && Submits(s, e, book)) && !(GivesUp(s, e, book) && Publishes(s, e, book))
    ensures !(Submits(s, e, book) && Publishes(s, e, book))
  {
  }

  // After any run, also one in which locks are taken over, a book is marked as failed exactly when one of its jobs used up
  // its attempts and since then nobody uploaded or retried it and no conversion of it was published.
  lemma {:induction false} MarkedExactly(events: seq<Event>, book: BookId)
    ensures ConversionOf(Run(EMPTY, events).queue, book).ConversionFailed? <==>
              exists n :: LastGivenUpAt(EMPTY, events, n, book)
    decreases |events|
  {
    hide Run, Next, Submits, Publishes, GivesUp, LastGivenUpAt;
    if events == [] {
      NothingAtFirst(book);
    } else {
      var most, e := events[..|events| - 1], events[|events| - 1];
      assert events == most + [e];
      MarkedExactly(most, book);
      RunSnoc(EMPTY, most, e);
      ColumnsAfter(Run(EMPTY, most), e, book);
      OnlyOneKind(Run(EMPTY, most), e, book);
      GivenUpSnoc(EMPTY, most, e, |most|, book);
      if n: nat :| LastGivenUpAt(EMPTY, most, n, book) {
        WithinRun(EMPTY, most, n, book);
        GivenUpSnoc(EMPTY, most, e, n, book);
      }
      if n: nat :| LastGivenUpAt(EMPTY, events, n, book) {
        WithinRun(EMPTY, events, n, book);
        GivenUpSnoc(EMPTY, most, e, n, book);
      }
    }
  }

  lemma WithinRun(s: System, events: seq<Event>, n: nat, book: BookId)
    ensures LastGivenUpAt(s, events, n, book) || LastPublishedAt(s, events, n, book) ==> n < |events|
  {
  }

  lemma NothingAtFirst(book: BookId)
    ensures ConversionOf(Run(EMPTY, []).queue, book) == NotApplicable
    ensures forall n :: !LastGivenUpAt(EMPTY, [], n, book) && !LastPublishedAt(EMPTY, [], n, book)
  {
  }

  // And it is ready to read exactly when a conversion of it was published and since then nobody uploaded or retried it and
  // none of its jobs used up its attempts.
  lemma {:induction false} ReadyExactly(events: seq<Event>, book: BookId)
    ensures ConversionOf(Run(EMPTY, events).queue, book).Converted? <==>
              exists n :: LastPublishedAt(EMPTY, events, n, book)
    decreases |events|
  {
    hide Run, Next, Submits, Publishes, GivesUp, LastPublishedAt;
    if events == [] {
      NothingAtFirst(book);
    } else {
      var most, e := events[..|events| - 1], events[|events| - 1];
      assert events == most + [e];
      ReadyExactly(most, book);
      RunSnoc(EMPTY, most, e);
      ColumnsAfter(Run(EMPTY, most), e, book);
      OnlyOneKind(Run(EMPTY, most), e, book);
      PublishedSnoc(EMPTY, most, e, |most|, book);
      if n: nat :| LastPublishedAt(EMPTY, most, n, book) {
        WithinRun(EMPTY, most, n, book);
        PublishedSnoc(EMPTY, most, e, n, book);
      }
      if n: nat :| LastPublishedAt(EMPTY, events, n, book) {
        WithinRun(EMPTY, events, n, book);
        PublishedSnoc(EMPTY, most, e, n, book);
      }
    }
  }

  // ── A readable book is taken from its readers ──

  // The step turns a book that was ready to read into one whose reader gate is shut.
  ghost predicate BlocksReaders(s: System, e: Event, book: BookId) {
    ConversionOf(s.queue, book).Converted? && ConversionOf(Next(s, e).queue, book).ConversionFailed?
  }

  // That happens exactly at a step that uses up the attempts of one of the book's jobs, after a conversion of the book was
  // published and neither an upload nor a retry nor another job given up came in between.
  lemma ReadersBlockedExactly(events: seq<Event>, e: Event, book: BookId)
    ensures BlocksReaders(Run(EMPTY, events), e, book) <==>
              GivesUp(Run(EMPTY, events), e, book) && exists n :: LastPublishedAt(EMPTY, events, n, book)
  {
    ReadyExactly(events, book);
    ColumnsAfter(Run(EMPTY, events), e, book);
    hide Run, Next, Submits, Publishes, GivesUp, LastPublishedAt;
  }

  predicate Open(job: Job) {
    job.status.PENDING? || job.status.PROCESSING?
  }

  // No lock is taken over, a book is submitted only while none of its jobs is open, and no job fails once its conversion
  // has been published. `published` holds the jobs that have published.
  ghost predicate Careful(s: System, e: Event, published: set<nat>) {
    && TakesNoLock(s, e)
    && (IsSubmission(e) && Applies(s, e) ==>
          forall i :: 0 <= i < |s.queue.jobs| && s.queue.jobs[i].bookId == e.book ==> !Open(s.queue.jobs[i]))
    && (e.Fail? && Applies(s, e) ==> s.workers[e.worker] !in published)
  }

  ghost function PublishedBy(s: System, e: Event, published: set<nat>): set<nat> {
    if e.Publish? && Applies(s, e) then published + {s.workers[e.worker]} else published
  }

  ghost predicate CarefulRun(s: System, events: seq<Event>, published: set<nat>)
    decreases |events|
  {
    events == [] || (Careful(s, events[0], published) && CarefulRun(Next(s, events[0]), events[1..], PublishedBy(s, events[0], published)))
  }

  ghost predicate NeverBlocks(s: System, events: seq<Event>)
    decreases |events|
  {
    events == [] || ((forall book :: !BlocksReaders(s, events[0], book)) && NeverBlocks(Next(s, events[0]), events[1..]))
  }

  ghost predicate OneOpenJob(jobs: seq<Job>) {
    forall i, j :: 0 <= i < j < |jobs| && jobs[i].bookId == jobs[j].bookId ==> !Open(jobs[i]) || !Open(jobs[j])
  }

  // The open jobs of a book that is ready to read have published.
  ghost predicate ReadyByOpenJob(q: Queue, published: set<nat>) {
    forall i :: 0 <= i < |q.jobs| && Open(q.jobs[i]) && ConversionOf(q, q.jobs[i].bookId).Converted? ==> i in published
  }

  lemma OpenStep(s: System, e: Event, published: set<nat>)
    requires HoldersOk(s) && Careful(s, e, published) && OneOpenJob(s.queue.jobs)
    ensures OneOpenJob(Next(s, e).queue.jobs)
  {
    if e.Claim? && Applies(s, e) { ClaimTakesPending(s, e); }
    hide OldestEligible;
  }

  lemma ClaimTakesPending(s: System, e: Event)
    requires e.Claim? && Applies(s, e) && TakesNoLock(s, e)
    ensures e.id < |s.queue.jobs| && s.queue.jobs[e.id].status.PENDING?
  {
  }

  lemma ReadyStep(s: System, e: Event, published: set<nat>)
    requires HoldersOk(s) && Careful(s, e, published) && OneOpenJob(s.queue.jobs) && ReadyByOpenJob(s.queue, published)
    ensures ReadyByOpenJob(Next(s, e).queue, PublishedBy(s, e, published))
  {
    var t, after := Next(s, e), PublishedBy(s, e, published);
    forall i | 0 <= i < |t.queue.jobs| && Open(t.queue.jobs[i]) && ConversionOf(t.queue, t.queue.jobs[i].bookId).Converted?
      ensures i in after
    {
      ColumnsAfter(s, e, t.queue.jobs[i].bookId);
      OpenBefore(s, e, published, i);
      hide Next, OldestEligible, TakesNoLock, ReadyByOpenJob;
      if Publishes(s, e, t.queue.jobs[i].bookId) {
        var id := s.workers[e.worker];
        assert Open(s.queue.jobs[id]);
      } else {
        ReadyJob(s.queue, published, i);
      }
    }
  }

  lemma ReadyJob(q: Queue, published: set<nat>, i: nat)
    requires ReadyByOpenJob(q, published) && i < |q.jobs| && Open(q.jobs[i]) && ConversionOf(q, q.jobs[i].bookId).Converted?
    ensures i in published
  {
  }

  // An open job of a book that was not just submitted was open before.
  lemma OpenBefore(s: System, e: Event, published: set<nat>, i: nat)
    requires HoldersOk(s) && Careful(s, e, published)
    requires var t := Next(s, e);
             i < |t.queue.jobs| && Open(t.queue.jobs[i]) && !Submits(s, e, t.queue.jobs[i].bookId)
    ensures i < |s.queue.jobs| && Open(s.queue.jobs[i]) && s.queue.jobs[i].bookId == Next(s, e).queue.jobs[i].bookId
  {
    if e.Claim? && Applies(s, e) { ClaimTakesPending(s, e); }
    hide OldestEligible;
  }

  lemma CarefulStepBlocksNobody(s: System, e: Event, published: set<nat>, book: BookId)
    requires HoldersOk(s) && Careful(s, e, published) && ReadyByOpenJob(s.queue, published)
    ensures !BlocksReaders(s, e, book)
  {
    ColumnsAfter(s, e, book);
    hide Next, OldestEligible, TakesNoLock;
    if GivesUp(s, e, book) { assert Open(s.queue.jobs[s.workers[e.worker]]); }
  }

  // As long as no lock is taken over, a book has one open job at a time, and no job fails after it has published, no book
  // that is ready to read is ever taken from its readers.
  lemma {:induction false} CarefulRunsNeverBlock(s: System, events: seq<Event>, published: set<nat>)
    requires JobsOk(s) && HoldersOk(s) && OneOpenJob(s.queue.jobs) && ReadyByOpenJob(s.queue, published)
    requires CarefulRun(s, events, published)
    ensures NeverBlocks(s, events)
    decreases |events|
  {
    hide JobsOk, HoldersOk, OneOpenJob, ReadyByOpenJob, Next, TakesNoLock, BlocksReaders, PublishedBy;
    if events != [] {
      var e := events[0];
      assert TakesNoLock(s, e);
      hide Careful;
      NextKeepsJobs(s, e);
      NextKeepsHolders(s, e);
      OpenStep(s, e, published);
      ReadyStep(s, e, published);
      forall book ensures !BlocksReaders(s, e, book) { CarefulStepBlocksNobody(s, e, published, book); }
      CarefulRunsNeverBlock(Next(s, e), events[1..], PublishedBy(s, e, published));
    }
  }

  lemma FromEmptyNeverBlocks(events: seq<Event>)
    requires CarefulRun(EMPTY, events, {})
    ensures NeverBlocks(EMPTY, events)
  {
    CarefulRunsNeverBlock(EMPTY, events, {});
  }

  // ── Witnesses ──

  function ThreeFailures(): seq<Event> {
    [Upload("book", 0)] + ([Claim(1, 0, 0), Fail(1, "x"), Claim(1, 0, 0), Fail(1, "x")] + [Claim(1, 0, 0), Fail(1, "x")])
  }

  lemma FirstUpload()
    ensures Next(EMPTY, Upload("book", 0)) == OneJob(PENDING, 0, None, map[], 0)
  {
  }

  lemma RunTwo(s: System, a: Event, b: Event)
    ensures Run(s, [a, b]) == Next(Next(s, a), b)
  {
    hide Next;
    RunCons(s, a, [b]);
    RunCons(Next(s, a), b, []);
    assert [a] + [b] == [a, b] && [b] + [] == [b];
  }

  lemma TwoFailures()
    ensures Run(EMPTY, [Upload("book", 0)] + [Claim(1, 0, 0), Fail(1, "x"), Claim(1, 0, 0), Fail(1, "x")])
         == OneJob(PENDING, 2, None, map[], 2)
  {
    FirstUpload();
    hide Next, Run;
    var failing := [Claim(1, 0, 0), Fail(1, "x"), Claim(1, 0, 0), Fail(1, "x")];
    TwiceFailed(failing);
    RunCons(EMPTY, Upload("book", 0), failing);
  }

  lemma ThirdFailure()
    ensures Next(Next(OneJob(PENDING, 2, None, map[], 2), Claim(1, 0, 0)), Fail(1, "x")) == OneJob(FAILED, 3, None, map[], 3)
  {
    var s := OneJob(PENDING, 2, None, map[], 2);
    assert OldestEligible(s.queue.jobs, 0, 0);
    var held := Next(s, Claim(1, 0, 0));
    assert held == OneJob(PROCESSING, 2, Some(0), map[1 := 0], 3);
    assert held.workers - {1} == map[];
  }

  // A job that failed three times and then a retry: the job is still FAILED and the book is no longer marked.
  lemma RetryWipesTheMark()
    ensures ConversionOf(Run(EMPTY, ThreeFailures()).queue, "book").ConversionFailed?
    ensures var q := Run(EMPTY, ThreeFailures() + [Retry("book", 1)]).queue;
            && |q.jobs| == 2 && q.jobs[0].status.FAILED? && q.jobs[1].status.PENDING?
            && ConversionOf(q, "book") == AwaitingConversion
  {
    TwoFailures();
    ThirdFailure();
    var given := OneJob(FAILED, 3, None, map[], 3);
    var retried := Next(given, Retry("book", 1));
    assert |retried.queue.jobs| == 2 && retried.queue.jobs[0] == given.queue.jobs[0] && retried.queue.jobs[1].status.PENDING?;
    assert ConversionOf(retried.queue, "book") == AwaitingConversion;
    hide Next, Run;
    var first := [Upload("book", 0)] + [Claim(1, 0, 0), Fail(1, "x"), Claim(1, 0, 0), Fail(1, "x")];
    RunTwo(Run(EMPTY, first), Claim(1, 0, 0), Fail(1, "x"));
    RunConcat(EMPTY, first, [Claim(1, 0, 0), Fail(1, "x")]);
    assert first + [Claim(1, 0, 0), Fail(1, "x")] == ThreeFailures();
    RunSnoc(EMPTY, ThreeFailures(), Retry("book", 1));
  }

  // The third attempt publishes its conversion, and then completing the job fails.
  function FailsToComplete(): seq<Event> {
    [Upload("book", 0)] + [Claim(1, 0, 0), Fail(1, "x"), Claim(1, 0, 0), Fail(1, "x")] + [Claim(1, 0, 0), Publish(1)]
  }

  lemma CompletingFailsBlocksReaders()
    ensures BlocksReaders(Run(EMPTY, FailsToComplete()), Fail(1, "x"), "book")
  {
    TwoFailures();
    var twice := OneJob(PENDING, 2, None, map[], 2);
    assert OldestEligible(twice.queue.jobs, 0, 0);
    var held := Next(twice, Claim(1, 0, 0));
    assert held == OneJob(PROCESSING, 2, Some(0), map[1 := 0], 3);
    var published := Next(held, Publish(1));
    assert BlocksReaders(published, Fail(1, "x"), "book");
    hide Next, Run, BlocksReaders;
    var first := [Upload("book", 0)] + [Claim(1, 0, 0), Fail(1, "x"), Claim(1, 0, 0), Fail(1, "x")];
    RunTwo(twice, Claim(1, 0, 0), Publish(1));
    RunConcat(EMPTY, first, [Claim(1, 0, 0), Publish(1)]);
  }

  // A job that failed twice, a second upload whose conversion is published and completed, and then the older job's third
  // failure: nobody took over a lock and nothing failed after publishing.
  function OlderJobRun(): seq<Event> {
    [Upload("book", 0)] + [Claim(1, 0, 0), Fail(1, "x"), Claim(1, 0, 0), Fail(1, "x")]
    + ([Upload("book", 1), Claim(1, 0, 1)] + [Claim(2, 1, 1), Publish(2), Complete(2)])
  }

  lemma SecondUpload() returns (s: System)
    ensures s == Run(OneJob(PENDING, 2, None, map[], 2), [Upload("book", 1), Claim(1, 0, 1)])
    ensures s.queue.jobs == [Job("book", PROCESSING, 2, 0, Some(1), Some("x")), Job("book", PENDING, 0, 1, None, None)]
    ensures s.queue.books == map["book" := AwaitingConversion] && s.workers == map[1 := 0] && |s.claims| == 2
  {
    var twice := OneJob(PENDING, 2, None, map[], 2);
    var uploaded := Next(twice, Upload("book", 1));
    assert uploaded.queue.jobs == [twice.queue.jobs[0], Job("book", PENDING, 0, 1, None, None)];
    assert OldestEligible(uploaded.queue.jobs, 0, 1);
    s := Next(uploaded, Claim(1, 0, 1));
    hide Next;
    RunTwo(twice, Upload("book", 1), Claim(1, 0, 1));
  }

  lemma YoungerJobCompletes(s: System) returns (t: System)
    requires s.queue.jobs == [Job("book", PROCESSING, 2, 0, Some(1), Some("x")), Job("book", PENDING, 0, 1, None, None)]
    requires s.workers == map[1 := 0] && |s.claims| == 2
    ensures t == Next(Next(Next(s, Claim(2, 1, 1)), Publish(2)), Complete(2))
    ensures |t.queue.jobs| == 2 && t.queue.jobs[0] == s.queue.jobs[0] && t.queue.jobs[1].status.READY?
    ensures ConversionOf(t.queue, "book").Converted? && t.workers == map[1 := 0]
  {
    assert OldestEligible(s.queue.jobs, 1, 1);
    var claimed := Next(s, Claim(2, 1, 1));
    assert claimed.workers == map[1 := 0, 2 := 1] && claimed.queue.jobs[0] == s.queue.jobs[0];
    var published := Next(claimed, Publish(2));
    assert published.workers == claimed.workers && published.queue.jobs == claimed.queue.jobs;
    t := Next(published, Complete(2));
    assert t.workers == map[1 := 0];
  }

  lemma OlderJobBlocksReaders()
    ensures BlocksReaders(Run(EMPTY, OlderJobRun()), Fail(1, "x"), "book")
    ensures var jobs := Run(EMPTY, OlderJobRun() + [Fail(1, "x")]).queue.jobs;
            |jobs| == 2 && jobs[0].status.FAILED? && jobs[1].status.READY?
  {
    TwoFailures();
    var s := SecondUpload();
    var t := YoungerJobCompletes(s);
    assert BlocksReaders(t, Fail(1, "x"), "book");
    assert Next(t, Fail(1, "x")).queue.jobs[0].status.FAILED? && Next(t, Fail(1, "x")).queue.jobs[1] == t.queue.jobs[1];
    hide Next, Run, BlocksReaders;
    var twice := OneJob(PENDING, 2, None, map[], 2);
    var first := [Upload("book", 0)] + [Claim(1, 0, 0), Fail(1, "x"), Claim(1, 0, 0), Fail(1, "x")];
    var second, third := [Upload("book", 1), Claim(1, 0, 1)], [Claim(2, 1, 1), Publish(2), Complete(2)];
    RunCons(s, Claim(2, 1, 1), [Publish(2), Complete(2)]);
    RunTwo(Next(s, Claim(2, 1, 1)), Publish(2), Complete(2));
    assert [Claim(2, 1, 1)] + [Publish(2), Complete(2)] == third;
    RunConcat(twice, second, third);
    RunConcat(EMPTY, first, second + third);
    assert first + (second + third) == OlderJobRun();
    RunSnoc(EMPTY, OlderJobRun(), Fail(1, "x"));
  }
}
