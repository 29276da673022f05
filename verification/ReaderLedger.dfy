// Reading progress over whole runs: the applied writes of one reader and book form an unbroken ledger.
module ReaderLedger {
  import opened Prelude
  import opened ReaderModel
  import opened ReaderInvariants
  import opened ReaderRaces

  function RevisionOf(db: Db, user: Id, book: Id): nat {
    if FindProgress(db, user, book).Some? then db.progress[(user, book)].revision else 0
  }

  function CompletedOf(db: Db, user: Id, book: Id): Option<Time> {
    if FindProgress(db, user, book).Some? then db.progress[(user, book)].completedAt else None
  }

  predicate IsWrite(e: Entry, user: Id, book: Id) {
    && e.request.payload.action.SetProgress? && e.result.Applied?
    && e.request.subject == user && e.request.payload.book == book
  }

  // The applied progress writes of one reader and book, oldest first.
  function Writes(log: seq<Entry>, user: Id, book: Id): (w: seq<Entry>)
    ensures forall i :: 0 <= i < |w| ==> IsWrite(w[i], user, book) && w[i] in log
  {
    if log == [] then [] else
      var rest := Writes(log[..|log| - 1], user, book);
      if IsWrite(log[|log| - 1], user, book) then rest + [log[|log| - 1]] else rest
  }

  // What one commit does to the progress of `user` in `book`.
  ghost predicate ProgressEffect(db: Db, after: Db, request: Request, pageCount: Option<nat>, now: Time, result: Result, user: Id, book: Id) {
    if IsWrite(Entry(request, result, pageCount, now), user, book) then
      var SetProgress(base, page, scrollY) := request.payload.action;
      && base == RevisionOf(db, user, book) && result.revision == base + 1
      && FindProgress(after, user, book).Some?
      && var row := after.progress[(user, book)];
         && row.page == page && row.scrollY == scrollY && row.revision == base + 1 && row.lastReadAt == now
         && row.completedAt == CompletedAtFor(page, pageCount, CompletedOf(db, user, book), now)
         && row.id == result.entity
    else FindProgress(after, user, book) == FindProgress(db, user, book)
  }

  lemma CommitProgressEffect(seen: Db, db: Db, c: Context, user: Id, book: Id)
    requires Evolves(seen, db) && c.request.payload.action.SetProgress?
    requires var step := CommitProgress(db, c, FindProgress(seen, c.request.subject, c.request.payload.book)); step.Done?
    ensures var Done(after, result) := CommitProgress(db, c, FindProgress(seen, c.request.subject, c.request.payload.book));
            ProgressEffect(db, after, c.request, c.pageCount, c.now, result, user, book)
  {
    var key := (c.request.subject, c.request.payload.book);
    if key in seen.progress { assert ProgressEvolves(seen.progress[key], db.progress[key]); }
    hide Evolves, TableEvolves, ProgressView, EmptyProgressView, CompletedAtFor;
  }

  lemma OthersLeaveProgress(seen: Db, db: Db, c: Context)
    requires !c.request.payload.action.SetProgress? && Handle(seen, db, c).Done?
    ensures Handle(seen, db, c).db.progress == db.progress
  {
    hide FindRow, FindByClient, FindCopy, Guarded, Put, Insert, BookmarkView, HighlightView, NewCopy;
  }

  lemma CommitEffect(seen: Db, db: Db, request: Request, pageCount: Option<nat>, now: Time, user: Id, book: Id)
    requires Evolves(seen, db) && Commit(seen, db, request, pageCount, now).Done?
    ensures var Done(after, result) := Commit(seen, db, request, pageCount, now);
            ProgressEffect(db, after, request, pageCount, now, result, user, book)
  {
    var c := ContextFor(db, request, pageCount, now);
    if request.payload.action.SetProgress? {
      CommitProgressEffect(seen, db, c, user, book);
      hide Evolves, CommitProgress, CompletedAtFor;
    } else {
      OthersLeaveProgress(seen, db, c);
      hide Evolves, Handle;
    }
  }

  // ── The ledger ──

  // The applied writes carry the revisions from the first one after the start up to the current one, each once and in
  // order, each made on the base just before it, and the row holds what the last of them wrote.
  ghost predicate Ledger(start: Db, db: Db, log: seq<Entry>, user: Id, book: Id) {
    var w := Writes(log, user, book);
    && RevisionOf(db, user, book) == RevisionOf(start, user, book) + |w|
    && (forall i :: 0 <= i < |w| ==>
          && w[i].request.payload.action.base == RevisionOf(start, user, book) + i
          && w[i].result.revision == RevisionOf(start, user, book) + i + 1)
    && (if w == [] then FindProgress(db, user, book) == FindProgress(start, user, book)
        else && FindProgress(db, user, book).Some?
             && var row, last := db.progress[(user, book)], w[|w| - 1];
                && row.page == last.request.payload.action.page && row.scrollY == last.request.payload.action.scrollY
                && row.revision == last.result.revision && row.lastReadAt == last.now)
  }

  // The write is at or past the page count known when it was made; without a page count it is not.
  predicate Reaches(e: Entry)
    requires e.request.payload.action.SetProgress?
  {
    match e.pageCount
    case None => false
    case Some(n) => n <= e.request.payload.action.page
  }

  // Completion time as told by the writes alone.
  ghost predicate CompletedAsTold(initial: Option<Time>, w: seq<Entry>, completedAt: Option<Time>)
    requires forall i :: 0 <= i < |w| ==> w[i].request.payload.action.SetProgress?
  {
    if w == [] then completedAt == initial
    else if !Reaches(w[|w| - 1]) then completedAt == None
    else exists i: nat :: StretchFrom(w, i) && completedAt == Some(if i == 0 then initial.GetOr(w[0].now) else w[i].now)
  }

  // Write `i` is the first of the unbroken stretch of writes at or past the page count that lasts until the end.
  ghost predicate StretchFrom(w: seq<Entry>, i: nat)
    requires forall j :: 0 <= j < |w| ==> w[j].request.payload.action.SetProgress?
  {
    && i < |w|
    && (forall j :: i <= j < |w| ==> Reaches(w[j]))
    && (0 < i ==> !Reaches(w[i - 1]))
  }

  ghost predicate Completion(start: Db, db: Db, log: seq<Entry>, user: Id, book: Id) {
    CompletedAsTold(CompletedOf(start, user, book), Writes(log, user, book), CompletedOf(db, user, book))
  }

  lemma OneMoreWrite(initial: Option<Time>, w: seq<Entry>, before: Option<Time>, e: Entry)
    requires forall i :: 0 <= i < |w| ==> w[i].request.payload.action.SetProgress?
    requires e.request.payload.action.SetProgress?
    requires CompletedAsTold(initial, w, before)
    ensures CompletedAsTold(initial, w + [e], CompletedAtFor(e.request.payload.action.page, e.pageCount, before, e.now))
  {
    var v := w + [e];
    if Reaches(e) {
      if w == [] {
        assert StretchFrom(v, 0);
      } else if !Reaches(w[|w| - 1]) {
        assert StretchFrom(v, |w|);
      } else {
        var i: nat :| StretchFrom(w, i) && before == Some(if i == 0 then initial.GetOr(w[0].now) else w[i].now);
        assert StretchFrom(v, i);
      }
    }
  }

  lemma LedgerStep(start: Db, db: Db, after: Db, log: seq<Entry>, e: Entry, user: Id, book: Id)
    requires Ledger(start, db, log, user, book)
    requires ProgressEffect(db, after, e.request, e.pageCount, e.now, e.result, user, book)
    ensures Ledger(start, after, log + [e], user, book)
  {
    assert (log + [e])[..|log|] == log;
  }

  lemma CompletionStep(start: Db, db: Db, after: Db, log: seq<Entry>, e: Entry, user: Id, book: Id)
    requires Completion(start, db, log, user, book)
    requires ProgressEffect(db, after, e.request, e.pageCount, e.now, e.result, user, book)
    ensures Completion(start, after, log + [e], user, book)
  {
    assert (log + [e])[..|log|] == log;
    var w := Writes(log, user, book);
    if IsWrite(e, user, book) { OneMoreWrite(CompletedOf(start, user, book), w, CompletedOf(db, user, book), e); }
  }

  // A step either commits one logged operation with its effect on the ledger, or leaves tables and log alone.
  lemma StepEffect(start: Db, s: System, e: Event, user: Id, book: Id)
    requires SystemOk(start, s)
    ensures var t := Next(s, e);
            || (t.log == s.log && FindProgress(t.db, user, book) == FindProgress(s.db, user, book))
            || (exists entry :: t.log == s.log + [entry]
                  && ProgressEffect(s.db, t.db, entry.request, entry.pageCount, entry.now, entry.result, user, book))
  {
    var t := Next(s, e);
    if e.CommitTransaction? && e.who < |s.clients| && s.clients[e.who].phase.Loaded? {
      var Client(request, Loaded(seen, pageCount)) := s.clients[e.who];
      assert ClientOk(s.db, s.clients[e.who]);
      hide Inv, Evolves, LogOk, Commit, ProgressEffect;
      if Commit(seen, s.db, request, pageCount, e.now).Done? {
        CommitEffect(seen, s.db, request, pageCount, e.now, user, book);
        var Done(after, result) := Commit(seen, s.db, request, pageCount, e.now);
        if result.Receipted() {
          assert t.log == s.log + [Entry(request, result, pageCount, e.now)];
        } else {
          CommitSafe(seen, s.db, request, pageCount, e.now);
        }
      }
    } else {
      StepChangesAtMostOneOperation(start, s, e);
      hide SystemOk, CommitStep;
    }
  }

  lemma LedgerStart(start: Db, user: Id, book: Id)
    ensures Ledger(start, start, [], user, book)
  {
  }

  lemma LedgerFrame(start: Db, db: Db, after: Db, log: seq<Entry>, user: Id, book: Id)
    requires Ledger(start, db, log, user, book) && FindProgress(after, user, book) == FindProgress(db, user, book)
    ensures Ledger(start, after, log, user, book)
  {
    hide Writes;
  }

  // The progress ledger of every reader and book, after every run.
  lemma {:induction false} ProgressLedger(s: System, events: seq<Event>, user: Id, book: Id)
    requires Inv(s.db) && Initial(s)
    ensures Ledger(s.db, Run(s, events).db, Run(s, events).log, user, book)
  {
    hide Next, SystemOk, Inv, ProgressEffect, Ledger, FindProgress;
    if events == [] {
      LedgerStart(s.db, user, book);
    } else {
      var before, e := Run(s, events[..|events| - 1]), events[|events| - 1];
      ProgressLedger(s, events[..|events| - 1], user, book);
      RunOk(s, events[..|events| - 1]);
      StepEffect(s.db, before, e, user, book);
      var after := Next(before, e);
      if after.log == before.log && FindProgress(after.db, user, book) == FindProgress(before.db, user, book) {
        LedgerFrame(s.db, before.db, after.db, before.log, user, book);
      } else {
        var entry :| after.log == before.log + [entry]
          && ProgressEffect(before.db, after.db, entry.request, entry.pageCount, entry.now, entry.result, user, book);
        LedgerStep(s.db, before.db, after.db, before.log, entry, user, book);
      }
    }
  }

  // Two different operations on one base are never both applied.
  lemma OneWritePerBase(s: System, events: seq<Event>, user: Id, book: Id, i: nat, j: nat)
    requires Inv(s.db) && Initial(s)
    requires var w := Writes(Run(s, events).log, user, book);
             i < |w| && j < |w| && w[i].request.payload.action.base == w[j].request.payload.action.base
    ensures i == j
  {
    hide Run, Inv;
    ProgressLedger(s, events, user, book);
  }

  // Completion time is set exactly while the last write is at or past the page count it was made with, and it is the time
  // of the first write of the current unbroken stretch of such writes.
  lemma {:induction false} CompletionTime(s: System, events: seq<Event>, user: Id, book: Id)
    requires Inv(s.db) && Initial(s)
    ensures Completion(s.db, Run(s, events).db, Run(s, events).log, user, book)
  {
    if events != [] {
      var before, e := Run(s, events[..|events| - 1]), events[|events| - 1];
      CompletionTime(s, events[..|events| - 1], user, book);
      RunOk(s, events[..|events| - 1]);
      StepEffect(s.db, before, e, user, book);
      hide Next, SystemOk, Inv, ProgressEffect, CompletedAsTold;
      var after := Next(before, e);
      if after.log != before.log {
        var entry :| after.log == before.log + [entry]
          && ProgressEffect(before.db, after.db, entry.request, entry.pageCount, entry.now, entry.result, user, book);
        CompletionStep(s.db, before.db, after.db, before.log, entry, user, book);
      }
    }
  }
}
