// Safety of annotations over whole runs, from any point of a run to any later one.
module ReaderRuns {
  import opened Prelude
  import opened ReaderModel
  import opened ReaderInvariants
  import opened ReaderSnapshot
  import opened ReaderMeaning
  import opened ReaderRaces

  lemma NextEvolves(start: Db, s: System, e: Event)
    requires SystemOk(start, s)
    ensures Evolves(s.db, Next(s, e).db)
  {
    EvolvesReflexive(s.db);
    if e.CommitTransaction? && e.who < |s.clients| && s.clients[e.who].phase.Loaded? {
      var Client(request, Loaded(seen, pageCount)) := s.clients[e.who];
      assert ClientOk(s.db, s.clients[e.who]);
      hide Inv, Evolves, LogOk, Commit;
      if Commit(seen, s.db, request, pageCount, e.now).Done? { CommitSafe(seen, s.db, request, pageCount, e.now); }
    } else {
      StepChangesAtMostOneOperation(start, s, e);
      hide Inv, Evolves, LogOk, Commit, ClientOk;
    }
  }

  lemma {:induction false} RunEvolves(s: System, events: seq<Event>, more: seq<Event>)
    requires Inv(s.db) && Initial(s)
    ensures Evolves(Run(s, events).db, Run(s, events + more).db)
    decreases |more|
  {
    if more == [] {
      assert events + more == events;
      EvolvesReflexive(Run(s, events).db);
    } else {
      var most, e := more[..|more| - 1], more[|more| - 1];
      assert (events + more)[..|events + more| - 1] == events + most && (events + more)[|events + more| - 1] == e;
      RunEvolves(s, events, most);
      RunOk(s, events + most);
      NextEvolves(s.db, Run(s, events + most), e);
      EvolvesTransitive(Run(s, events).db, Run(s, events + most).db, Run(s, events + more).db);
    }
  }

  // The snapshot watermark of any reader and book never goes back between two points of a run.
  lemma WatermarkOverRuns(s: System, events: seq<Event>, more: seq<Event>, subject: Id, book: Id)
    requires Inv(s.db) && Initial(s)
    ensures TakeSnapshot(Run(s, events).db, subject, book).revision <= TakeSnapshot(Run(s, events + more).db, subject, book).revision
  {
    RunOk(s, events);
    RunOk(s, events + more);
    RunEvolves(s, events, more);
    hide Run, Inv, Evolves, TakeSnapshot;
    WatermarkNeverDecreases(Run(s, events).db, Run(s, events + more).db, subject, book);
  }

  // A bookmark or highlight that is deleted at some point of a run is, at every later point, the same deleted row
  // with the same tombstone, and no other row carries its client id.
  lemma NoResurrectionOverRuns(s: System, events: seq<Event>, more: seq<Event>, id: Id)
    requires Inv(s.db) && Initial(s)
    ensures var past, later := Run(s, events).db, Run(s, events + more).db;
            && (id in past.bookmarks.rows && past.bookmarks.rows[id].deletedAt.Some? ==>
                  StaysDeleted(past.bookmarks, past, later.bookmarks, later, id))
            && (id in past.highlights.rows && past.highlights.rows[id].deletedAt.Some? ==>
                  StaysDeleted(past.highlights, past, later.highlights, later, id))
  {
    RunOk(s, events);
    RunOk(s, events + more);
    RunEvolves(s, events, more);
    var past, later := Run(s, events).db, Run(s, events + more).db;
    hide Run, TableOk, TableEvolves, DeletionsRecorded, DeletedIn, ReceiptsOk, StaysDeleted;
    if id in past.bookmarks.rows && past.bookmarks.rows[id].deletedAt.Some? {
      DeletedRowStays(past.bookmarks, past, later.bookmarks, later, BookmarkKind, id);
    }
    if id in past.highlights.rows && past.highlights.rows[id].deletedAt.Some? {
      DeletedRowStays(past.highlights, past, later.highlights, later, AnnotationKind, id);
    }
  }

  // ── Losers and winners ──

  // Still looking, or answered with the outcome.
  predicate Adopting(s: System, who: nat, request: Request, outcome: Reply) {
    && who < |s.clients| && s.clients[who].request == request
    && (s.clients[who].phase.Replaying? || s.clients[who].phase == Answered(outcome))
  }

  lemma AdoptingStep(s: System, e: Event, who: nat, request: Request, receipt: Receipt)
    requires Adopting(s, who, request, ReplayOutcome(receipt, request.payload))
    requires request.Key() in s.db.receipts && s.db.receipts[request.Key()] == receipt
    ensures Adopting(Next(s, e), who, request, ReplayOutcome(receipt, request.payload))
    ensures e == ReadWinner(who) ==> Next(s, e).clients[who].phase == Answered(ReplayOutcome(receipt, request.payload))
  {
    hide Commit, ReplayOutcome;
  }

  // Once the key has a receipt, a caller that is looking for it can only be answered with that receipt, and its next look
  // answers, whatever happens in between.
  lemma {:induction false} ReplayAdoptsReceipt(s: System, events: seq<Event>, more: seq<Event>, who: nat)
    requires Inv(s.db) && Initial(s)
    requires var at := Run(s, events);
             who < |at.clients| && at.clients[who].phase.Replaying? && at.clients[who].request.Key() in at.db.receipts
    ensures var at, later := Run(s, events), Run(s, events + more);
            var request := at.clients[who].request;
            var outcome := ReplayOutcome(at.db.receipts[request.Key()], request.payload);
            && Adopting(later, who, request, outcome)
            && Next(later, ReadWinner(who)).clients[who].phase == Answered(outcome)
    decreases |more|
  {
    var at, later := Run(s, events), Run(s, events + more);
    var request := at.clients[who].request;
    RunEvolves(s, events, more);
    ReceiptStays(at.db, later.db, request.Key());
    hide Inv, Evolves, Next, ReplayOutcome;
    if more == [] {
      assert events + more == events;
    } else {
      var most, e := more[..|more| - 1], more[|more| - 1];
      assert (events + more)[..|events + more| - 1] == events + most && (events + more)[|events + more| - 1] == e;
      ReplayAdoptsReceipt(s, events, most, who);
      RunEvolves(s, events, most);
      ReceiptStays(at.db, Run(s, events + most).db, request.Key());
      AdoptingStep(Run(s, events + most), e, who, request, at.db.receipts[request.Key()]);
    }
    AdoptingStep(later, ReadWinner(who), who, request, at.db.receipts[request.Key()]);
  }

  lemma ReceiptStays(a: Db, b: Db, key: (Id, Id))
    requires Evolves(a, b) && key in a.receipts
    ensures key in b.receipts && b.receipts[key] == a.receipts[key]
  {
    hide TableEvolves;
  }

  // A commit under a key that has a receipt by then writes nothing: it is refused for want of its row, or it is aborted and
  // goes looking.
  lemma TakenKeyWritesNothing(s: System, who: nat, now: Time)
    requires who < |s.clients| && s.clients[who].phase.Loaded? && s.clients[who].request.Key() in s.db.receipts
    ensures var t := Next(s, CommitTransaction(who, now));
            && t.db == s.db && t.log == s.log && |t.clients| == |s.clients|
            && t.clients[who].request == s.clients[who].request
            && (t.clients[who].phase == Replaying(REPLAY_READ_ATTEMPTS)
                || (t.clients[who].phase.Answered? && t.clients[who].phase.reply.Ok? && t.clients[who].phase.reply.result.AccessDenied?))
  {
    var Client(request, Loaded(seen, pageCount)) := s.clients[who];
    TakenKeyIsDeniedOrAborted(seen, s.db, request, pageCount, now);
    hide Commit;
  }

  lemma TakenKeyIsDeniedOrAborted(seen: Db, db: Db, request: Request, pageCount: Option<nat>, now: Time)
    requires request.Key() in db.receipts
    ensures var step := Commit(seen, db, request, pageCount, now);
            step.Done? ==> step.result.AccessDenied? && step.db == db
  {
    if Commit(seen, db, request, pageCount, now).Done? {
      DeniedExactlyWhenAbsent(seen, db, request, pageCount, now);
      hide Handle;
    }
  }

  // A caller whose key was taken between its check and its commit: its transaction leaves every table as it was, and from
  // then on, through any further steps, it is still looking, or answered with the winner's receipt, or refused. It is
  // never told to retry later, and its next look answers.
  lemma LoserAdoptsWinner(s: System, events: seq<Event>, who: nat, now: Time, more: seq<Event>)
    requires Inv(s.db) && Initial(s)
    requires var at := Run(s, events);
             who < |at.clients| && at.clients[who].phase.Loaded? && at.clients[who].request.Key() in at.db.receipts
    ensures var at, lost := Run(s, events), Run(s, events + [CommitTransaction(who, now)]);
            var later := Run(s, events + [CommitTransaction(who, now)] + more);
            var request := at.clients[who].request;
            var outcome := ReplayOutcome(at.db.receipts[request.Key()], request.payload);
            && lost.db == at.db && lost.log == at.log && who < |lost.clients|
            && (lost.clients[who].phase.Replaying? ==>
                  && Adopting(later, who, request, outcome)
                  && Next(later, ReadWinner(who)).clients[who].phase == Answered(outcome))
            && (!lost.clients[who].phase.Replaying? ==>
                  lost.clients[who].phase.Answered? && lost.clients[who].phase.reply.Ok? && lost.clients[who].phase.reply.result.AccessDenied?)
  {
    var at, losing := Run(s, events), events + [CommitTransaction(who, now)];
    assert losing[..|losing| - 1] == events && losing[|losing| - 1] == CommitTransaction(who, now);
    assert Run(s, losing) == Next(at, CommitTransaction(who, now));
    hide Inv, Run, Next, ReplayOutcome, Adopting;
    TakenKeyWritesNothing(at, who, now);
    if Run(s, losing).clients[who].phase.Replaying? { ReplayAdoptsReceipt(s, losing, more, who); }
  }

  // ── Entitlement ──

  // At step `n` the caller `who` of the request was found to have access to the book with that page count, and the version
  // it names to be supported.
  ghost predicate EntitledAt(s: System, events: seq<Event>, n: nat, who: nat, request: Request, pageCount: Option<nat>) {
    && n < |events| && events[n].ReadAccess? && events[n].who == who
    && var clients := Run(s, events[..n]).clients;
       && who < |clients| && clients[who] == Client(request, Checked)
       && events[n].access.Allowed? && events[n].access.pageCount == pageCount
       && exists i :: 0 <= i < |events[n].access.supported| && events[n].access.supported[i] == request.payload.contentVersion
  }

  ghost predicate EverEntitled(s: System, events: seq<Event>, who: nat, request: Request, pageCount: Option<nat>) {
    exists n :: EntitledAt(s, events, n, who, request, pageCount)
  }

  lemma EntitledStays(s: System, most: seq<Event>, e: Event, who: nat, request: Request, pageCount: Option<nat>)
    ensures EverEntitled(s, most, who, request, pageCount) ==> EverEntitled(s, most + [e], who, request, pageCount)
  {
    hide Run;
    if n: nat :| EntitledAt(s, most, n, who, request, pageCount) {
      assert n < |most| ==> (most + [e])[..n] == most[..n];
      assert EntitledAt(s, most + [e], n, who, request, pageCount);
    }
  }

  // A caller on its way to a commit was entitled.
  ghost predicate ClientEntitled(s: System, events: seq<Event>, who: nat, c: Client) {
    match c.phase
    case Entitled(pageCount) => EverEntitled(s, events, who, c.request, pageCount)
    case Loaded(_, pageCount) => EverEntitled(s, events, who, c.request, pageCount)
    case _ => true
  }

  ghost predicate EntryEntitled(s: System, events: seq<Event>, entry: Entry) {
    exists who :: EverEntitled(s, events, who, entry.request, entry.pageCount)
  }

  ghost predicate EntitlementOk(s: System, events: seq<Event>, end: System) {
    && (forall who :: 0 <= who < |end.clients| ==> ClientEntitled(s, events, who, end.clients[who]))
    && (forall i :: 0 <= i < |end.log| ==> EntryEntitled(s, events, end.log[i]))
  }

  lemma ClientStaysEntitled(s: System, most: seq<Event>, e: Event, who: nat, c: Client)
    requires ClientEntitled(s, most, who, c)
    ensures ClientEntitled(s, most + [e], who, c)
  {
    hide EverEntitled;
    if c.phase.Entitled? || c.phase.Loaded? { EntitledStays(s, most, e, who, c.request, c.phase.pageCount); }
  }

  lemma EntryStaysEntitled(s: System, most: seq<Event>, e: Event, entry: Entry)
    requires EntryEntitled(s, most, entry)
    ensures EntryEntitled(s, most + [e], entry)
  {
    hide EverEntitled;
    var who :| EverEntitled(s, most, who, entry.request, entry.pageCount);
    EntitledStays(s, most, e, who, entry.request, entry.pageCount);
  }

  lemma NowEntitled(s: System, most: seq<Event>, e: Event, who: nat)
    requires who < |Run(s, most).clients| && Run(s, most).clients[who].phase.Checked? && e.ReadAccess? && e.who == who
    requires Next(Run(s, most), e).clients[who].phase.Entitled?
    ensures EverEntitled(s, most + [e], who, Run(s, most).clients[who].request, Next(Run(s, most), e).clients[who].phase.pageCount)
  {
    assert (most + [e])[..|most|] == most && (most + [e])[|most|] == e;
    var version := Run(s, most).clients[who].request.payload.contentVersion;
    assert version in e.access.supported;
    hide Run;
    assert EntitledAt(s, most + [e], |most|, who, Run(s, most).clients[who].request, Next(Run(s, most), e).clients[who].phase.pageCount);
  }

  lemma EntitlementStep(s: System, most: seq<Event>, e: Event)
    requires EntitlementOk(s, most, Run(s, most))
    ensures EntitlementOk(s, most + [e], Next(Run(s, most), e))
  {
    var before, after := Run(s, most), Next(Run(s, most), e);
    OneEntryAtMost(before, e);
    forall who | 0 <= who < |after.clients| ensures ClientEntitled(s, most + [e], who, after.clients[who]) {
      hide Run, EverEntitled;
      OneClientMoves(before, e, who);
      if who < |before.clients| { ClientStaysEntitled(s, most, e, who, before.clients[who]); }
      if e.ReadAccess? && e.who == who && before.clients[who].phase.Checked? && after.clients[who].phase.Entitled? {
        NowEntitled(s, most, e, who);
      }
      hide Next;
    }
    hide Next, Run, EverEntitled;
    forall i | 0 <= i < |after.log| ensures EntryEntitled(s, most + [e], after.log[i]) {
      if |before.log| <= i {
        ClientStaysEntitled(s, most, e, e.who, before.clients[e.who]);
      } else {
        EntryStaysEntitled(s, most, e, before.log[i]);
        assert after.log[i] == before.log[i];
      }
    }
  }

  // How a step can bring a caller on its way to a commit.
  lemma OneClientMoves(s: System, e: Event, who: nat)
    requires who < |Next(s, e).clients|
    ensures var t := Next(s, e);
            || (who < |s.clients| && t.clients[who] == s.clients[who])
            || (!t.clients[who].phase.Entitled? && !t.clients[who].phase.Loaded?)
            || (who < |s.clients| && e.ReadAccess? && e.who == who && s.clients[who].phase.Checked? && t.clients[who].phase.Entitled?
                && t.clients[who].request == s.clients[who].request)
            || (who < |s.clients| && s.clients[who].phase.Entitled? && t.clients[who].phase.Loaded?
                && t.clients[who].request == s.clients[who].request
                && t.clients[who].phase.pageCount == s.clients[who].phase.pageCount)
  {
    hide Commit, PriorReply, AccessReply;
  }

  // A new entry is that of the caller that commits.
  lemma OneEntryAtMost(s: System, e: Event)
    ensures var t := Next(s, e);
            && |s.log| <= |t.log| <= |s.log| + 1 && t.log[..|s.log|] == s.log
            && (|s.log| < |t.log| ==>
                  && e.CommitTransaction? && e.who < |s.clients| && s.clients[e.who].phase.Loaded?
                  && t.log[|s.log|].request == s.clients[e.who].request
                  && t.log[|s.log|].pageCount == s.clients[e.who].phase.pageCount)
  {
    hide Commit, PriorReply, AccessReply;
  }

  lemma {:induction false} EntitlementRun(s: System, events: seq<Event>)
    requires Initial(s)
    ensures EntitlementOk(s, events, Run(s, events))
  {
    hide EntitlementOk, Next;
    if events == [] {
      NobodyYet(s);
    } else {
      var most, e := events[..|events| - 1], events[|events| - 1];
      assert most + [e] == events;
      EntitlementRun(s, most);
      EntitlementStep(s, most, e);
    }
  }

  lemma NobodyYet(s: System)
    requires Initial(s)
    ensures EntitlementOk(s, [], s)
  {
  }

  // Over every interleaving, each committed operation was sent by a caller that, between its check and its commit, was
  // found to have access to the book with the version it names supported; the page count it used is the one found then.
  lemma OnlyEntitledCommits(s: System, events: seq<Event>, i: nat)
    requires Initial(s) && i < |Run(s, events).log|
    ensures var entry := Run(s, events).log[i];
            exists n, who :: EntitledAt(s, events, n, who, entry.request, entry.pageCount)
  {
    EntitlementRun(s, events);
    hide Run, EntitledAt;
    var entry := Run(s, events).log[i];
    assert EntryEntitled(s, events, entry);
    var who :| EverEntitled(s, events, who, entry.request, entry.pageCount);
  }
}
