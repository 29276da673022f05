// The reader-mutation service as it runs: handlers that write table by table, a transaction that rolls back on a
// unique violation, and the bounded look for the winner's receipt.
module ReaderService {
  import opened Prelude
  import opened ReaderModel
  import opened ReaderRaces

  // A handler's answer; none when a statement broke a unique key.
  function AsStep(db: Db, result: Option<Result>): Step {
    match result
    case None => UniqueViolation
    case Some(r) => Done(db, r)
  }

  class ReaderStore {
    var nextId: Id
    var receipts: map<(Id, Id), Receipt>
    var progress: map<(Id, Id), Progress>
    var bookmarks: Table<BookmarkBody>
    var highlights: Table<HighlightBody>
    var tombstones: map<(Id, Id), Tombstone>
    var copies: map<Id, Copy>

    constructor ()
      ensures Tables() == Db(0, map[], map[], Table(map[], map[]), Table(map[], map[]), map[], map[])
    {
      nextId, receipts, progress, tombstones, copies := 0, map[], map[], map[], map[];
      bookmarks, highlights := Table(map[], map[]), Table(map[], map[]);
    }

    function Tables(): Db
      reads this
    {
      Db(nextId, receipts, progress, bookmarks, highlights, tombstones, copies)
    }

    // `updateMany` guarded by the revision read: how many rows it changed.
    method UpdateBookmarkWhere(id: Id, user: Id, book: Id, base: nat, now: Time) returns (count: nat)
      modifies this`bookmarks
      ensures count == if Guarded(old(bookmarks), id, user, book, base) then 1 else 0
      ensures bookmarks == if count == 0 then old(bookmarks)
                           else Put(old(bookmarks), id, old(bookmarks).rows[id].(deletedAt := Some(now), revision := base + 1))
    {
      count := 0;
      if Guarded(bookmarks, id, user, book, base) {
        bookmarks := Put(bookmarks, id, bookmarks.rows[id].(deletedAt := Some(now), revision := base + 1));
        count := 1;
      }
    }

    method UpdateHighlightWhere(id: Id, user: Id, book: Id, base: nat, body: Option<HighlightBody>, deletedAt: Option<Time>)
      returns (count: nat)
      modifies this`highlights
      ensures count == if Guarded(old(highlights), id, user, book, base) then 1 else 0
      ensures highlights ==
              if count == 0 then old(highlights)
              else var row := old(highlights).rows[id];
                   Put(old(highlights), id, row.(body := body.GetOr(row.body), revision := base + 1,
                                                 deletedAt := if deletedAt.Some? then deletedAt else row.deletedAt))
    {
      count := 0;
      if Guarded(highlights, id, user, book, base) {
        var row := highlights.rows[id];
        if body.Some? { row := row.(body := body.value); }
        if deletedAt.Some? { row := row.(deletedAt := deletedAt); }
        highlights := Put(highlights, id, row.(revision := base + 1));
        count := 1;
      }
    }

    method WriteTombstone(subject: Id, entity: Id, kind: EntityKind, revision: nat, now: Time)
      modifies this`tombstones
      ensures Tables() == UpsertTombstone(old(Tables()), subject, entity, kind, revision, now)
    {
      if (subject, entity) in tombstones {
        tombstones := tombstones[(subject, entity) := tombstones[(subject, entity)].(revision := revision, deletedAt := now)];
      } else {
        tombstones := tombstones[(subject, entity) := Tombstone(kind, revision, now)];
      }
    }

    method CreateCopy(c: Context, source: Id, reason: Reason, body: HighlightBody) returns (created: (Id, Copy))
      modifies this`copies
      ensures created == (c.newId, NewCopy(c, source, reason, body))
      ensures Tables() == WithCopy(old(Tables()), c, created.1)
    {
      created := (c.newId, NewCopy(c, source, reason, body));
      copies := copies[c.newId := created.1];
    }

    method ApplyProgress(c: Context, existing: Option<Progress>) returns (result: Option<Result>)
      requires c.request.payload.action.SetProgress?
      modifies this`progress
      ensures AsStep(Tables(), result) == CommitProgress(old(Tables()), c, existing)
      ensures result.None? ==> Tables() == old(Tables())
    {
      var SetProgress(base, page, scrollY) := c.request.payload.action;
      var user, book := c.request.subject, c.request.payload.book;
      var previous := if existing.Some? then existing.value.completedAt else None;
      var completedAt := CompletedAtFor(page, c.pageCount, previous, c.now);
      if existing.None? {
        if base != 0 { return Some(ProgressConflict(c, None)); }
        if (user, book) in progress { return None; }
        progress := progress[(user, book) := Progress(c.newId, page, scrollY, 1, c.now, completedAt)];
        return Some(Applied(c.newId, 1, c.receipt));
      }
      if existing.value.revision != base { return Some(ProgressConflict(c, existing)); }
      if (user, book) in progress && progress[(user, book)].revision == base {
        progress := progress[(user, book) := Progress(existing.value.id, page, scrollY, base + 1, c.now, completedAt)];
        return Some(Applied(existing.value.id, base + 1, c.receipt));
      }
      return Some(ProgressConflict(c, FindProgress(Tables(), user, book)));
    }

    method ApplyBookmarkAdd(c: Context, existing: Option<(Id, Row<BookmarkBody>)>) returns (result: Option<Result>)
      requires c.request.payload.action.AddBookmark?
      modifies this`bookmarks
      ensures AsStep(Tables(), result) == CommitAddBookmark(old(Tables()), c, existing)
      ensures result.None? ==> Tables() == old(Tables())
    {
      var AddBookmark(client, body) := c.request.payload.action;
      var user := c.request.subject;
      if existing.Some? {
        var (id, row) := existing.value;
        if row.deletedAt.Some? { return Some(BookmarkConflict(id, row)); }
        if row.body == body { return Some(Applied(id, row.revision, c.receipt)); }
        return Some(BookmarkConflict(id, row));
      }
      if (user, client) in bookmarks.byClient { return None; }
      bookmarks := Insert(bookmarks, c.newId, user, client,
                          Row(user, c.request.payload.book, Some(client), body, Some(c.request.payload.contentVersion), 1, None));
      return Some(Applied(c.newId, 1, c.receipt));
    }

    method ApplyBookmarkRemove(c: Context, existing: Option<(Id, Row<BookmarkBody>)>) returns (result: Option<Result>)
      requires c.request.payload.action.RemoveBookmark?
      modifies this`bookmarks, this`tombstones
      ensures AsStep(Tables(), result) == CommitRemoveBookmark(old(Tables()), c, existing)
      ensures result.None? ==> Tables() == old(Tables())
    {
      var RemoveBookmark(entity, base) := c.request.payload.action;
      var user, book := c.request.subject, c.request.payload.book;
      if existing.None? { return Some(AccessDenied(entity)); }
      var (id, row) := existing.value;
      if row.deletedAt.Some? { return Some(Applied(id, row.revision, c.receipt)); }
      if row.revision != base { return Some(BookmarkConflict(id, row)); }
      var count := UpdateBookmarkWhere(id, user, book, base, c.now);
      if count == 0 {
        var current := FindRow(bookmarks, id, user, book);
        return Some(BookmarkConflict(id, current.GetOr((id, row)).1));
      }
      WriteTombstone(user, id, BookmarkKind, base + 1, c.now);
      return Some(Applied(id, base + 1, c.receipt));
    }

    method ApplyAnnotationCreate(c: Context, existing: Option<(Id, Row<HighlightBody>)>) returns (result: Option<Result>)
      requires c.request.payload.action.CreateAnnotation?
      modifies this`highlights
      ensures AsStep(Tables(), result) == CommitCreateAnnotation(old(Tables()), c, existing)
      ensures result.None? ==> Tables() == old(Tables())
    {
      var CreateAnnotation(client, body) := c.request.payload.action;
      var user := c.request.subject;
      if existing.Some? {
        var (id, row) := existing.value;
        if row.deletedAt.Some? { return Some(HighlightConflict(id, row, None)); }
        if row.body == body { return Some(Applied(id, row.revision, c.receipt)); }
        return Some(HighlightConflict(id, row, None));
      }
      if (user, client) in highlights.byClient { return None; }
      highlights := Insert(highlights, c.newId, user, client,
                           Row(user, c.request.payload.book, Some(client), body, Some(c.request.payload.contentVersion), 1, None));
      return Some(Applied(c.newId, 1, c.receipt));
    }

    method ApplyAnnotationUpdate(c: Context, existing: Option<(Id, Row<HighlightBody>)>) returns (result: Option<Result>)
      requires c.request.payload.action.UpdateAnnotation?
      modifies this`highlights, this`copies
      ensures AsStep(Tables(), result) == CommitUpdateAnnotation(old(Tables()), c, existing)
      ensures result.None? ==> Tables() == old(Tables())
    {
      var UpdateAnnotation(entity, _, base, body) := c.request.payload.action;
      var user, book := c.request.subject, c.request.payload.book;
      if existing.None? { return Some(AccessDenied(entity)); }
      var (id, row) := existing.value;
      if row.deletedAt.Some? {
        var copy := CreateCopy(c, id, DeleteVsEdit, body);
        return Some(HighlightConflict(id, row, Some(copy)));
      }
      if row.revision != base {
        var copy := CreateCopy(c, id, StaleRevision, body);
        return Some(HighlightConflict(id, row, Some(copy)));
      }
      var count := UpdateHighlightWhere(id, user, book, base, Some(body), None);
      if count == 0 {
        var current := FindRow(highlights, id, user, book);
        return Some(HighlightConflict(id, current.GetOr((id, row)).1, None));
      }
      return Some(Applied(id, base + 1, c.receipt));
    }

    method UpdateConflictCopy(c: Context, existing: Option<(Id, Copy)>) returns (result: Option<Result>)
      requires c.request.payload.action.UpdateAnnotation?
      requires existing.Some? ==> existing.value.1.book == c.request.payload.book
      modifies this`copies
      ensures AsStep(Tables(), result) == CommitUpdateCopy(old(Tables()), c, existing)
      ensures result.None? ==> Tables() == old(Tables())
    {
      var UpdateAnnotation(entity, _, base, body) := c.request.payload.action;
      if existing.None? { return Some(AccessDenied(entity)); }
      var (id, row) := existing.value;
      if row.revision != base {
        var copy := CreateCopy(c, row.source, StaleRevision, body);
        return Some(Conflict(id, row.revision, CopyValue(id, row), Some(copy)));
      }
      var current := FindCopy(Tables(), id, c.request.subject, row.book);
      if current.Some? && current.value.1.revision == base {
        copies := copies[id := current.value.1.(body := body, revision := base + 1)];
        return Some(Applied(id, base + 1, c.receipt));
      }
      var server := current.GetOr((id, row)).1;
      var copy := CreateCopy(c, server.source, StaleRevision, body);
      return Some(Conflict(id, server.revision, CopyValue(id, server), Some(copy)));
    }

    method ApplyAnnotationDelete(c: Context, existing: Option<(Id, Row<HighlightBody>)>) returns (result: Option<Result>)
      requires c.request.payload.action.DeleteAnnotation?
      modifies this`highlights, this`tombstones, this`copies
      ensures AsStep(Tables(), result) == CommitDeleteAnnotation(old(Tables()), c, existing)
      ensures result.None? ==> Tables() == old(Tables())
    {
      var DeleteAnnotation(entity, base) := c.request.payload.action;
      var user, book := c.request.subject, c.request.payload.book;
      if existing.None? { return Some(AccessDenied(entity)); }
      var (id, row) := existing.value;
      if row.deletedAt.Some? { return Some(Applied(id, row.revision, c.receipt)); }
      if row.revision != base {
        var copy := CreateCopy(c, id, DeleteVsEdit, row.body);
        return Some(HighlightConflict(id, row, Some(copy)));
      }
      var count := UpdateHighlightWhere(id, user, book, base, None, Some(c.now));
      if count == 0 {
        var current := FindRow(highlights, id, user, book);
        return Some(HighlightConflict(id, current.GetOr((id, row)).1, None));
      }
      WriteTombstone(user, id, AnnotationKind, base + 1, c.now);
      return Some(Applied(id, base + 1, c.receipt));
    }

    // Reads the row the request is about in `seen`, then runs the handler of its kind.
    method Dispatch(seen: Db, c: Context) returns (result: Option<Result>)
      modifies this`progress, this`bookmarks, this`highlights, this`tombstones, this`copies
      ensures AsStep(Tables(), result) == Handle(seen, old(Tables()), c)
      ensures result.None? ==> Tables() == old(Tables())
    {
      var user, book := c.request.subject, c.request.payload.book;
      match c.request.payload.action
      case SetProgress(_, _, _) => result := ApplyProgress(c, FindProgress(seen, user, book));
      case AddBookmark(client, _) => result := ApplyBookmarkAdd(c, FindByClient(seen.bookmarks, user, client));
      case RemoveBookmark(entity, _) => result := ApplyBookmarkRemove(c, FindRow(seen.bookmarks, entity, user, book));
      case CreateAnnotation(client, _) => result := ApplyAnnotationCreate(c, FindByClient(seen.highlights, user, client));
      case UpdateAnnotation(entity, target, _, _) =>
        if target.CopyTarget? { result := UpdateConflictCopy(c, FindCopy(seen, entity, user, book)); }
        else { result := ApplyAnnotationUpdate(c, FindRow(seen.highlights, entity, user, book)); }
      case DeleteAnnotation(entity, _) => result := ApplyAnnotationDelete(c, FindRow(seen.highlights, entity, user, book));
    }

    method Rollback(before: Db)
      modifies this
      ensures Tables() == before
    {
      bookmarks, highlights, progress := before.bookmarks, before.highlights, before.progress;
      tombstones, copies := before.tombstones, before.copies;
      receipts, nextId := before.receipts, before.nextId;
    }

    // The transaction body: its reads see `seen`, its writes go to the tables as they are now. On a unique
    // violation everything it wrote is rolled back.
    method Execute(seen: Db, request: Request, access: Access, now: Time) returns (reply: Option<Reply>)
      modifies this
      ensures
        if request.Key() in seen.receipts then reply == Some(StoredAnswer(seen.receipts[request.Key()], request)) && Tables() == old(Tables())
        else if Refused(request, access) then reply == Some(Ok(Refusal(request, access))) && Tables() == old(Tables())
        else match Commit(seen, old(Tables()), request, access.pageCount, now)
             case UniqueViolation => reply == None && Tables() == old(Tables())
             case Done(after, result) => reply == Some(Ok(result)) && Tables() == after
    {
      PriorMeaning(seen, request);
      AccessMeaning(request, access);
      hide PriorReply, AccessReply, Handle;
      if PriorReply(seen, request).Some? { return PriorReply(seen, request); }
      if AccessReply(request, access).Some? { return AccessReply(request, access); }
      var before := Tables();
      var c := ContextFor(before, request, access.pageCount, now);
      var result := Dispatch(seen, c);
      if result.None? { return None; }
      if result.value.Receipted() {
        if request.Key() in receipts {
          Rollback(before);
          return None;
        }
        receipts := receipts[request.Key() := Receipt(c.receipt, request.payload, result.value)];
        nextId := c.newId + 1;
      }
      return Some(Ok(result.value));
    }

    // The entry point. When nothing runs in between, the answer and the tables are those of the interleaved model's run of
    // one caller: check, entitlement, read, commit, and after an abort up to five looks for the winner.
    method ApplyOperation(request: Request, access: Access, now: Time) returns (reply: Reply)
      modifies this
      ensures
        if request.Key() in old(receipts) then reply == StoredAnswer(old(receipts)[request.Key()], request) && Tables() == old(Tables())
        else if Refused(request, access) then reply == Ok(Refusal(request, access)) && Tables() == old(Tables())
        else match Commit(old(Tables()), old(Tables()), request, access.pageCount, now)
             case UniqueViolation => reply == RetryLater && Tables() == old(Tables())
             case Done(after, result) => reply == Ok(result) && Tables() == after
      ensures var end := Run(System(old(Tables()), [], []), Uninterrupted(request, access, now));
              Tables() == end.db && end.clients == [Client(request, Answered(reply))]
    {
      PriorMeaning(Tables(), request);
      AccessMeaning(request, access);
      hide Commit, PriorReply, AccessReply, Run;
      AloneRuns(Tables(), request, access, now);
      var outcome := Execute(Tables(), request, access, now);
      if outcome.Some? { return outcome.value; }
      var stored := receipts;
      reply := ReplayAfterConflict(seq(REPLAY_READ_ATTEMPTS, _ => stored), request);
    }
  }

  // What a caller whose key has a receipt is told: the stored result for the same payload, and nothing for another one.
  function StoredAnswer(stored: Receipt, request: Request): Reply {
    if stored.payload == request.payload then Ok(stored.result) else DifferentPayload
  }

  // A request is refused exactly when the reader has no access to the book, or has but its version is not supported.
  predicate Refused(request: Request, access: Access) {
    match access
    case Denied => true
    case Allowed(supported, _) => !exists i :: 0 <= i < |supported| && supported[i] == request.payload.contentVersion
  }

  function Refusal(request: Request, access: Access): Result {
    match access
    case Denied => AccessDenied(request.payload.book)
    case Allowed(supported, _) => IncompatibleVersion(request.payload.contentVersion, supported)
  }

  lemma PriorMeaning(db: Db, request: Request)
    ensures PriorReply(db, request)
         == if request.Key() in db.receipts then Some(StoredAnswer(db.receipts[request.Key()], request)) else None
  {
  }

  lemma AccessMeaning(request: Request, access: Access)
    ensures AccessReply(request, access) == if Refused(request, access) then Some(Ok(Refusal(request, access))) else None
  {
  }

  // The steps of one caller that nobody interrupts.
  function Uninterrupted(request: Request, access: Access, now: Time): seq<Event> {
    [Submit(request), CheckReceipt(0), ReadAccess(0, access), ReadRow(0), CommitTransaction(0, now),
     ReadWinner(0), ReadWinner(0), ReadWinner(0), ReadWinner(0), ReadWinner(0)]
  }

  lemma RunPrefix(s: System, events: seq<Event>, n: nat)
    requires n < |events|
    ensures Run(s, events[..n + 1]) == Next(Run(s, events[..n]), events[n])
  {
    assert events[..n + 1][..n] == events[..n];
  }

  // The lone caller has its answer, and no further step of it does anything.
  lemma {:induction false} AnswerStays(s: System, events: seq<Event>, n: nat, m: nat)
    requires n <= m <= |events| && |Run(s, events[..n]).clients| == 1 && Run(s, events[..n]).clients[0].phase.Answered?
    requires forall i :: n <= i < m ==> !events[i].Submit?
    ensures Run(s, events[..m]) == Run(s, events[..n])
  {
    hide Run, Next;
    if n < m {
      AnswerStays(s, events, n, m - 1);
      RunPrefix(s, events, m - 1);
      AnsweredIsIdle(Run(s, events[..n]), events[m - 1]);
    }
  }

  lemma AnsweredIsIdle(s: System, e: Event)
    requires |s.clients| == 1 && s.clients[0].phase.Answered? && !e.Submit?
    ensures Next(s, e) == s
  {
  }

  // The looks of a caller that finds no receipt use up its attempts.
  lemma LooksInVain(db: Db, log: seq<ReaderRaces.Entry>, request: Request, left: nat)
    requires PriorReply(db, request).None? && 1 <= left
    ensures Next(System(db, [Client(request, Replaying(left))], log), ReadWinner(0))
         == System(db, [Client(request, if left == 1 then Answered(RetryLater) else Replaying(left - 1))], log)
  {
  }

  // The whole run of a lone caller.
  lemma AloneRuns(db: Db, request: Request, access: Access, now: Time)
    ensures var end := Run(System(db, [], []), Uninterrupted(request, access, now));
            var prior, refusal := PriorReply(db, request), AccessReply(request, access);
            if prior.Some? then end.db == db && end.clients == [Client(request, Answered(prior.value))]
            else if refusal.Some? then end.db == db && end.clients == [Client(request, Answered(refusal.value))]
            else match Commit(db, db, request, access.pageCount, now)
                 case UniqueViolation => end.db == db && end.clients == [Client(request, Answered(RetryLater))]
                 case Done(after, result) => end.db == after && end.clients == [Client(request, Answered(Ok(result)))]
  {
    hide Run, Next, Commit, PriorReply, AccessReply;
    var es, s := Uninterrupted(request, access, now), System(db, [], []);
    assert es[..10] == es;
    AloneBegins(db, es, request);
    RunPrefix(s, es, 1);
    if PriorReply(db, request).Some? {
      AloneChecks(db, request);
      AnswerStays(s, es, 2, 10);
    } else {
      AloneChecks(db, request);
      RunPrefix(s, es, 2);
      AloneIsEntitled(db, request, access);
      if AccessReply(request, access).Some? {
        AnswerStays(s, es, 3, 10);
      } else {
        RunPrefix(s, es, 3);
        RunPrefix(s, es, 4);
        AloneCommits(db, request, access.pageCount, now);
        if Commit(db, db, request, access.pageCount, now).Done? {
          AnswerStays(s, es, 5, 10);
        } else {
          AloneLooks(s, es, db, request);
        }
      }
    }
  }

  lemma AloneBegins(db: Db, es: seq<Event>, request: Request)
    requires es != [] && es[0] == Submit(request)
    ensures Run(System(db, [], []), es[..1]) == System(db, [Client(request, Begun)], [])
  {
    RunPrefix(System(db, [], []), es, 0);
    assert es[..0] == [];
  }

  lemma AloneChecks(db: Db, request: Request)
    ensures Next(System(db, [Client(request, Begun)], []), CheckReceipt(0))
         == System(db, [Client(request, if PriorReply(db, request).Some? then Answered(PriorReply(db, request).value) else Checked)], [])
  {
    hide PriorReply;
  }

  lemma AloneIsEntitled(db: Db, request: Request, access: Access)
    ensures AccessReply(request, access).None? ==> access.Allowed?
    ensures Next(System(db, [Client(request, Checked)], []), ReadAccess(0, access))
         == System(db, [Client(request, if AccessReply(request, access).Some? then Answered(AccessReply(request, access).value)
                                        else Entitled(access.pageCount))], [])
  {
  }

  lemma AloneCommits(db: Db, request: Request, pageCount: Option<nat>, now: Time)
    ensures Next(System(db, [Client(request, Entitled(pageCount))], []), ReadRow(0))
         == System(db, [Client(request, Loaded(db, pageCount))], [])
    ensures var committed := Next(System(db, [Client(request, Loaded(db, pageCount))], []), CommitTransaction(0, now));
            match Commit(db, db, request, pageCount, now)
            case UniqueViolation => committed == System(db, [Client(request, Replaying(REPLAY_READ_ATTEMPTS))], [])
            case Done(after, result) => committed.db == after && committed.clients == [Client(request, Answered(Ok(result)))]
  {
    hide Commit;
  }

  lemma AloneLooks(s: System, es: seq<Event>, db: Db, request: Request)
    requires PriorReply(db, request).None? && |es| == 10 && forall i :: 5 <= i < 10 ==> es[i] == ReadWinner(0)
    requires Run(s, es[..5]) == System(db, [Client(request, Replaying(REPLAY_READ_ATTEMPTS))], [])
    ensures Run(s, es[..10]) == System(db, [Client(request, Answered(RetryLater))], [])
  {
    hide Run, Next, PriorReply;
    RunPrefix(s, es, 5);
    RunPrefix(s, es, 6);
    RunPrefix(s, es, 7);
    RunPrefix(s, es, 8);
    RunPrefix(s, es, 9);
    LooksInVain(db, [], request, 5);
    LooksInVain(db, [], request, 4);
    LooksInVain(db, [], request, 3);
    LooksInVain(db, [], request, 2);
    LooksInVain(db, [], request, 1);
  }

  // After an abort: look for the winner's receipt in up to REPLAY_READ_ATTEMPTS successive readings of the receipts.
  method ReplayAfterConflict(readings: seq<map<(Id, Id), Receipt>>, request: Request) returns (reply: Reply)
    requires |readings| == REPLAY_READ_ATTEMPTS
    ensures reply.RetryLater? <==> forall i :: 0 <= i < |readings| ==> request.Key() !in readings[i]
    ensures !reply.RetryLater? ==>
              exists i :: 0 <= i < |readings| && request.Key() in readings[i]
                && reply == ReplayOutcome(readings[i][request.Key()], request.payload)
                && forall j :: 0 <= j < i ==> request.Key() !in readings[j]
  {
    var attempt := 0;
    while attempt < REPLAY_READ_ATTEMPTS
      invariant 0 <= attempt <= |readings|
      invariant forall j :: 0 <= j < attempt ==> request.Key() !in readings[j]
    {
      if request.Key() in readings[attempt] {
        return ReplayOutcome(readings[attempt][request.Key()], request.payload);
      }
      attempt := attempt + 1;
    }
    reply := RetryLater;
  }
}
