// What each reply promises about the tables.
module ReaderMeaning {
  import opened Prelude
  import opened ReaderModel
  import opened ReaderInvariants

  // One transaction that reads and writes the same state.
  function Transaction(db: Db, request: Request, pageCount: Option<nat>, now: Time): Step {
    Commit(db, db, request, pageCount, now)
  }

  // Alone, a transaction with an unused operation id always commits.
  lemma AloneAlwaysCommits(db: Db, request: Request, pageCount: Option<nat>, now: Time)
    requires Inv(db) && request.Key() !in db.receipts
    ensures Transaction(db, request, pageCount, now).Done?
  {
    if request.payload.action.AddBookmark? || request.payload.action.CreateAnnotation? {
      var key := (request.subject, request.payload.action.client);
      assert key in db.bookmarks.byClient ==> FindByClient(db.bookmarks, key.0, key.1).Some?;
      assert key in db.highlights.byClient ==> FindByClient(db.highlights, key.0, key.1).Some?;
    }
  }

  // ── Nothing is lost ──

  predicate SameRows(a: Db, b: Db) {
    a.progress == b.progress && a.bookmarks == b.bookmarks && a.highlights == b.highlights && a.tombstones == b.tombstones
  }

  ghost predicate OnlyCopyAdded(db: Db, after: Db, result: Result)
    requires result.Conflict?
  {
    && SameRows(db, after)
    && match result.copy
       case None => after.copies == db.copies
       case Some((id, copy)) => id !in db.copies && after.copies == db.copies[id := copy]
  }

  lemma HandlerConflictChangesNoRow(seen: Db, db: Db, c: Context)
    requires c.newId !in db.copies
    requires Handle(seen, db, c).Done? && Handle(seen, db, c).result.Conflict?
    ensures OnlyCopyAdded(db, Handle(seen, db, c).db, Handle(seen, db, c).result)
  {
    hide FindRow, FindByClient, FindProgress, FindCopy, Guarded, Put, Insert, BookmarkView, HighlightView, ProgressView, NewCopy;
    match c.request.payload.action
    case SetProgress(_, _, _) =>
    case AddBookmark(_, _) =>
    case RemoveBookmark(_, _) =>
    case CreateAnnotation(_, _) =>
    case UpdateAnnotation(_, _, _, _) =>
    case DeleteAnnotation(_, _) =>
  }

  // A conflict, even after a race, changes no existing row; at most it adds one conflict copy, and the
  // copy it names is exactly the one it added.
  lemma ConflictChangesNoRow(seen: Db, db: Db, request: Request, pageCount: Option<nat>, now: Time)
    requires Inv(db) && Commit(seen, db, request, pageCount, now).Done?
    requires Commit(seen, db, request, pageCount, now).result.Conflict?
    ensures OnlyCopyAdded(db, Commit(seen, db, request, pageCount, now).db, Commit(seen, db, request, pageCount, now).result)
  {
    NewIdUnused(db, db.nextId + 1);
    hide Inv, Handle;
    HandlerConflictChangesNoRow(seen, db, ContextFor(db, request, pageCount, now));
  }

  // The edit of an update is in the row it named, with everything else of the row unchanged but its revision.
  ghost predicate EditInRow(db: Db, after: Db, entity: Id, body: HighlightBody) {
    && entity in db.highlights.rows
    && after.highlights.rows ==
         db.highlights.rows[entity := db.highlights.rows[entity].(body := body, revision := db.highlights.rows[entity].revision + 1)]
    && after.copies == db.copies
  }

  ghost predicate EditInTargetCopy(db: Db, after: Db, entity: Id, body: HighlightBody) {
    && entity in db.copies
    && after.copies == db.copies[entity := db.copies[entity].(body := body, revision := db.copies[entity].revision + 1)]
    && after.highlights == db.highlights
  }

  // The edit is in a conflict copy that did not exist before, owned by the caller and naming its source.
  ghost predicate EditInNewCopy(db: Db, after: Db, request: Request, source: Id, reason: Reason, body: HighlightBody) {
    && SameRows(db, after)
    && exists id: Id :: id !in db.copies
         && after.copies == db.copies[id := Copy(request.subject, request.operation, source, request.payload.book,
                                                 request.payload.contentVersion, body, 1, reason)]
  }

  // The row was read live at the base revision and had moved on when it was written.
  ghost predicate LostRace(seen: Db, db: Db, request: Request) {
    && request.payload.action.UpdateAnnotation?
    && var entity, base := request.payload.action.entity, request.payload.action.base;
       && entity in seen.highlights.rows && entity in db.highlights.rows
       && seen.highlights.rows[entity].revision == base && seen.highlights.rows[entity].deletedAt.None?
       && db.highlights.rows[entity].revision != base
  }

  ghost predicate UpdateOutcome(seen: Db, db: Db, after: Db, request: Request, result: Result)
    requires request.payload.action.UpdateAnnotation? && request.payload.action.entity in seen.highlights.rows
  {
    var UpdateAnnotation(entity, _, base, body) := request.payload.action;
    && (result.Applied? ==>
          && entity in db.highlights.rows && db.highlights.rows[entity].revision == base
          && EditInRow(db, after, entity, body) && result.entity == entity && result.revision == base + 1)
    && (result.Conflict? && !LostRace(seen, db, request) ==>
          && result.copy.Some?
          && EditInNewCopy(db, after, request, entity,
                           if seen.highlights.rows[entity].deletedAt.Some? then DeleteVsEdit else StaleRevision, body))
    && (result.Conflict? && LostRace(seen, db, request) ==>
          result.copy.None? && SameRows(db, after) && after.copies == db.copies)
  }

  lemma HandledUpdateOutcome(seen: Db, db: Db, c: Context)
    requires c.request.payload.action.UpdateAnnotation?
    requires c.newId !in db.copies
    requires var existing := FindRow(seen.highlights, c.request.payload.action.entity, c.request.subject, c.request.payload.book);
             existing.Some? ==> FindRow(db.highlights, existing.value.0, c.request.subject, c.request.payload.book).Some?
    requires var existing := FindRow(seen.highlights, c.request.payload.action.entity, c.request.subject, c.request.payload.book);
             var step := CommitUpdateAnnotation(db, c, existing); step.Done? && step.result.Receipted()
    ensures c.request.payload.action.entity in seen.highlights.rows
    ensures var existing := FindRow(seen.highlights, c.request.payload.action.entity, c.request.subject, c.request.payload.book);
            var Done(after, result) := CommitUpdateAnnotation(db, c, existing);
            UpdateOutcome(seen, db, after, c.request, result)
  {
    hide HighlightView;
    var UpdateAnnotation(entity, _, base, body) := c.request.payload.action;
    var existing := FindRow(seen.highlights, entity, c.request.subject, c.request.payload.book);
    var Done(after, result) := CommitUpdateAnnotation(db, c, existing);
    if result.Conflict? && result.copy.Some? {
      var (id, copy) := result.copy.value;
      assert after.copies == db.copies[id := copy];
    }
  }

  // An accepted annotation update keeps the edit exactly when it did not lose the race between its read
  // and its guarded write; one that lost it replies CONFLICT without a copy and changes nothing.
  lemma UpdateKeepsEditUnlessRaced(seen: Db, db: Db, request: Request, pageCount: Option<nat>, now: Time)
    requires Inv(db) && Evolves(seen, db)
    requires request.payload.action.UpdateAnnotation? && request.payload.action.target.AnnotationTarget?
    requires Commit(seen, db, request, pageCount, now).Done?
    requires Commit(seen, db, request, pageCount, now).result.Receipted()
    ensures request.payload.action.entity in seen.highlights.rows
    ensures var Done(after, result) := Commit(seen, db, request, pageCount, now);
            UpdateOutcome(seen, db, after, request, result)
  {
    var entity := request.payload.action.entity;
    NewIdUnused(db, db.nextId + 1);
    if entity in seen.highlights.rows {
      assert RowEvolves(seen.highlights.rows[entity], db.highlights.rows[entity]);
    }
    hide Inv, Evolves, TableEvolves, CommitUpdateAnnotation, HighlightView;
    HandledUpdateOutcome(seen, db, ContextFor(db, request, pageCount, now));
  }

  // Two updates on one base that both read the created row: the second is told CONFLICT without a copy, and its text is in
  // no row and in no copy.
  lemma RacedUpdateWitness()
    ensures var empty := Db(0, map[], map[], Table(map[], map[]), Table(map[], map[]), map[], map[]);
            var first, second := HighlightBody(1, "first", None, None, None), HighlightBody(1, "second", None, None, None);
            var created := Transaction(empty, Request(1, 100, Payload(10, 1, CreateAnnotation(7, HighlightBody(1, "", None, None, None)))), None, 0);
            && created.Done? && created.result.Applied?
            && var entity := created.result.entity;
               var won := Commit(created.db, created.db, Request(1, 101, Payload(10, 1, UpdateAnnotation(entity, AnnotationTarget, 1, first))), None, 0);
               && won.Done? && won.result.Applied?
               && var lost := Commit(created.db, won.db, Request(1, 102, Payload(10, 1, UpdateAnnotation(entity, AnnotationTarget, 1, second))), None, 0);
                  && lost.Done? && lost.result.Conflict? && lost.result.copy.None?
                  && (forall id :: id in lost.db.highlights.rows ==> lost.db.highlights.rows[id].body != second)
                  && forall id :: id in lost.db.copies ==> lost.db.copies[id].body != second
  {
    var empty := Db(0, map[], map[], Table(map[], map[]), Table(map[], map[]), map[], map[]);
    var first, second := HighlightBody(1, "first", None, None, None), HighlightBody(1, "second", None, None, None);
    var plain := HighlightBody(1, "", None, None, None);
    assert first.text[0] != second.text[0];
    var created := Transaction(empty, Request(1, 100, Payload(10, 1, CreateAnnotation(7, plain))), None, 0);
    assert created.db.highlights == Table(map[1 := Row(1, 10, Some(7), plain, Some(1), 1, None)], map[(1, 7) := 1]);
    var won := Commit(created.db, created.db, Request(1, 101, Payload(10, 1, UpdateAnnotation(1, AnnotationTarget, 1, first))), None, 0);
    assert won.db.highlights.rows == map[1 := Row(1, 10, Some(7), first, Some(1), 2, None)];
    assert (1, 102) !in won.db.receipts && won.db.copies == map[];
  }

  // Read and written in one state no race can be lost, so no accepted annotation update loses its edit.
  lemma UpdateKeepsEdit(db: Db, request: Request, pageCount: Option<nat>, now: Time)
    requires Inv(db)
    requires request.payload.action.UpdateAnnotation? && request.payload.action.target.AnnotationTarget?
    requires Transaction(db, request, pageCount, now).Done? && Transaction(db, request, pageCount, now).result.Receipted()
    ensures var Done(after, result) := Transaction(db, request, pageCount, now);
            var UpdateAnnotation(entity, _, base, body) := request.payload.action;
            || (result.Applied? && EditInRow(db, after, entity, body))
            || (result.Conflict? && exists reason :: EditInNewCopy(db, after, request, entity, reason, body))
  {
    EvolvesReflexive(db);
    UpdateKeepsEditUnlessRaced(db, db, request, pageCount, now);
    hide Inv, Evolves;
  }

  // A retarget of a conflict copy keeps the edit at both grains: in the copy it named, or in a new one
  // that points at the same source.
  lemma RetargetKeepsEdit(seen: Db, db: Db, request: Request, pageCount: Option<nat>, now: Time)
    requires Inv(db) && Evolves(seen, db)
    requires request.payload.action.UpdateAnnotation? && request.payload.action.target.CopyTarget?
    requires Commit(seen, db, request, pageCount, now).Done?
    requires Commit(seen, db, request, pageCount, now).result.Receipted()
    ensures var Done(after, result) := Commit(seen, db, request, pageCount, now);
            var UpdateAnnotation(entity, _, base, body) := request.payload.action;
            && entity in db.copies && entity in seen.copies
            && (result.Applied? <==> seen.copies[entity].revision == base && db.copies[entity].revision == base)
            && (result.Applied? ==> EditInTargetCopy(db, after, entity, body) && result.revision == base + 1)
            && (result.Conflict? ==> result.copy.Some?
                                     && EditInNewCopy(db, after, request, db.copies[entity].source, StaleRevision, body))
  {
    var entity := request.payload.action.entity;
    NewIdUnused(db, db.nextId + 1);
    assert CopyEvolves(seen.copies[entity], db.copies[entity]);
    hide Inv, Evolves;
    var after := Commit(seen, db, request, pageCount, now).db;
    assert db.nextId + 1 !in db.copies;
  }

  // ── Deletion ──

  // An applied delete leaves the row deleted at the revision it reports, with a tombstone at that revision.
  ghost predicate DeletedAt<Body>(t: Table<Body>, db: Db, user: Id, entity: Id, revision: nat) {
    && entity in t.rows && t.rows[entity].deletedAt.Some? && t.rows[entity].revision == revision
    && (user, entity) in db.tombstones && db.tombstones[(user, entity)].revision == revision
  }

  lemma RecordedAt<Body>(t: Table<Body>, db: Db, kind: EntityKind, id: Id, revision: nat)
    requires DeletionsRecorded(t, db.tombstones, kind)
    requires id in t.rows && t.rows[id].deletedAt.Some? && t.rows[id].revision == revision
    ensures DeletedAt(t, db, t.rows[id].user, id, revision)
  {
  }

  // What an applied delete does to its row.
  ghost predicate GoneAt<Body>(t: Table<Body>, entity: Id, user: Id, revision: nat) {
    entity in t.rows && t.rows[entity].user == user && t.rows[entity].deletedAt.Some? && t.rows[entity].revision == revision
  }

  lemma RemovedRow(seen: Db, db: Db, request: Request, pageCount: Option<nat>, now: Time)
    requires request.payload.action.RemoveBookmark?
    requires var entity := request.payload.action.entity;
             entity in seen.bookmarks.rows ==>
               entity in db.bookmarks.rows && RowEvolves(seen.bookmarks.rows[entity], db.bookmarks.rows[entity])
    requires Commit(seen, db, request, pageCount, now).Done? && Commit(seen, db, request, pageCount, now).result.Applied?
    ensures var Done(after, result) := Commit(seen, db, request, pageCount, now);
            result.entity == request.payload.action.entity && GoneAt(after.bookmarks, result.entity, request.subject, result.revision)
  {
    hide BookmarkView;
  }

  lemma RemovedAnnotationRow(seen: Db, db: Db, request: Request, pageCount: Option<nat>, now: Time)
    requires request.payload.action.DeleteAnnotation?
    requires var entity := request.payload.action.entity;
             entity in seen.highlights.rows ==>
               entity in db.highlights.rows && RowEvolves(seen.highlights.rows[entity], db.highlights.rows[entity])
    requires Commit(seen, db, request, pageCount, now).Done? && Commit(seen, db, request, pageCount, now).result.Applied?
    ensures var Done(after, result) := Commit(seen, db, request, pageCount, now);
            result.entity == request.payload.action.entity && GoneAt(after.highlights, result.entity, request.subject, result.revision)
  {
    hide HighlightView, NewCopy;
  }

  lemma RemoveBookmarkMeaning(seen: Db, db: Db, request: Request, pageCount: Option<nat>, now: Time)
    requires Inv(seen) && Inv(db) && Evolves(seen, db) && request.payload.action.RemoveBookmark?
    requires Commit(seen, db, request, pageCount, now).Done? && Commit(seen, db, request, pageCount, now).result.Applied?
    ensures var Done(after, result) := Commit(seen, db, request, pageCount, now);
            && result.entity == request.payload.action.entity
            && DeletedAt(after.bookmarks, after, request.subject, result.entity, result.revision)
  {
    hide Commit, TableOk, DeletionsRecorded, DeletedIn, ReceiptsOk;
    var Done(after, result) := Commit(seen, db, request, pageCount, now);
    RemovedRow(seen, db, request, pageCount, now);
    CommitSafe(seen, db, request, pageCount, now);
    RecordedAt(after.bookmarks, after, BookmarkKind, result.entity, result.revision);
  }

  lemma DeleteAnnotationMeaning(seen: Db, db: Db, request: Request, pageCount: Option<nat>, now: Time)
    requires Inv(seen) && Inv(db) && Evolves(seen, db) && request.payload.action.DeleteAnnotation?
    requires Commit(seen, db, request, pageCount, now).Done? && Commit(seen, db, request, pageCount, now).result.Applied?
    ensures var Done(after, result) := Commit(seen, db, request, pageCount, now);
            && result.entity == request.payload.action.entity
            && DeletedAt(after.highlights, after, request.subject, result.entity, result.revision)
  {
    hide Commit, TableOk, DeletionsRecorded, DeletedIn, ReceiptsOk;
    var Done(after, result) := Commit(seen, db, request, pageCount, now);
    RemovedAnnotationRow(seen, db, request, pageCount, now);
    CommitSafe(seen, db, request, pageCount, now);
    RecordedAt(after.highlights, after, AnnotationKind, result.entity, result.revision);
  }

  // Alone, a delete is refused, applied or in conflict exactly by the row's presence, deletion and revision;
  // a stale delete of an annotation keeps the newer edit in the row and records it in a conflict copy.
  ghost predicate DeleteOutcome<Body>(existing: Option<(Id, Row<Body>)>, base: nat, result: Result) {
    match existing
    case None => result.AccessDenied?
    case Some((_, row)) => if row.deletedAt.Some? || row.revision == base then result.Applied? else result.Conflict?
  }

  lemma DeleteDecidedByRow(db: Db, request: Request, pageCount: Option<nat>, now: Time)
    requires Inv(db) && Transaction(db, request, pageCount, now).Done?
    requires request.payload.action.RemoveBookmark? || request.payload.action.DeleteAnnotation?
    ensures var Done(after, result) := Transaction(db, request, pageCount, now);
            var Request(user, operation, Payload(book, version, action)) := request;
            if action.RemoveBookmark? then DeleteOutcome(FindRow(db.bookmarks, action.entity, user, book), action.base, result)
            else
              && DeleteOutcome(FindRow(db.highlights, action.entity, user, book), action.base, result)
              && (result.Conflict? ==>
                    EditInNewCopy(db, after, request, action.entity, DeleteVsEdit, db.highlights.rows[action.entity].body))
  {
    NewIdUnused(db, db.nextId + 1);
    hide Inv, BookmarkView, HighlightView;
    var Done(after, result) := Transaction(db, request, pageCount, now);
    if request.payload.action.DeleteAnnotation? && result.Conflict? {
      var (id, copy) := result.copy.value;
      assert after.copies == db.copies[id := copy];
    }
  }

  // ACCESS_DENIED from a handler means the named row was not there for this account and book, and nothing changed.
  lemma DeniedExactlyWhenAbsent(seen: Db, db: Db, request: Request, pageCount: Option<nat>, now: Time)
    requires Commit(seen, db, request, pageCount, now).Done?
    ensures var Done(after, result) := Commit(seen, db, request, pageCount, now);
            var Request(user, _, Payload(book, _, action)) := request;
            && (result.AccessDenied? <==>
                  match action
                  case SetProgress(_, _, _) => false
                  case AddBookmark(_, _) => false
                  case CreateAnnotation(_, _) => false
                  case RemoveBookmark(entity, _) => FindRow(seen.bookmarks, entity, user, book).None?
                  case DeleteAnnotation(entity, _) => FindRow(seen.highlights, entity, user, book).None?
                  case UpdateAnnotation(entity, target, _, _) =>
                    if target.CopyTarget? then FindCopy(seen, entity, user, book).None?
                    else FindRow(seen.highlights, entity, user, book).None?)
            && (result.AccessDenied? ==> after == db && result.resource == action.entity)
            && !result.IncompatibleVersion?
  {
    hide FindRow, FindCopy, FindByClient, FindProgress, Put, Insert, BookmarkView, HighlightView, ProgressView, Guarded;
  }

  // Once deleted, for ever deleted at the same revision and with the same tombstone, and the client id can
  // never name a second row.
  ghost predicate StaysDeleted<Body>(t: Table<Body>, past: Db, u: Table<Body>, now: Db, id: Id)
    requires id in t.rows
  {
    var row := t.rows[id];
    && id in u.rows && u.rows[id] == row
    && (row.user, id) in past.tombstones && (row.user, id) in now.tombstones
    && now.tombstones[(row.user, id)] == past.tombstones[(row.user, id)]
    && now.tombstones[(row.user, id)].revision == row.revision
    && (row.client.Some? ==> forall other :: other in u.rows && u.rows[other].user == row.user && u.rows[other].client == row.client ==> other == id)
  }

  lemma DeletedRowStays<Body>(t: Table<Body>, past: Db, u: Table<Body>, now: Db, kind: EntityKind, id: Id)
    requires TableEvolves(t, u) && TableOk(u, now.nextId)
    requires DeletionsRecorded(t, past.tombstones, kind) && DeletionsRecorded(u, now.tombstones, kind)
    requires id in t.rows && t.rows[id].deletedAt.Some?
    ensures StaysDeleted(t, past, u, now, id)
  {
    assert RowEvolves(t.rows[id], u.rows[id]);
  }

  // No resurrection: take any state `past` in which the row was deleted and any later state `db`. Whatever
  // operation commits next, including one that read its row before the delete, the row stays as it was.
  lemma NoResurrection(past: Db, seen: Db, db: Db, request: Request, pageCount: Option<nat>, now: Time, id: Id)
    requires Inv(past) && Inv(seen) && Inv(db) && Evolves(past, db) && Evolves(seen, db)
    requires Commit(seen, db, request, pageCount, now).Done?
    ensures var after := Commit(seen, db, request, pageCount, now).db;
            && (id in past.bookmarks.rows && past.bookmarks.rows[id].deletedAt.Some? ==>
                  StaysDeleted(past.bookmarks, past, after.bookmarks, after, id))
            && (id in past.highlights.rows && past.highlights.rows[id].deletedAt.Some? ==>
                  StaysDeleted(past.highlights, past, after.highlights, after, id))
  {
    CommitSafe(seen, db, request, pageCount, now);
    var after := Commit(seen, db, request, pageCount, now).db;
    EvolvesTransitive(past, db, after);
    hide Commit, TableOk, TableEvolves, DeletionsRecorded, DeletedIn, ReceiptsOk, StaysDeleted;
    if id in past.bookmarks.rows && past.bookmarks.rows[id].deletedAt.Some? {
      DeletedRowStays(past.bookmarks, past, after.bookmarks, after, BookmarkKind, id);
    }
    if id in past.highlights.rows && past.highlights.rows[id].deletedAt.Some? {
      DeletedRowStays(past.highlights, past, after.highlights, after, AnnotationKind, id);
    }
  }

  // ── Creation ──

  // What an atomic add does, told by the row that already carries the client id, if any.
  ghost predicate AddOutcome<Body>(before: Table<Body>, after: Table<Body>, existing: Option<(Id, Row<Body>)>, newId: Id,
                                   row: Row<Body>, result: Result) {
    match existing
    case None =>
      && newId !in before.rows && after.rows == before.rows[newId := row]
      && result.Applied? && result.entity == newId && result.revision == row.revision
    case Some((id, kept)) =>
      && after == before
      && (if kept.deletedAt.None? && kept.body == row.body
          then result.Applied? && result.entity == id && result.revision == kept.revision
          else result.Conflict? && result.entity == id && result.serverRevision == kept.revision && result.copy.None?)
  }

  lemma AddBookmarkMeaning(db: Db, request: Request, pageCount: Option<nat>, now: Time)
    requires Inv(db) && Transaction(db, request, pageCount, now).Done? && request.payload.action.AddBookmark?
    ensures var Done(after, result) := Transaction(db, request, pageCount, now);
            var Request(user, _, Payload(book, version, AddBookmark(client, body))) := request;
            && after.(receipts := db.receipts, nextId := db.nextId, bookmarks := db.bookmarks) == db
            && AddOutcome(db.bookmarks, after.bookmarks, FindByClient(db.bookmarks, user, client), db.nextId + 1,
                          Row(user, book, Some(client), body, Some(version), 1, None), result)
  {
    hide Inv, FindByClient, BookmarkView;
    NewIdUnused(db, db.nextId + 1);
  }

  lemma CreateAnnotationMeaning(db: Db, request: Request, pageCount: Option<nat>, now: Time)
    requires Inv(db) && Transaction(db, request, pageCount, now).Done? && request.payload.action.CreateAnnotation?
    ensures var Done(after, result) := Transaction(db, request, pageCount, now);
            var Request(user, _, Payload(book, version, CreateAnnotation(client, body))) := request;
            && after.(receipts := db.receipts, nextId := db.nextId, highlights := db.highlights) == db
            && AddOutcome(db.highlights, after.highlights, FindByClient(db.highlights, user, client), db.nextId + 1,
                          Row(user, book, Some(client), body, Some(version), 1, None), result)
  {
    hide Inv, FindByClient, HighlightView;
    NewIdUnused(db, db.nextId + 1);
  }

  // What the row an applied add names looks like, told by the row `existing` that its read found under the client id and by
  // the table `before` its commit: it is in the book of the request exactly when the client id was not used for a row of
  // another book, it is live exactly when nobody deleted it since the read, and it is as sent and at the revision
  // reported exactly when it has not moved on since the read.
  ghost predicate NamesRow<Body>(before: Table<Body>, after: Table<Body>, existing: Option<(Id, Row<Body>)>, request: Request,
                                 client: Id, body: Body, result: Result)
    requires result.Applied?
  {
    && (existing.Some? ==> after == before && result.entity == existing.value.0)
    && result.entity in after.rows
    && var row := after.rows[result.entity];
       && row.user == request.subject && row.client == Some(client)
       && (row.book == request.payload.book <==> existing.None? || existing.value.1.book == request.payload.book)
       && (row.deletedAt.None? <==> existing.None? || before.rows[result.entity].deletedAt.None?)
       && (row.deletedAt.None? && row.body == body && row.revision == result.revision <==>
             existing.None? || before.rows[result.entity].revision == existing.value.1.revision)
  }

  lemma FoundRowEvolves<Body>(seen: Table<Body>, t: Table<Body>, nextId: Id, user: Id, client: Id)
    requires TableOk(seen, nextId) && TableEvolves(seen, t)
    ensures var existing := FindByClient(seen, user, client);
            existing.Some? ==>
              && existing.value.0 in t.rows && RowEvolves(existing.value.1, t.rows[existing.value.0])
              && existing.value.1.user == user && existing.value.1.client == Some(client)
  {
  }

  lemma AppliedAddNamesRow(seen: Db, db: Db, request: Request, pageCount: Option<nat>, now: Time)
    requires Inv(seen) && Inv(db) && Evolves(seen, db) && request.payload.action.AddBookmark?
    requires Commit(seen, db, request, pageCount, now).Done? && Commit(seen, db, request, pageCount, now).result.Applied?
    ensures var Done(after, result) := Commit(seen, db, request, pageCount, now);
            var AddBookmark(client, body) := request.payload.action;
            NamesRow(db.bookmarks, after.bookmarks, FindByClient(seen.bookmarks, request.subject, client), request, client, body, result)
  {
    hide TableOk, TableEvolves, DeletionsRecorded, DeletedIn, ReceiptsOk, FindByClient, BookmarkView;
    FoundRowEvolves(seen.bookmarks, db.bookmarks, seen.nextId, request.subject, request.payload.action.client);
  }

  lemma AppliedCreateNamesRow(seen: Db, db: Db, request: Request, pageCount: Option<nat>, now: Time)
    requires Inv(seen) && Inv(db) && Evolves(seen, db) && request.payload.action.CreateAnnotation?
    requires Commit(seen, db, request, pageCount, now).Done? && Commit(seen, db, request, pageCount, now).result.Applied?
    ensures var Done(after, result) := Commit(seen, db, request, pageCount, now);
            var CreateAnnotation(client, body) := request.payload.action;
            NamesRow(db.highlights, after.highlights, FindByClient(seen.highlights, request.subject, client), request, client, body, result)
  {
    hide TableOk, TableEvolves, DeletionsRecorded, DeletedIn, ReceiptsOk, FindByClient, HighlightView;
    FoundRowEvolves(seen.highlights, db.highlights, seen.nextId, request.subject, request.payload.action.client);
  }

  // Read and written in one state, the row an applied add names is live, the caller's and as sent; it is in the book of
  // the request exactly when the client id was not already used for a row of another book.
  lemma AppliedAddIsLiveHereUnlessReused(db: Db, request: Request, pageCount: Option<nat>, now: Time)
    requires Inv(db) && (request.payload.action.AddBookmark? || request.payload.action.CreateAnnotation?)
    requires Transaction(db, request, pageCount, now).Done? && Transaction(db, request, pageCount, now).result.Applied?
    ensures var Done(after, result) := Transaction(db, request, pageCount, now);
            var Request(user, _, Payload(book, _, action)) := request;
            if action.AddBookmark? then
              LiveHereUnlessReused(after.bookmarks, FindByClient(db.bookmarks, user, action.client), user, book, action.client, action.bookmark, result)
            else
              LiveHereUnlessReused(after.highlights, FindByClient(db.highlights, user, action.client), user, book, action.client, action.body, result)
  {
    hide Commit, DeletionsRecorded, DeletedIn, ReceiptsOk;
    EvolvesReflexive(db);
    if request.payload.action.AddBookmark? {
      AppliedAddNamesRow(db, db, request, pageCount, now);
    } else {
      AppliedCreateNamesRow(db, db, request, pageCount, now);
    }
  }

  ghost predicate LiveHereUnlessReused<Body>(after: Table<Body>, existing: Option<(Id, Row<Body>)>, user: Id, book: Id,
                                             client: Id, body: Body, result: Result)
    requires result.Applied?
  {
    && result.entity in after.rows
    && var row := after.rows[result.entity];
       && row.user == user && row.client == Some(client) && row.body == body && row.deletedAt.None?
       && (row.book == book <==> existing.None? || existing.value.1.book == book)
  }

  // One client id sent for two books: the second add is applied although the second book has no row.
  lemma ReusedClientIdWitness()
    ensures var empty := Db(0, map[], map[], Table(map[], map[]), Table(map[], map[]), map[], map[]);
            var add := AddBookmark(7, BookmarkBody(1, None, None, None));
            var first := Transaction(empty, Request(1, 100, Payload(10, 1, add)), None, 0);
            var second := Transaction(first.db, Request(1, 101, Payload(20, 1, add)), None, 0);
            && first.Done? && second.Done? && second.result.Applied?
            && forall id :: id in second.db.bookmarks.rows ==> second.db.bookmarks.rows[id].book != 20
  {
    var empty := Db(0, map[], map[], Table(map[], map[]), Table(map[], map[]), map[], map[]);
    var add := AddBookmark(7, BookmarkBody(1, None, None, None));
    var first := Transaction(empty, Request(1, 100, Payload(10, 1, add)), None, 0);
    assert first.db.bookmarks.byClient[(1, 7)] == 1;
  }

  // An add that reads its row before another operation deletes it is applied and names a deleted row, without any client
  // id being reused.
  lemma StaleAddWitness()
    ensures var empty := Db(0, map[], map[], Table(map[], map[]), Table(map[], map[]), map[], map[]);
            var add := AddBookmark(7, BookmarkBody(1, None, None, None));
            var first := Transaction(empty, Request(1, 100, Payload(10, 1, add)), None, 0);
            && first.Done? && first.result.Applied?
            && var gone := Transaction(first.db, Request(1, 101, Payload(10, 1, RemoveBookmark(first.result.entity, 1))), None, 0);
               && gone.Done? && gone.result.Applied?
               && var stale := Commit(first.db, gone.db, Request(1, 102, Payload(10, 1, add)), None, 0);
                  && stale.Done? && stale.result.Applied? && stale.result.revision == 1
                  && stale.result.entity in stale.db.bookmarks.rows
                  && stale.db.bookmarks.rows[stale.result.entity].deletedAt.Some?
  {
    var empty := Db(0, map[], map[], Table(map[], map[]), Table(map[], map[]), map[], map[]);
    var add := AddBookmark(7, BookmarkBody(1, None, None, None));
    var first := Transaction(empty, Request(1, 100, Payload(10, 1, add)), None, 0);
    assert first.db.bookmarks == Table(map[1 := Row(1, 10, Some(7), add.bookmark, Some(1), 1, None)], map[(1, 7) := 1]);
    var gone := Transaction(first.db, Request(1, 101, Payload(10, 1, RemoveBookmark(1, 1))), None, 0);
    assert gone.db.bookmarks.rows[1].deletedAt == Some(0);
    assert (1, 102) !in gone.db.receipts;
  }

  // ── What a conflict reports ──

  // The conflict reports the row of `db`: its revision, its value and its identity.
  ghost predicate ReportsServer(db: Db, request: Request, result: Result)
    requires result.Conflict?
  {
    var Request(user, _, Payload(book, _, action)) := request;
    match result.server
    case ProgressValue(b, page, scrollY, revision, lastReadAt) =>
      && action.SetProgress? && result.entity == b == book && result.serverRevision == revision
      && (if (user, book) in db.progress then
            var p := db.progress[(user, book)];
            page == p.page && scrollY == p.scrollY && revision == p.revision && lastReadAt == p.lastReadAt
          else revision == 0 && page == 1 && scrollY.None?)
    case BookmarkValue(id, _) =>
      && id in db.bookmarks.rows && result.entity == id && db.bookmarks.rows[id].user == user
      && result.serverRevision == db.bookmarks.rows[id].revision && ShowsBookmark(result.server, id, db.bookmarks.rows[id])
    case HighlightValue(id, _) =>
      && id in db.highlights.rows && result.entity == id && db.highlights.rows[id].user == user
      && result.serverRevision == db.highlights.rows[id].revision && ShowsHighlight(result.server, id, db.highlights.rows[id])
    case CopyValue(id, stored) =>
      && id in db.copies && result.entity == id && db.copies[id] == stored && stored.subject == user
      && result.serverRevision == stored.revision
  }

  // The request was made on the revision of the row as it was read, so that it can only be in conflict for having lost
  // the race between its read and its guarded write.
  predicate ReadAtBase(seen: Db, request: Request) {
    var Request(user, _, Payload(book, _, action)) := request;
    match action
    case SetProgress(base, _, _) => (user, book) in seen.progress && seen.progress[(user, book)].revision == base
    case AddBookmark(_, _) => false
    case CreateAnnotation(_, _) => false
    case RemoveBookmark(entity, base) =>
      entity in seen.bookmarks.rows && seen.bookmarks.rows[entity].deletedAt.None? && seen.bookmarks.rows[entity].revision == base
    case DeleteAnnotation(entity, base) =>
      entity in seen.highlights.rows && seen.highlights.rows[entity].deletedAt.None? && seen.highlights.rows[entity].revision == base
    case UpdateAnnotation(entity, target, base, _) =>
      if target.CopyTarget? then entity in seen.copies && seen.copies[entity].revision == base
      else entity in seen.highlights.rows && seen.highlights.rows[entity].deletedAt.None? && seen.highlights.rows[entity].revision == base
  }

  lemma AddConflictReports(seen: Db, db: Db, request: Request, pageCount: Option<nat>, now: Time)
    requires Inv(seen) && (request.payload.action.AddBookmark? || request.payload.action.CreateAnnotation?)
    requires Commit(seen, db, request, pageCount, now).Done? && Commit(seen, db, request, pageCount, now).result.Conflict?
    ensures ReportsServer(seen, request, Commit(seen, db, request, pageCount, now).result)
  {
    if request.payload.action.AddBookmark? {
      assert FindByClient(seen.bookmarks, request.subject, request.payload.action.client).Some?;
    } else {
      assert FindByClient(seen.highlights, request.subject, request.payload.action.client).Some?;
    }
    hide Inv;
  }

  lemma ProgressConflictReports(seen: Db, db: Db, request: Request, pageCount: Option<nat>, now: Time)
    requires Evolves(seen, db) && request.payload.action.SetProgress?
    requires Commit(seen, db, request, pageCount, now).Done? && Commit(seen, db, request, pageCount, now).result.Conflict?
    ensures ReportsServer(if ReadAtBase(seen, request) then db else seen, request, Commit(seen, db, request, pageCount, now).result)
  {
    var key := (request.subject, request.payload.book);
    assert key in seen.progress ==> key in db.progress && ProgressEvolves(seen.progress[key], db.progress[key]);
    hide Evolves, TableEvolves;
  }

  lemma RemovalConflictReports(seen: Db, db: Db, request: Request, pageCount: Option<nat>, now: Time)
    requires Evolves(seen, db) && request.payload.action.RemoveBookmark?
    requires Commit(seen, db, request, pageCount, now).Done? && Commit(seen, db, request, pageCount, now).result.Conflict?
    ensures ReportsServer(if ReadAtBase(seen, request) then db else seen, request, Commit(seen, db, request, pageCount, now).result)
  {
    var entity := request.payload.action.entity;
    assert entity in seen.bookmarks.rows ==>
        entity in db.bookmarks.rows && RowEvolves(seen.bookmarks.rows[entity], db.bookmarks.rows[entity]);
    hide Evolves, TableEvolves;
  }

  lemma DeletionConflictReports(seen: Db, db: Db, request: Request, pageCount: Option<nat>, now: Time)
    requires Evolves(seen, db) && request.payload.action.DeleteAnnotation?
    requires Commit(seen, db, request, pageCount, now).Done? && Commit(seen, db, request, pageCount, now).result.Conflict?
    ensures ReportsServer(if ReadAtBase(seen, request) then db else seen, request, Commit(seen, db, request, pageCount, now).result)
  {
    var entity := request.payload.action.entity;
    assert entity in seen.highlights.rows ==>
        entity in db.highlights.rows && RowEvolves(seen.highlights.rows[entity], db.highlights.rows[entity]);
    hide Evolves, TableEvolves, NewCopy;
  }

  lemma UpdateConflictReports(seen: Db, db: Db, request: Request, pageCount: Option<nat>, now: Time)
    requires Evolves(seen, db) && request.payload.action.UpdateAnnotation? && request.payload.action.target.AnnotationTarget?
    requires Commit(seen, db, request, pageCount, now).Done? && Commit(seen, db, request, pageCount, now).result.Conflict?
    ensures ReportsServer(if ReadAtBase(seen, request) then db else seen, request, Commit(seen, db, request, pageCount, now).result)
  {
    var entity := request.payload.action.entity;
    assert entity in seen.highlights.rows ==>
        entity in db.highlights.rows && RowEvolves(seen.highlights.rows[entity], db.highlights.rows[entity]);
    hide Evolves, TableEvolves, NewCopy;
  }

  lemma RetargetConflictReports(seen: Db, db: Db, request: Request, pageCount: Option<nat>, now: Time)
    requires Evolves(seen, db) && request.payload.action.UpdateAnnotation? && request.payload.action.target.CopyTarget?
    requires Commit(seen, db, request, pageCount, now).Done? && Commit(seen, db, request, pageCount, now).result.Conflict?
    ensures ReportsServer(if ReadAtBase(seen, request) then db else seen, request, Commit(seen, db, request, pageCount, now).result)
  {
    var entity := request.payload.action.entity;
    assert entity in seen.copies ==> entity in db.copies && CopyEvolves(seen.copies[entity], db.copies[entity]);
    hide Evolves, TableEvolves, NewCopy;
  }

  // A conflict reports the row as it was read, and when the race was lost the row as it stands at the write.
  lemma ConflictReportsRow(seen: Db, db: Db, request: Request, pageCount: Option<nat>, now: Time)
    requires Inv(seen) && Evolves(seen, db)
    requires Commit(seen, db, request, pageCount, now).Done? && Commit(seen, db, request, pageCount, now).result.Conflict?
    ensures ReportsServer(if ReadAtBase(seen, request) then db else seen, request, Commit(seen, db, request, pageCount, now).result)
  {
    hide Inv, Evolves, Commit, ReportsServer;
    match request.payload.action
    case SetProgress(_, _, _) => ProgressConflictReports(seen, db, request, pageCount, now);
    case RemoveBookmark(_, _) => RemovalConflictReports(seen, db, request, pageCount, now);
    case DeleteAnnotation(_, _) => DeletionConflictReports(seen, db, request, pageCount, now);
    case UpdateAnnotation(_, target, _, _) =>
      if target.CopyTarget? {
        RetargetConflictReports(seen, db, request, pageCount, now);
      } else {
        UpdateConflictReports(seen, db, request, pageCount, now);
      }
    case _ => AddConflictReports(seen, db, request, pageCount, now);
  }

  // Alone, a conflict reports the row as it stands.
  lemma ConflictReportsCurrentRow(db: Db, request: Request, pageCount: Option<nat>, now: Time)
    requires Inv(db) && Transaction(db, request, pageCount, now).Done?
    requires Transaction(db, request, pageCount, now).result.Conflict?
    ensures ReportsServer(db, request, Transaction(db, request, pageCount, now).result)
  {
    EvolvesReflexive(db);
    ConflictReportsRow(db, db, request, pageCount, now);
    hide Inv, Evolves, Commit;
  }
}
