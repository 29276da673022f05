// When each operation is applied, in conflict or refused, and exactly which rows it changes, told by the rows as they were
// read (`seen`) and as they are when it writes (`db`).
module ReaderDecisions {
  import opened Prelude
  import opened ReaderModel
  import opened ReaderInvariants

  // The same but for receipts and the counter of ids.
  predicate SameTables(a: Db, b: Db) {
    && a.progress == b.progress && a.bookmarks == b.bookmarks && a.highlights == b.highlights
    && a.tombstones == b.tombstones && a.copies == b.copies
  }

  predicate Owned<Body>(t: Table<Body>, id: Id, user: Id, book: Id) {
    id in t.rows && t.rows[id].user == user && t.rows[id].book == book
  }

  predicate LiveAt<Body>(t: Table<Body>, id: Id, base: nat) {
    id in t.rows && t.rows[id].deletedAt == None && t.rows[id].revision == base
  }

  // An operation that is applied or in conflict leaves its receipt under its unused key, with what was sent and what was
  // answered; any other leaves every table as it was.
  lemma ReceiptIsKept(seen: Db, db: Db, request: Request, pageCount: Option<nat>, now: Time)
    requires Commit(seen, db, request, pageCount, now).Done?
    ensures var Done(after, result) := Commit(seen, db, request, pageCount, now);
            var key := (request.subject, request.operation);
            if result.Applied? || result.Conflict? then
              && key !in db.receipts && after.receipts == db.receipts[key := Receipt(db.nextId, request.payload, result)]
              && after.nextId == db.nextId + 2
              && (result.Applied? ==> result.receipt == db.nextId)
            else after == db
  {
    hide FindRow, FindByClient, FindProgress, FindCopy, Guarded, Put, Insert, BookmarkView, HighlightView, ProgressView, NewCopy;
  }

  lemma RowsLater(seen: Db, db: Db, id: Id)
    requires Evolves(seen, db)
    ensures id in seen.bookmarks.rows ==> id in db.bookmarks.rows && RowEvolves(seen.bookmarks.rows[id], db.bookmarks.rows[id])
    ensures id in seen.highlights.rows ==> id in db.highlights.rows && RowEvolves(seen.highlights.rows[id], db.highlights.rows[id])
    ensures id in seen.copies ==> id in db.copies && CopyEvolves(seen.copies[id], db.copies[id])
  {
  }

  lemma ProgressLater(seen: Db, db: Db, key: (Id, Id))
    requires Evolves(seen, db)
    ensures key in seen.progress ==> key in db.progress && ProgressEvolves(seen.progress[key], db.progress[key])
  {
  }

  // Under an unused key a commit is what the handler does, and a receipt.
  lemma CommitIsHandled(seen: Db, db: Db, request: Request, pageCount: Option<nat>, now: Time)
    requires request.Key() !in db.receipts
    ensures var handled, step := Handle(seen, db, ContextFor(db, request, pageCount, now)), Commit(seen, db, request, pageCount, now);
            && (step.UniqueViolation? <==> handled.UniqueViolation?)
            && (step.Done? ==> step.result == handled.result && SameTables(step.db, handled.db)
                               && (step.result.AccessDenied? ==> step.db == handled.db))
  {
    hide Handle;
  }

  // ── Progress ──

  // The revision of the progress row, 0 while there is none.
  function ProgressRevision(db: Db, user: Id, book: Id): nat {
    if (user, book) in db.progress then db.progress[(user, book)].revision else 0
  }

  // The row a progress write leaves. It keeps its id, and the time of completion while the page stays at or past the page
  // count; below it, or without a page count, there is none.
  function ProgressAfter(db: Db, user: Id, book: Id, page: nat, scrollY: Option<real>, pageCount: Option<nat>, now: Time): Progress {
    var row := if (user, book) in db.progress then Some(db.progress[(user, book)]) else None;
    Progress(if row.Some? then row.value.id else db.nextId + 1, page, scrollY, ProgressRevision(db, user, book) + 1, now,
             match pageCount
             case Some(n) => if page < n then None else if row.Some? && row.value.completedAt.Some? then row.value.completedAt else Some(now)
             case None => None)
  }

  // A progress write is applied exactly when its base is the revision both as read and as it stands at the write, and is
  // otherwise a conflict that changes no table. Only a first write that finds another first write is aborted.
  lemma ProgressDecided(seen: Db, db: Db, request: Request, pageCount: Option<nat>, now: Time)
    requires Evolves(seen, db) && request.payload.action.SetProgress? && request.Key() !in db.receipts
    ensures var Request(user, _, Payload(book, _, SetProgress(base, page, scrollY))) := request;
            var step := Commit(seen, db, request, pageCount, now);
            && (step.UniqueViolation? <==> base == 0 && (user, book) !in seen.progress && (user, book) in db.progress)
            && (step.Done? ==>
                  if base == ProgressRevision(seen, user, book) == ProgressRevision(db, user, book) then
                    var row := ProgressAfter(db, user, book, page, scrollY, pageCount, now);
                    && step.result == Applied(row.id, base + 1, db.nextId)
                    && SameTables(step.db, db.(progress := db.progress[(user, book) := row]))
                  else step.result.Conflict? && step.result.copy.None? && SameTables(step.db, db))
  {
    hide Inv, Evolves, Commit, ProgressView, EmptyProgressView;
    ProgressLater(seen, db, (request.subject, request.payload.book));
    CommitIsHandled(seen, db, request, pageCount, now);
  }

  // Alone: applied exactly when the base is the current revision.
  lemma ProgressDecidedAlone(db: Db, request: Request, pageCount: Option<nat>, now: Time)
    requires request.payload.action.SetProgress? && request.Key() !in db.receipts
    ensures var Request(user, _, Payload(book, _, SetProgress(base, page, scrollY))) := request;
            var step := Commit(db, db, request, pageCount, now);
            && step.Done?
            && (step.result.Applied? <==> base == ProgressRevision(db, user, book))
            && (step.result.Conflict? <==> base != ProgressRevision(db, user, book))
  {
    EvolvesReflexive(db);
    ProgressDecided(db, db, request, pageCount, now);
    hide Evolves, Commit;
  }

  // ── Highlights ──

  function CopyOf(request: Request, source: Id, reason: Reason, body: HighlightBody): Copy {
    Copy(request.subject, request.operation, source, request.payload.book, request.payload.contentVersion, body, 1, reason)
  }

  // The conflict names a copy that was not there before, and the copy is all that changes.
  ghost predicate AddsCopy(db: Db, step: Step, copy: Copy) {
    && step.Done? && step.result.Conflict? && step.result.copy == Some((db.nextId + 1, copy))
    && SameTables(step.db, db.(copies := db.copies[db.nextId + 1 := copy]))
  }

  // An update is refused exactly when its highlight was not there, and applied exactly when the highlight was live at the
  // base as it was read and still is at the write. A conflict keeps the edit in a new copy exactly when the highlight was
  // not live at the base as it was read.
  lemma UpdateDecided(seen: Db, db: Db, request: Request, pageCount: Option<nat>, now: Time)
    requires Evolves(seen, db) && request.Key() !in db.receipts
    requires request.payload.action.UpdateAnnotation? && request.payload.action.target.AnnotationTarget?
    ensures var Request(user, _, Payload(book, _, UpdateAnnotation(entity, _, base, body))) := request;
            var step := Commit(seen, db, request, pageCount, now);
            && step.Done?
            && (if !Owned(seen.highlights, entity, user, book) then step.result == AccessDenied(entity) && step.db == db
                else if !LiveAt(seen.highlights, entity, base) then
                  AddsCopy(db, step, CopyOf(request, entity, if seen.highlights.rows[entity].deletedAt.Some? then DeleteVsEdit else StaleRevision, body))
                else if LiveAt(db.highlights, entity, base) then
                  var rows := db.highlights.rows;
                  && step.result == Applied(entity, base + 1, db.nextId)
                  && SameTables(step.db, db.(highlights := Table(rows[entity := rows[entity].(body := body, revision := base + 1)], db.highlights.byClient)))
                else step.result.Conflict? && step.result.copy.None? && SameTables(step.db, db))
  {
    hide Inv, Evolves, HighlightView, Commit;
    RowsLater(seen, db, request.payload.action.entity);
    CommitIsHandled(seen, db, request, pageCount, now);
  }

  // An update of a conflict copy is applied exactly when the copy was and still is at the base, and otherwise keeps the
  // edit in a new copy for the same source.
  lemma RetargetDecided(seen: Db, db: Db, request: Request, pageCount: Option<nat>, now: Time)
    requires Evolves(seen, db) && request.Key() !in db.receipts
    requires request.payload.action.UpdateAnnotation? && request.payload.action.target.CopyTarget?
    ensures var Request(user, _, Payload(book, _, UpdateAnnotation(entity, _, base, body))) := request;
            var step := Commit(seen, db, request, pageCount, now);
            && step.Done?
            && (if !(entity in seen.copies && seen.copies[entity].subject == user && seen.copies[entity].book == book) then
                  step.result == AccessDenied(entity) && step.db == db
                else if seen.copies[entity].revision == base && entity in db.copies && db.copies[entity].revision == base then
                  && step.result == Applied(entity, base + 1, db.nextId)
                  && SameTables(step.db, db.(copies := db.copies[entity := db.copies[entity].(body := body, revision := base + 1)]))
                else AddsCopy(db, step, CopyOf(request, seen.copies[entity].source, StaleRevision, body)))
  {
    hide Inv, Evolves, Commit;
    RowsLater(seen, db, request.payload.action.entity);
    CommitIsHandled(seen, db, request, pageCount, now);
  }

  // ── Deletions ──

  // A deleted row: everything else of it stays.
  function Gone<Body>(row: Row<Body>, revision: nat, now: Time): Row<Body> {
    Row(row.user, row.book, row.client, row.body, row.contentVersion, revision, Some(now))
  }

  // The tables once the row is gone and its tombstone is in.
  function RemovalTables(db: Db, user: Id, entity: Id, revision: nat, now: Time): Db
    requires entity in db.bookmarks.rows
  {
    db.(bookmarks := Table(db.bookmarks.rows[entity := Gone(db.bookmarks.rows[entity], revision, now)], db.bookmarks.byClient),
        tombstones := db.tombstones[(user, entity) := Tombstone(BookmarkKind, revision, now)])
  }

  lemma RemovalHandled(seen: Db, db: Db, c: Context)
    requires c.request.payload.action.RemoveBookmark?
    requires var entity := c.request.payload.action.entity;
             entity in seen.bookmarks.rows ==>
               entity in db.bookmarks.rows && RowEvolves(seen.bookmarks.rows[entity], db.bookmarks.rows[entity])
    requires var entity := c.request.payload.action.entity;
             entity in db.bookmarks.rows && db.bookmarks.rows[entity].deletedAt.None? ==> (c.request.subject, entity) !in db.tombstones
    requires c.receipt == db.nextId && c.newId == db.nextId + 1
    ensures var Request(user, _, Payload(book, _, RemoveBookmark(entity, base))) := c.request;
            var step := Handle(seen, db, c);
            && step.Done?
            && (if !Owned(seen.bookmarks, entity, user, book) then step == Done(db, AccessDenied(entity))
                else if seen.bookmarks.rows[entity].deletedAt.Some? then
                  step == Done(db, Applied(entity, seen.bookmarks.rows[entity].revision, db.nextId))
                else if LiveAt(seen.bookmarks, entity, base) && LiveAt(db.bookmarks, entity, base) then
                  step == Done(RemovalTables(db, user, entity, base + 1, c.now), Applied(entity, base + 1, db.nextId))
                else step.db == db && step.result.Conflict? && step.result.copy.None?)
  {
    hide BookmarkView;
  }

  // A removal is refused exactly when its bookmark was not there, and applied exactly when the bookmark was deleted already
  // or was live at the base as it was read and still is at the write. Then the row and its tombstone are all that changes.
  lemma RemovalDecided(seen: Db, db: Db, request: Request, pageCount: Option<nat>, now: Time)
    requires Inv(db) && Evolves(seen, db) && request.Key() !in db.receipts && request.payload.action.RemoveBookmark?
    ensures var Request(user, _, Payload(book, _, RemoveBookmark(entity, base))) := request;
            var step := Commit(seen, db, request, pageCount, now);
            && step.Done?
            && (if !Owned(seen.bookmarks, entity, user, book) then step.result == AccessDenied(entity) && step.db == db
                else if seen.bookmarks.rows[entity].deletedAt.Some? then
                  step.result == Applied(entity, seen.bookmarks.rows[entity].revision, db.nextId) && SameTables(step.db, db)
                else if LiveAt(seen.bookmarks, entity, base) && LiveAt(db.bookmarks, entity, base) then
                  && step.result == Applied(entity, base + 1, db.nextId)
                  && SameTables(step.db, RemovalTables(db, user, entity, base + 1, now))
                else step.result.Conflict? && step.result.copy.None? && SameTables(step.db, db))
  {
    var Request(user, _, Payload(book, _, RemoveBookmark(entity, base))) := request;
    hide Inv, Evolves, RowEvolves, Commit, Handle, RemovalTables, Owned, LiveAt, SameTables;
    RowsLater(seen, db, entity);
    LiveHasNoTombstone(db, entity, user);
    RemovalHandled(seen, db, ContextFor(db, request, pageCount, now));
    CommitIsHandled(seen, db, request, pageCount, now);
  }

  lemma LiveHasNoTombstone(db: Db, entity: Id, user: Id)
    requires Inv(db)
    ensures entity in db.bookmarks.rows && db.bookmarks.rows[entity].deletedAt.None? ==> (user, entity) !in db.tombstones
    ensures entity in db.highlights.rows && db.highlights.rows[entity].deletedAt.None? ==> (user, entity) !in db.tombstones
  {
  }

  // The tables once the row is gone and its tombstone is in.
  function DeletionTables(db: Db, user: Id, entity: Id, revision: nat, now: Time): Db
    requires entity in db.highlights.rows
  {
    db.(highlights := Table(db.highlights.rows[entity := Gone(db.highlights.rows[entity], revision, now)], db.highlights.byClient),
        tombstones := db.tombstones[(user, entity) := Tombstone(AnnotationKind, revision, now)])
  }

  lemma DeletionHandled(seen: Db, db: Db, c: Context)
    requires c.request.payload.action.DeleteAnnotation?
    requires var entity := c.request.payload.action.entity;
             entity in seen.highlights.rows ==>
               entity in db.highlights.rows && RowEvolves(seen.highlights.rows[entity], db.highlights.rows[entity])
    requires var entity := c.request.payload.action.entity;
             entity in db.highlights.rows && db.highlights.rows[entity].deletedAt.None? ==> (c.request.subject, entity) !in db.tombstones
    requires c.receipt == db.nextId && c.newId == db.nextId + 1
    ensures var Request(user, _, Payload(book, _, DeleteAnnotation(entity, base))) := c.request;
            var step := Handle(seen, db, c);
            && step.Done?
            && (if !Owned(seen.highlights, entity, user, book) then step == Done(db, AccessDenied(entity))
                else if seen.highlights.rows[entity].deletedAt.Some? then
                  step == Done(db, Applied(entity, seen.highlights.rows[entity].revision, db.nextId))
                else if !LiveAt(seen.highlights, entity, base) then
                  AddsCopy(db, step, CopyOf(c.request, entity, DeleteVsEdit, seen.highlights.rows[entity].body))
                else if LiveAt(db.highlights, entity, base) then
                  step == Done(DeletionTables(db, user, entity, base + 1, c.now), Applied(entity, base + 1, db.nextId))
                else step.db == db && step.result.Conflict? && step.result.copy.None?)
  {
    hide HighlightView;
  }

  // The same for highlights, where a stale deletion also records the row as it was read in a new copy.
  lemma DeletionDecided(seen: Db, db: Db, request: Request, pageCount: Option<nat>, now: Time)
    requires Inv(db) && Evolves(seen, db) && request.Key() !in db.receipts && request.payload.action.DeleteAnnotation?
    ensures var Request(user, _, Payload(book, _, DeleteAnnotation(entity, base))) := request;
            var step := Commit(seen, db, request, pageCount, now);
            && step.Done?
            && (if !Owned(seen.highlights, entity, user, book) then step.result == AccessDenied(entity) && step.db == db
                else if seen.highlights.rows[entity].deletedAt.Some? then
                  step.result == Applied(entity, seen.highlights.rows[entity].revision, db.nextId) && SameTables(step.db, db)
                else if !LiveAt(seen.highlights, entity, base) then
                  AddsCopy(db, step, CopyOf(request, entity, DeleteVsEdit, seen.highlights.rows[entity].body))
                else if LiveAt(db.highlights, entity, base) then
                  && step.result == Applied(entity, base + 1, db.nextId)
                  && SameTables(step.db, DeletionTables(db, user, entity, base + 1, now))
                else step.result.Conflict? && step.result.copy.None? && SameTables(step.db, db))
  {
    var Request(user, _, Payload(book, _, DeleteAnnotation(entity, base))) := request;
    hide Inv, Evolves, RowEvolves, Commit, Handle, DeletionTables, Owned, LiveAt, SameTables;
    RowsLater(seen, db, entity);
    LiveHasNoTombstone(db, entity, user);
    DeletionHandled(seen, db, ContextFor(db, request, pageCount, now));
    CommitIsHandled(seen, db, request, pageCount, now);
  }

  // ── Creations ──

  // A row of the user with that client id.
  ghost predicate Uses<Body>(t: Table<Body>, id: Id, user: Id, client: Id) {
    id in t.rows && t.rows[id].user == user && t.rows[id].client == Some(client)
  }

  lemma FoundByClient<Body>(t: Table<Body>, nextId: Id, user: Id, client: Id)
    requires TableOk(t, nextId)
    ensures if (user, client) in t.byClient
            then && Uses(t, t.byClient[(user, client)], user, client)
                 && (forall id :: Uses(t, id, user, client) <==> id == t.byClient[(user, client)])
                 && FindByClient(t, user, client) == Some((t.byClient[(user, client)], t.rows[t.byClient[(user, client)]]))
            else (forall id :: !Uses(t, id, user, client)) && FindByClient(t, user, client).None?
  {
  }

  // What a creation comes to, by the row that was found under the client id when it read and by the table as it writes: a
  // new row exactly when there was and is none; the row found, exactly when it was live and is what was sent; otherwise a
  // conflict, except that a creation which finds another's new row is aborted.
  ghost predicate CreationDecided<Body>(seen: Table<Body>, before: Table<Body>, after: Table<Body>, nextId: Id, request: Request,
                                        client: Id, body: Body, step: Step) {
    var Request(user, _, Payload(book, version, _)) := request;
    if !exists id :: Uses(seen, id, user, client) then
      && (step.UniqueViolation? <==> exists id :: Uses(before, id, user, client))
      && (step.Done? ==>
            && step.result == Applied(nextId + 1, 1, nextId)
            && after == Table(before.rows[nextId + 1 := Row(user, book, Some(client), body, Some(version), 1, None)],
                              before.byClient[(user, client) := nextId + 1]))
    else
      && step.Done? && after == before
      && forall id :: Uses(seen, id, user, client) ==>
           if seen.rows[id].deletedAt.None? && seen.rows[id].body == body
           then step.result == Applied(id, seen.rows[id].revision, nextId)
           else step.result.Conflict? && step.result.copy.None?
  }

  lemma AddDecided(seen: Db, db: Db, request: Request, pageCount: Option<nat>, now: Time)
    requires Inv(seen) && Inv(db) && request.Key() !in db.receipts && request.payload.action.AddBookmark?
    ensures var step := Commit(seen, db, request, pageCount, now);
            var after := if step.Done? then step.db else db;
            && CreationDecided(seen.bookmarks, db.bookmarks, after.bookmarks, db.nextId, request,
                               request.payload.action.client, request.payload.action.bookmark, step)
            && SameTables(after, db.(bookmarks := after.bookmarks))
  {
    FoundByClient(seen.bookmarks, seen.nextId, request.subject, request.payload.action.client);
    FoundByClient(db.bookmarks, db.nextId, request.subject, request.payload.action.client);
    hide Inv, FindByClient, BookmarkView, Commit, Uses;
    CommitIsHandled(seen, db, request, pageCount, now);
  }

  lemma CreateDecided(seen: Db, db: Db, request: Request, pageCount: Option<nat>, now: Time)
    requires Inv(seen) && Inv(db) && request.Key() !in db.receipts && request.payload.action.CreateAnnotation?
    ensures var step := Commit(seen, db, request, pageCount, now);
            var after := if step.Done? then step.db else db;
            && CreationDecided(seen.highlights, db.highlights, after.highlights, db.nextId, request,
                               request.payload.action.client, request.payload.action.body, step)
            && SameTables(after, db.(highlights := after.highlights))
  {
    FoundByClient(seen.highlights, seen.nextId, request.subject, request.payload.action.client);
    FoundByClient(db.highlights, db.nextId, request.subject, request.payload.action.client);
    hide Inv, FindByClient, HighlightView, Commit, Uses;
    CommitIsHandled(seen, db, request, pageCount, now);
  }
}
