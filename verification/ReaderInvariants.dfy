// What every reader operation keeps, whatever committed between its read and its write.
module ReaderInvariants {
  import opened Prelude
  import opened ReaderModel

  // ── The invariant ──

  ghost predicate TableOk<Body>(t: Table<Body>, nextId: Id) {
    && (forall id :: id in t.rows ==> id < nextId && 1 <= t.rows[id].revision)
    && (forall id :: id in t.rows && t.rows[id].client.Some? ==>
          && (t.rows[id].user, t.rows[id].client.value) in t.byClient
          && t.byClient[(t.rows[id].user, t.rows[id].client.value)] == id)
    && (forall k :: k in t.byClient ==>
          && t.byClient[k] in t.rows
          && t.rows[t.byClient[k]].user == k.0 && t.rows[t.byClient[k]].client == Some(k.1))
  }

  // A row and its tombstone tell the same story: deleted rows have one, at exactly their revision.
  ghost predicate DeletionsRecorded<Body>(t: Table<Body>, tombstones: map<(Id, Id), Tombstone>, kind: EntityKind) {
    forall id :: id in t.rows ==>
      var row := t.rows[id];
      if row.deletedAt.None? then forall user :: (user, id) !in tombstones
      else
        && (row.user, id) in tombstones
        && tombstones[(row.user, id)] == Tombstone(kind, row.revision, row.deletedAt.value)
  }

  ghost predicate DeletedIn<Body>(t: Table<Body>, key: (Id, Id)) {
    key.1 in t.rows && t.rows[key.1].user == key.0 && t.rows[key.1].deletedAt.Some?
  }

  ghost predicate ReceiptsOk(receipts: map<(Id, Id), Receipt>) {
    forall k :: k in receipts ==>
      && receipts[k].result.Receipted()
      && (receipts[k].result.Applied? ==> receipts[k].result.receipt == receipts[k].id)
  }

  ghost predicate Inv(db: Db) {
    && TableOk(db.bookmarks, db.nextId)
    && TableOk(db.highlights, db.nextId)
    && db.bookmarks.rows.Keys !! db.highlights.rows.Keys
    && DeletionsRecorded(db.bookmarks, db.tombstones, BookmarkKind)
    && DeletionsRecorded(db.highlights, db.tombstones, AnnotationKind)
    && (forall k :: k in db.tombstones ==> DeletedIn(db.bookmarks, k) || DeletedIn(db.highlights, k))
    && (forall id :: id in db.copies ==> id < db.nextId && 1 <= db.copies[id].revision)
    && ReceiptsOk(db.receipts)
  }

  // ── What replies show of a row ──

  // All of its fields; a row from before content versions counts as version 1.
  predicate ShowsRow<Body(==)>(shown: Row<Body>, row: Row<Body>) {
    && shown.user == row.user && shown.book == row.book && shown.client == row.client && shown.body == row.body
    && shown.revision == row.revision && shown.deletedAt == row.deletedAt
    && shown.contentVersion == Some(match row.contentVersion case Some(version) => version case None => 1)
  }

  predicate ShowsBookmark(value: ServerValue, id: Id, row: Row<BookmarkBody>) {
    value.BookmarkValue? && value.bookmarkId == id && ShowsRow(value.bookmark, row)
  }

  predicate ShowsHighlight(value: ServerValue, id: Id, row: Row<HighlightBody>) {
    value.HighlightValue? && value.highlightId == id && ShowsRow(value.highlight, row)
  }

  // ── How tables may change over time ──

  // Identity is fixed, every change raises the revision, and a deleted row never changes again.
  ghost predicate RowEvolves<Body>(r: Row<Body>, s: Row<Body>) {
    && s.user == r.user && s.book == r.book && s.client == r.client && s.contentVersion == r.contentVersion
    && r.revision <= s.revision
    && (r.revision == s.revision ==> s == r)
    && (r.deletedAt.Some? ==> s == r)
  }

  ghost predicate TableEvolves<Body>(t: Table<Body>, u: Table<Body>) {
    && (forall id :: id in t.rows ==> id in u.rows && RowEvolves(t.rows[id], u.rows[id]))
    && (forall k :: k in t.byClient ==> k in u.byClient && u.byClient[k] == t.byClient[k])
  }

  ghost predicate CopyEvolves(c: Copy, d: Copy) {
    && d == c.(body := d.body, revision := d.revision)
    && c.revision <= d.revision
    && (c.revision == d.revision ==> d == c)
  }

  ghost predicate ProgressEvolves(p: Progress, q: Progress) {
    && q.id == p.id
    && p.revision <= q.revision
    && (p.revision == q.revision ==> q == p)
  }

  ghost predicate Evolves(a: Db, b: Db) {
    && a.nextId <= b.nextId
    && (forall k :: k in a.receipts ==> k in b.receipts && b.receipts[k] == a.receipts[k])
    && (forall k :: k in a.progress ==> k in b.progress && ProgressEvolves(a.progress[k], b.progress[k]))
    && TableEvolves(a.bookmarks, b.bookmarks)
    && TableEvolves(a.highlights, b.highlights)
    && (forall k :: k in a.tombstones ==> k in b.tombstones && b.tombstones[k] == a.tombstones[k])
    && (forall id :: id in a.copies ==> id in b.copies && CopyEvolves(a.copies[id], b.copies[id]))
  }

  lemma TableEvolvesTransitive<Body>(t: Table<Body>, u: Table<Body>, v: Table<Body>)
    requires TableEvolves(t, u) && TableEvolves(u, v)
    ensures TableEvolves(t, v)
  {
    forall id | id in t.rows ensures id in v.rows && RowEvolves(t.rows[id], v.rows[id]) {
      assert RowEvolves(t.rows[id], u.rows[id]) && RowEvolves(u.rows[id], v.rows[id]);
    }
  }

  lemma EvolvesTransitive(a: Db, b: Db, c: Db)
    requires Evolves(a, b) && Evolves(b, c)
    ensures Evolves(a, c)
  {
    TableEvolvesTransitive(a.bookmarks, b.bookmarks, c.bookmarks);
    TableEvolvesTransitive(a.highlights, b.highlights, c.highlights);
    forall k | k in a.progress ensures k in c.progress && ProgressEvolves(a.progress[k], c.progress[k]) {
      assert ProgressEvolves(a.progress[k], b.progress[k]) && ProgressEvolves(b.progress[k], c.progress[k]);
    }
    forall id | id in a.copies ensures id in c.copies && CopyEvolves(a.copies[id], c.copies[id]) {
      assert CopyEvolves(a.copies[id], b.copies[id]) && CopyEvolves(b.copies[id], c.copies[id]);
    }
  }

  // ── Elementary writes ──

  // What a transaction may have written: inserts use `newId` only, so the counter can move past it afterwards.
  ghost predicate Safe(db: Db, written: Db, newId: Id) {
    && Inv(written.(nextId := newId + 1))
    && Evolves(db, written)
    && written.nextId == db.nextId && written.receipts == db.receipts
  }

  lemma InvLater(db: Db, n: Id)
    requires Inv(db) && db.nextId <= n
    ensures Inv(db.(nextId := n))
  {
  }

  lemma EvolvesReflexive(db: Db)
    ensures Evolves(db, db)
  {
  }

  lemma NoWriteSafe(db: Db, newId: Id)
    requires Inv(db) && db.nextId <= newId
    ensures Safe(db, db, newId)
  {
    InvLater(db, newId + 1);
    EvolvesReflexive(db);
  }

  lemma ProgressWriteSafe(db: Db, newId: Id, key: (Id, Id), row: Progress)
    requires Inv(db) && db.nextId <= newId
    requires key in db.progress ==> ProgressEvolves(db.progress[key], row)
    ensures Safe(db, db.(progress := db.progress[key := row]), newId)
  {
    NoWriteSafe(db, newId);
    var written := db.(progress := db.progress[key := row]);
    assert Inv(written.(nextId := newId + 1));
  }

  lemma CopyWriteSafe(db: Db, newId: Id, id: Id, copy: Copy)
    requires Inv(db) && db.nextId <= newId
    requires if id in db.copies then CopyEvolves(db.copies[id], copy) else id == newId && copy.revision == 1
    ensures Safe(db, db.(copies := db.copies[id := copy]), newId)
  {
    NoWriteSafe(db, newId);
    var written := db.(copies := db.copies[id := copy]);
    assert Inv(written.(nextId := newId + 1));
  }

  lemma IdsBelow<Body>(t: Table<Body>, nextId: Id)
    requires TableOk(t, nextId)
    ensures forall id :: id in t.rows ==> id < nextId
  {
  }

  lemma NewIdUnused(db: Db, newId: Id)
    requires Inv(db) && db.nextId <= newId
    ensures newId !in db.copies && newId !in db.bookmarks.rows && newId !in db.highlights.rows
  {
  }

  lemma TombstonesAreOld(db: Db)
    requires Inv(db)
    ensures forall k :: k in db.tombstones ==> k.1 < db.nextId
  {
    forall k | k in db.tombstones ensures k.1 < db.nextId {
      assert DeletedIn(db.bookmarks, k) || DeletedIn(db.highlights, k);
    }
  }

  ghost predicate FreshRow<Body>(t: Table<Body>, user: Id, client: Id, row: Row<Body>) {
    && (user, client) !in t.byClient
    && row.user == user && row.client == Some(client) && row.revision == 1 && row.deletedAt.None?
  }

  lemma InsertSafe<Body>(t: Table<Body>, nextId: Id, id: Id, user: Id, client: Id, row: Row<Body>,
                         tombstones: map<(Id, Id), Tombstone>, kind: EntityKind)
    requires TableOk(t, nextId) && nextId <= id && DeletionsRecorded(t, tombstones, kind) && FreshRow(t, user, client, row)
    requires forall k :: k in tombstones ==> k.1 < nextId
    ensures TableOk(Insert(t, id, user, client, row), id + 1)
    ensures DeletionsRecorded(Insert(t, id, user, client, row), tombstones, kind)
    ensures TableEvolves(t, Insert(t, id, user, client, row))
    ensures forall k :: DeletedIn(t, k) ==> DeletedIn(Insert(t, id, user, client, row), k)
  {
  }

  lemma BookmarkInsertSafe(db: Db, newId: Id, user: Id, client: Id, row: Row<BookmarkBody>)
    requires Inv(db) && db.nextId <= newId && FreshRow(db.bookmarks, user, client, row)
    ensures Safe(db, db.(bookmarks := Insert(db.bookmarks, newId, user, client, row)), newId)
  {
    hide TableOk, TableEvolves, DeletionsRecorded, DeletedIn, ReceiptsOk, CopyEvolves, ProgressEvolves;
    NoWriteSafe(db, newId);
    TombstonesAreOld(db);
    IdsBelow(db.highlights, db.nextId);
    InsertSafe(db.bookmarks, db.nextId, newId, user, client, row, db.tombstones, BookmarkKind);
  }

  lemma HighlightInsertSafe(db: Db, newId: Id, user: Id, client: Id, row: Row<HighlightBody>)
    requires Inv(db) && db.nextId <= newId && FreshRow(db.highlights, user, client, row)
    ensures Safe(db, db.(highlights := Insert(db.highlights, newId, user, client, row)), newId)
  {
    hide TableOk, TableEvolves, DeletionsRecorded, DeletedIn, ReceiptsOk, CopyEvolves, ProgressEvolves;
    NoWriteSafe(db, newId);
    TombstonesAreOld(db);
    IdsBelow(db.bookmarks, db.nextId);
    InsertSafe(db.highlights, db.nextId, newId, user, client, row, db.tombstones, AnnotationKind);
  }

  lemma EditSafe<Body>(t: Table<Body>, nextId: Id, id: Id, body: Body, tombstones: map<(Id, Id), Tombstone>, kind: EntityKind)
    requires TableOk(t, nextId) && DeletionsRecorded(t, tombstones, kind)
    requires id in t.rows && t.rows[id].deletedAt.None?
    ensures var row := t.rows[id]; var u := Put(t, id, row.(body := body, revision := row.revision + 1));
            && TableOk(u, nextId) && TableEvolves(t, u) && DeletionsRecorded(u, tombstones, kind)
            && (forall k :: DeletedIn(t, k) ==> DeletedIn(u, k))
  {
  }

  lemma HighlightEditSafe(db: Db, newId: Id, id: Id, body: HighlightBody)
    requires Inv(db) && db.nextId <= newId
    requires id in db.highlights.rows && db.highlights.rows[id].deletedAt.None?
    ensures var row := db.highlights.rows[id];
            Safe(db, db.(highlights := Put(db.highlights, id, row.(body := body, revision := row.revision + 1))), newId)
  {
    hide TableOk, TableEvolves, DeletionsRecorded, DeletedIn, ReceiptsOk, CopyEvolves, ProgressEvolves;
    NoWriteSafe(db, newId);
    EditSafe(db.highlights, newId + 1, id, body, db.tombstones, AnnotationKind);
  }

  function Gone<Body>(row: Row<Body>, now: Time): Row<Body> {
    row.(deletedAt := Some(now), revision := row.revision + 1)
  }

  lemma DeleteSafe<Body>(t: Table<Body>, nextId: Id, id: Id, tombstones: map<(Id, Id), Tombstone>, kind: EntityKind, now: Time)
    requires TableOk(t, nextId) && DeletionsRecorded(t, tombstones, kind)
    requires id in t.rows && t.rows[id].deletedAt.None?
    ensures var row := t.rows[id]; var u := Put(t, id, Gone(row, now));
            && TableOk(u, nextId) && TableEvolves(t, u)
            && (row.user, id) !in tombstones
            && DeletionsRecorded(u, tombstones[(row.user, id) := Tombstone(kind, row.revision + 1, now)], kind)
            && DeletedIn(u, (row.user, id))
            && (forall k :: DeletedIn(t, k) ==> DeletedIn(u, k))
  {
  }

  lemma ElsewhereDeleted<Body>(t: Table<Body>, key: (Id, Id), tombstones: map<(Id, Id), Tombstone>, stone: Tombstone, kind: EntityKind)
    requires DeletionsRecorded(t, tombstones, kind) && key.1 !in t.rows
    ensures DeletionsRecorded(t, tombstones[key := stone], kind)
  {
  }

  lemma BookmarkDeleteSafe(db: Db, newId: Id, id: Id, now: Time)
    requires Inv(db) && db.nextId <= newId
    requires id in db.bookmarks.rows && db.bookmarks.rows[id].deletedAt.None?
    ensures var row := db.bookmarks.rows[id];
            var written := db.(bookmarks := Put(db.bookmarks, id, Gone(row, now)));
            Safe(db, UpsertTombstone(written, row.user, id, BookmarkKind, row.revision + 1, now), newId)
  {
    hide TableOk, TableEvolves, DeletionsRecorded, DeletedIn, ReceiptsOk, CopyEvolves, ProgressEvolves;
    NoWriteSafe(db, newId);
    var row := db.bookmarks.rows[id];
    DeleteSafe(db.bookmarks, newId + 1, id, db.tombstones, BookmarkKind, now);
    ElsewhereDeleted(db.highlights, (row.user, id), db.tombstones, Tombstone(BookmarkKind, row.revision + 1, now), AnnotationKind);
  }

  lemma HighlightDeleteSafe(db: Db, newId: Id, id: Id, now: Time)
    requires Inv(db) && db.nextId <= newId
    requires id in db.highlights.rows && db.highlights.rows[id].deletedAt.None?
    ensures var row := db.highlights.rows[id];
            var written := db.(highlights := Put(db.highlights, id, Gone(row, now)));
            Safe(db, UpsertTombstone(written, row.user, id, AnnotationKind, row.revision + 1, now), newId)
  {
    hide TableOk, TableEvolves, DeletionsRecorded, DeletedIn, ReceiptsOk, CopyEvolves, ProgressEvolves;
    NoWriteSafe(db, newId);
    var row := db.highlights.rows[id];
    DeleteSafe(db.highlights, newId + 1, id, db.tombstones, AnnotationKind, now);
    ElsewhereDeleted(db.bookmarks, (row.user, id), db.tombstones, Tombstone(AnnotationKind, row.revision + 1, now), BookmarkKind);
  }

  // ── Every commit keeps the invariant and only evolves the tables ──

  // A row read live at `base` and still at `base` when written is the same row: nobody deleted it in between.
  lemma SameRevisionSameRow<Body>(seen: Table<Body>, t: Table<Body>, id: Id, user: Id, book: Id, base: nat)
    requires TableEvolves(seen, t)
    requires FindRow(seen, id, user, book).Some? && seen.rows[id].revision == base
    requires Guarded(t, id, user, book, base)
    ensures t.rows[id] == seen.rows[id]
  {
    assert RowEvolves(seen.rows[id], t.rows[id]);
  }

  // Handlers read `seen` earlier than they write `db`, and their identifiers are unused.
  ghost predicate Ready(seen: Db, db: Db, c: Context) {
    && Inv(seen) && Inv(db) && Evolves(seen, db)
    && db.nextId <= c.receipt < c.newId
  }

  ghost predicate SafeStep(db: Db, step: Step, c: Context) {
    step.Done? ==> Safe(db, step.db, c.newId)
  }

  lemma ProgressSafe(seen: Db, db: Db, c: Context)
    requires Ready(seen, db, c) && c.request.payload.action.SetProgress?
    ensures SafeStep(db, Handle(seen, db, c), c)
  {
    hide Inv, TableEvolves, Safe;
    NoWriteSafe(db, c.newId);
    var key := (c.request.subject, c.request.payload.book);
    var step := CommitProgress(db, c, FindProgress(seen, key.0, key.1));
    if step.Done? && step.db != db {
      if key in db.progress { assert ProgressEvolves(seen.progress[key], db.progress[key]); }
      ProgressWriteSafe(db, c.newId, key, step.db.progress[key]);
    }
  }

  lemma CreateSafe(seen: Db, db: Db, c: Context)
    requires Ready(seen, db, c) && (c.request.payload.action.AddBookmark? || c.request.payload.action.CreateAnnotation?)
    ensures SafeStep(db, Handle(seen, db, c), c)
  {
    hide Inv, TableEvolves, RowEvolves, CopyEvolves, Safe;
    NoWriteSafe(db, c.newId);
    var step := Handle(seen, db, c);
    if step.Done? && step.db != db {
      var user, client := c.request.subject, c.request.payload.action.client;
      if c.request.payload.action.AddBookmark? {
        BookmarkInsertSafe(db, c.newId, user, client, step.db.bookmarks.rows[c.newId]);
      } else {
        HighlightInsertSafe(db, c.newId, user, client, step.db.highlights.rows[c.newId]);
      }
    }
  }

  lemma RemoveBookmarkSafe(seen: Db, db: Db, c: Context)
    requires Ready(seen, db, c) && c.request.payload.action.RemoveBookmark?
    ensures SafeStep(db, Handle(seen, db, c), c)
  {
    hide Inv, TableEvolves, RowEvolves, CopyEvolves, Safe;
    NoWriteSafe(db, c.newId);
    var RemoveBookmark(id, base) := c.request.payload.action;
    var step := Handle(seen, db, c);
    if step.Done? && step.db != db {
      SameRevisionSameRow(seen.bookmarks, db.bookmarks, id, c.request.subject, c.request.payload.book, base);
      BookmarkDeleteSafe(db, c.newId, id, c.now);
    }
  }

  lemma DeleteAnnotationSafe(seen: Db, db: Db, c: Context)
    requires Ready(seen, db, c) && c.request.payload.action.DeleteAnnotation?
    ensures SafeStep(db, Handle(seen, db, c), c)
  {
    hide Inv, TableEvolves, RowEvolves, CopyEvolves, Safe;
    NoWriteSafe(db, c.newId);
    var DeleteAnnotation(id, base) := c.request.payload.action;
    var step := Handle(seen, db, c);
    if step.Done? && step.db != db {
      if step.result.Applied? {
        SameRevisionSameRow(seen.highlights, db.highlights, id, c.request.subject, c.request.payload.book, base);
        HighlightDeleteSafe(db, c.newId, id, c.now);
      } else {
        NewIdUnused(db, c.newId);
        CopyWriteSafe(db, c.newId, c.newId, step.db.copies[c.newId]);
      }
    }
  }

  lemma UpdateAnnotationSafe(seen: Db, db: Db, c: Context)
    requires Ready(seen, db, c) && c.request.payload.action.UpdateAnnotation?
    ensures SafeStep(db, Handle(seen, db, c), c)
  {
    hide Inv, TableEvolves, RowEvolves, CopyEvolves, Safe;
    NoWriteSafe(db, c.newId);
    var UpdateAnnotation(id, target, base, body) := c.request.payload.action;
    var step := Handle(seen, db, c);
    if step.Done? && step.db != db {
      if step.result.Conflict? {
        NewIdUnused(db, c.newId);
        CopyWriteSafe(db, c.newId, c.newId, step.db.copies[c.newId]);
      } else if target.CopyTarget? {
        CopyWriteSafe(db, c.newId, id, step.db.copies[id]);
      } else {
        SameRevisionSameRow(seen.highlights, db.highlights, id, c.request.subject, c.request.payload.book, base);
        HighlightEditSafe(db, c.newId, id, body);
      }
    }
  }

  lemma HandleSafe(seen: Db, db: Db, c: Context)
    requires Ready(seen, db, c)
    ensures SafeStep(db, Handle(seen, db, c), c)
  {
    match c.request.payload.action
    case SetProgress(_, _, _) => ProgressSafe(seen, db, c);
    case AddBookmark(_, _) => CreateSafe(seen, db, c);
    case RemoveBookmark(_, _) => RemoveBookmarkSafe(seen, db, c);
    case CreateAnnotation(_, _) => CreateSafe(seen, db, c);
    case UpdateAnnotation(_, _, _, _) => UpdateAnnotationSafe(seen, db, c);
    case DeleteAnnotation(_, _) => DeleteAnnotationSafe(seen, db, c);
  }

  lemma DeniedWritesNothing(seen: Db, db: Db, c: Context)
    requires Handle(seen, db, c).Done? && !Handle(seen, db, c).result.Receipted()
    ensures Handle(seen, db, c).db == db && Handle(seen, db, c).result.AccessDenied?
  {
  }

  lemma HandledResult(seen: Db, db: Db, c: Context)
    requires Handle(seen, db, c).Done? && Handle(seen, db, c).result.Applied?
    ensures Handle(seen, db, c).result.receipt == c.receipt
  {
  }

  lemma ReceiptSafe(db: Db, written: Db, c: Context, result: Result)
    requires Inv(db) && Safe(db, written, c.newId) && db.nextId <= c.newId
    requires result.Receipted() && (result.Applied? ==> result.receipt == c.receipt)
    requires c.request.Key() !in db.receipts
    ensures Inv(WithReceipt(written, c, result)) && Evolves(db, WithReceipt(written, c, result))
  {
    hide TableOk, TableEvolves, DeletionsRecorded, DeletedIn, CopyEvolves, ProgressEvolves;
  }

  // The transaction theorem: whatever ran between its read and its commit, a transaction keeps the
  // invariant, only evolves the tables, and leaves a receipt exactly when it may have written something.
  lemma CommitSafe(seen: Db, db: Db, request: Request, pageCount: Option<nat>, now: Time)
    requires Inv(seen) && Inv(db) && Evolves(seen, db)
    requires Commit(seen, db, request, pageCount, now).Done?
    ensures var Done(after, result) := Commit(seen, db, request, pageCount, now);
            && Inv(after) && Evolves(db, after)
            && (if result.Receipted()
                then && request.Key() !in db.receipts
                     && after.receipts == db.receipts[request.Key() := Receipt(db.nextId, request.payload, result)]
                else after == db && result.AccessDenied?)
  {
    hide Inv, Evolves;
    var c := ContextFor(db, request, pageCount, now);
    HandleSafe(seen, db, c);
    var step := Handle(seen, db, c);
    if step.result.Receipted() {
      if step.result.Applied? { HandledResult(seen, db, c); }
      ReceiptSafe(db, step.db, c, step.result);
    } else {
      DeniedWritesNothing(seen, db, c);
    }
  }
}
