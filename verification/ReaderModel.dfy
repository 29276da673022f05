// The tables behind the reader's offline operations, and what one operation does to them.
//
// A handler first reads the row it is about and later writes. Between the two another
// transaction may commit, so every handler below takes the row as it was read (`existing`)
// and the tables as they are when it writes (`db`). Reading and writing the same state gives
// one atomic transaction; reading an older state gives a race.
module ReaderModel {
  import opened Prelude

  // Identifiers are only compared for equality. Fresh ones come from a counter.
  type Id = nat
  type Time = int

  datatype Anchor = Anchor(version: nat, page: nat, startOffset: nat, endOffset: nat)

  datatype BookmarkBody = BookmarkBody(page: nat, caption: Option<string>, color: Option<string>, anchor: Option<Anchor>)

  datatype HighlightBody = HighlightBody(page: nat, text: string, note: Option<string>, color: Option<string>,
                                         anchor: Option<Anchor>)

  // A bookmark or highlight row. `client` is empty on rows older than client identities.
  datatype Row<Body> = Row(user: Id, book: Id, client: Option<Id>, body: Body, contentVersion: Option<nat>,
                           revision: nat, deletedAt: Option<Time>)

  // Rows by primary key, and the unique index on (user, client id).
  datatype Table<Body> = Table(rows: map<Id, Row<Body>>, byClient: map<(Id, Id), Id>)

  datatype Progress = Progress(id: Id, page: nat, scrollY: Option<real>, revision: nat, lastReadAt: Time,
                               completedAt: Option<Time>)

  datatype Reason = StaleRevision | DeleteVsEdit

  datatype Copy = Copy(subject: Id, operation: Id, source: Id, book: Id, contentVersion: nat, body: HighlightBody,
                       revision: nat, reason: Reason)

  datatype EntityKind = BookmarkKind | AnnotationKind

  datatype Tombstone = Tombstone(kind: EntityKind, revision: nat, deletedAt: Time)

  datatype Target = AnnotationTarget | CopyTarget

  // The six operation kinds after validation, each with the fields its kind carries.
  datatype Action =
    | SetProgress(base: nat, page: nat, scrollY: Option<real>)
    | AddBookmark(client: Id, bookmark: BookmarkBody)
    | RemoveBookmark(entity: Id, base: nat)
    | CreateAnnotation(client: Id, body: HighlightBody)
    | UpdateAnnotation(entity: Id, target: Target, base: nat, body: HighlightBody)
    | DeleteAnnotation(entity: Id, base: nat)

  // Everything the payload hash covers. The hash is taken to be injective, so it is the payload.
  datatype Payload = Payload(book: Id, contentVersion: nat, action: Action)

  datatype Request = Request(subject: Id, operation: Id, payload: Payload) {
    function Key(): (Id, Id) { (subject, operation) }
  }

  datatype ServerValue =
    | ProgressValue(book: Id, page: nat, scrollY: Option<real>, revision: nat, lastReadAt: Time)
    | BookmarkValue(bookmarkId: Id, bookmark: Row<BookmarkBody>)
    | HighlightValue(highlightId: Id, highlight: Row<HighlightBody>)
    | CopyValue(copyId: Id, stored: Copy)

  datatype Result =
    | Applied(entity: Id, revision: nat, receipt: Id)
    | Conflict(entity: Id, serverRevision: nat, server: ServerValue, copy: Option<(Id, Copy)>)
    | IncompatibleVersion(requested: nat, supported: seq<nat>)
    | AccessDenied(resource: Id)
  {
    predicate Receipted() { Applied? || Conflict? }
  }

  datatype Receipt = Receipt(id: Id, payload: Payload, result: Result)

  datatype Db = Db(
    nextId: Id,
    receipts: map<(Id, Id), Receipt>,
    progress: map<(Id, Id), Progress>,
    bookmarks: Table<BookmarkBody>,
    highlights: Table<HighlightBody>,
    tombstones: map<(Id, Id), Tombstone>,
    copies: map<Id, Copy>)

  // What the entitlement check and the book row say at the time of the call.
  datatype Access = Denied | Allowed(supported: seq<nat>, pageCount: Option<nat>)

  // One transaction's request, fresh identifiers, page count and clock reading.
  datatype Context = Context(request: Request, receipt: Id, newId: Id, pageCount: Option<nat>, now: Time)

  // A statement that breaks a unique key aborts the whole transaction.
  datatype Step = Done(db: Db, result: Result) | UniqueViolation

  // ── Reads ──

  function FindProgress(db: Db, user: Id, book: Id): Option<Progress> {
    if (user, book) in db.progress then Some(db.progress[(user, book)]) else None
  }

  function FindByClient<Body>(t: Table<Body>, user: Id, client: Id): Option<(Id, Row<Body>)> {
    if (user, client) in t.byClient && t.byClient[(user, client)] in t.rows
    then Some((t.byClient[(user, client)], t.rows[t.byClient[(user, client)]]))
    else None
  }

  function FindRow<Body>(t: Table<Body>, id: Id, user: Id, book: Id): Option<(Id, Row<Body>)> {
    if id in t.rows && t.rows[id].user == user && t.rows[id].book == book then Some((id, t.rows[id])) else None
  }

  function FindCopy(db: Db, id: Id, subject: Id, book: Id): Option<(Id, Copy)> {
    if id in db.copies && db.copies[id].subject == subject && db.copies[id].book == book
    then Some((id, db.copies[id])) else None
  }

  // ── Guarded writes ──

  predicate Guarded<Body>(t: Table<Body>, id: Id, user: Id, book: Id, base: nat) {
    FindRow(t, id, user, book).Some? && t.rows[id].revision == base
  }

  function Put<Body>(t: Table<Body>, id: Id, row: Row<Body>): Table<Body> {
    t.(rows := t.rows[id := row])
  }

  function Insert<Body>(t: Table<Body>, id: Id, user: Id, client: Id, row: Row<Body>): Table<Body> {
    Table(t.rows[id := row], t.byClient[(user, client) := id])
  }

  // ── Replies ──

  function BookmarkView(id: Id, row: Row<BookmarkBody>): ServerValue {
    BookmarkValue(id, row.(contentVersion := Some(row.contentVersion.GetOr(1))))
  }

  function HighlightView(id: Id, row: Row<HighlightBody>): ServerValue {
    HighlightValue(id, row.(contentVersion := Some(row.contentVersion.GetOr(1))))
  }

  function ProgressView(book: Id, p: Progress): ServerValue {
    ProgressValue(book, p.page, p.scrollY, p.revision, p.lastReadAt)
  }

  function EmptyProgressView(c: Context): ServerValue {
    ProgressValue(c.request.payload.book, 1, None, 0, c.now)
  }

  function ProgressConflict(c: Context, current: Option<Progress>): Result {
    var book := c.request.payload.book;
    match current
    case None => Conflict(book, 0, EmptyProgressView(c), None)
    case Some(p) => Conflict(book, p.revision, ProgressView(book, p), None)
  }

  function BookmarkConflict(id: Id, row: Row<BookmarkBody>): Result {
    Conflict(id, row.revision, BookmarkView(id, row), None)
  }

  function HighlightConflict(id: Id, row: Row<HighlightBody>, copy: Option<(Id, Copy)>): Result {
    Conflict(id, row.revision, HighlightView(id, row), copy)
  }

  // ── Handlers ──

  function CompletedAtFor(page: nat, pageCount: Option<nat>, previous: Option<Time>, now: Time): Option<Time> {
    if pageCount.None? then None
    else if page < pageCount.value then None
    else Some(previous.GetOr(now))
  }

  function CommitProgress(db: Db, c: Context, existing: Option<Progress>): Step
    requires c.request.payload.action.SetProgress?
  {
    var SetProgress(base, page, scrollY) := c.request.payload.action;
    var key := (c.request.subject, c.request.payload.book);
    var previous := if existing.Some? then existing.value.completedAt else None;
    var completedAt := CompletedAtFor(page, c.pageCount, previous, c.now);
    match existing
    case None =>
      if base != 0 then Done(db, ProgressConflict(c, None))
      else if key in db.progress then UniqueViolation
      else
        var row := Progress(c.newId, page, scrollY, 1, c.now, completedAt);
        Done(db.(progress := db.progress[key := row]), Applied(c.newId, 1, c.receipt))
    case Some(p) =>
      if p.revision != base then Done(db, ProgressConflict(c, existing))
      else if key in db.progress && db.progress[key].revision == base then
        var row := Progress(p.id, page, scrollY, base + 1, c.now, completedAt);
        Done(db.(progress := db.progress[key := row]), Applied(p.id, base + 1, c.receipt))
      else Done(db, ProgressConflict(c, FindProgress(db, key.0, key.1)))
  }

  function CommitAddBookmark(db: Db, c: Context, existing: Option<(Id, Row<BookmarkBody>)>): Step
    requires c.request.payload.action.AddBookmark?
  {
    var AddBookmark(client, body) := c.request.payload.action;
    var user := c.request.subject;
    match existing
    case Some((id, row)) =>
      if row.deletedAt.None? && row.body == body then Done(db, Applied(id, row.revision, c.receipt))
      else Done(db, BookmarkConflict(id, row))
    case None =>
      if (user, client) in db.bookmarks.byClient then UniqueViolation
      else
        var row := Row(user, c.request.payload.book, Some(client), body, Some(c.request.payload.contentVersion), 1, None);
        Done(db.(bookmarks := Insert(db.bookmarks, c.newId, user, client, row)), Applied(c.newId, 1, c.receipt))
  }

  function CommitCreateAnnotation(db: Db, c: Context, existing: Option<(Id, Row<HighlightBody>)>): Step
    requires c.request.payload.action.CreateAnnotation?
  {
    var CreateAnnotation(client, body) := c.request.payload.action;
    var user := c.request.subject;
    match existing
    case Some((id, row)) =>
      if row.deletedAt.None? && row.body == body then Done(db, Applied(id, row.revision, c.receipt))
      else Done(db, HighlightConflict(id, row, None))
    case None =>
      if (user, client) in db.highlights.byClient then UniqueViolation
      else
        var row := Row(user, c.request.payload.book, Some(client), body, Some(c.request.payload.contentVersion), 1, None);
        Done(db.(highlights := Insert(db.highlights, c.newId, user, client, row)), Applied(c.newId, 1, c.receipt))
  }

  function UpsertTombstone(db: Db, subject: Id, entity: Id, kind: EntityKind, revision: nat, now: Time): Db {
    var key := (subject, entity);
    var kept := if key in db.tombstones then db.tombstones[key].kind else kind;
    db.(tombstones := db.tombstones[key := Tombstone(kept, revision, now)])
  }

  function CommitRemoveBookmark(db: Db, c: Context, existing: Option<(Id, Row<BookmarkBody>)>): Step
    requires c.request.payload.action.RemoveBookmark?
  {
    var RemoveBookmark(entity, base) := c.request.payload.action;
    var user, book := c.request.subject, c.request.payload.book;
    match existing
    case None => Done(db, AccessDenied(entity))
    case Some((id, row)) =>
      if row.deletedAt.Some? then Done(db, Applied(id, row.revision, c.receipt))
      else if row.revision != base then Done(db, BookmarkConflict(id, row))
      else if Guarded(db.bookmarks, id, user, book, base) then
        var gone := db.bookmarks.rows[id].(deletedAt := Some(c.now), revision := base + 1);
        var written := db.(bookmarks := Put(db.bookmarks, id, gone));
        Done(UpsertTombstone(written, user, id, BookmarkKind, base + 1, c.now), Applied(id, base + 1, c.receipt))
      else
        var current := FindRow(db.bookmarks, id, user, book);
        Done(db, BookmarkConflict(id, current.GetOr((id, row)).1))
  }

  function NewCopy(c: Context, source: Id, reason: Reason, body: HighlightBody): Copy {
    Copy(c.request.subject, c.request.operation, source, c.request.payload.book, c.request.payload.contentVersion,
         body, 1, reason)
  }

  function WithCopy(db: Db, c: Context, copy: Copy): Db {
    db.(copies := db.copies[c.newId := copy])
  }

  function CommitUpdateAnnotation(db: Db, c: Context, existing: Option<(Id, Row<HighlightBody>)>): Step
    requires c.request.payload.action.UpdateAnnotation?
  {
    var UpdateAnnotation(entity, _, base, body) := c.request.payload.action;
    var user, book := c.request.subject, c.request.payload.book;
    match existing
    case None => Done(db, AccessDenied(entity))
    case Some((id, row)) =>
      if row.deletedAt.Some? then
        var copy := NewCopy(c, id, DeleteVsEdit, body);
        Done(WithCopy(db, c, copy), HighlightConflict(id, row, Some((c.newId, copy))))
      else if row.revision != base then
        var copy := NewCopy(c, id, StaleRevision, body);
        Done(WithCopy(db, c, copy), HighlightConflict(id, row, Some((c.newId, copy))))
      else if Guarded(db.highlights, id, user, book, base) then
        var edited := db.highlights.rows[id].(body := body, revision := base + 1);
        Done(db.(highlights := Put(db.highlights, id, edited)), Applied(id, base + 1, c.receipt))
      else
        var current := FindRow(db.highlights, id, user, book);
        Done(db, HighlightConflict(id, current.GetOr((id, row)).1, None))
  }

  function CommitUpdateCopy(db: Db, c: Context, existing: Option<(Id, Copy)>): Step
    requires c.request.payload.action.UpdateAnnotation?
  {
    var UpdateAnnotation(entity, _, base, body) := c.request.payload.action;
    var user, book := c.request.subject, c.request.payload.book;
    match existing
    case None => Done(db, AccessDenied(entity))
    case Some((id, seen)) =>
      var current := FindCopy(db, id, user, seen.book);
      if seen.revision == base && current.Some? && current.value.1.revision == base then
        var edited := current.value.1.(body := body, revision := base + 1);
        Done(db.(copies := db.copies[id := edited]), Applied(id, base + 1, c.receipt))
      else
        var server := if seen.revision == base then current.GetOr((id, seen)).1 else seen;
        var copy := NewCopy(c, server.source, StaleRevision, body).(book := seen.book);
        Done(WithCopy(db, c, copy), Conflict(id, server.revision, CopyValue(id, server), Some((c.newId, copy))))
  }

  function CommitDeleteAnnotation(db: Db, c: Context, existing: Option<(Id, Row<HighlightBody>)>): Step
    requires c.request.payload.action.DeleteAnnotation?
  {
    var DeleteAnnotation(entity, base) := c.request.payload.action;
    var user, book := c.request.subject, c.request.payload.book;
    match existing
    case None => Done(db, AccessDenied(entity))
    case Some((id, row)) =>
      if row.deletedAt.Some? then Done(db, Applied(id, row.revision, c.receipt))
      else if row.revision != base then
        var copy := NewCopy(c, id, DeleteVsEdit, row.body);
        Done(WithCopy(db, c, copy), HighlightConflict(id, row, Some((c.newId, copy))))
      else if Guarded(db.highlights, id, user, book, base) then
        var gone := db.highlights.rows[id].(deletedAt := Some(c.now), revision := base + 1);
        var written := db.(highlights := Put(db.highlights, id, gone));
        Done(UpsertTombstone(written, user, id, AnnotationKind, base + 1, c.now), Applied(id, base + 1, c.receipt))
      else
        var current := FindRow(db.highlights, id, user, book);
        Done(db, HighlightConflict(id, current.GetOr((id, row)).1, None))
  }

  // The handler of the request's kind: it read its row in `seen` and writes to `db`.
  function Handle(seen: Db, db: Db, c: Context): Step {
    var Request(user, _, Payload(book, _, action)) := c.request;
    match action
    case SetProgress(_, _, _) => CommitProgress(db, c, FindProgress(seen, user, book))
    case AddBookmark(client, _) => CommitAddBookmark(db, c, FindByClient(seen.bookmarks, user, client))
    case RemoveBookmark(entity, _) => CommitRemoveBookmark(db, c, FindRow(seen.bookmarks, entity, user, book))
    case CreateAnnotation(client, _) => CommitCreateAnnotation(db, c, FindByClient(seen.highlights, user, client))
    case UpdateAnnotation(entity, target, _, _) =>
      if target.CopyTarget? then CommitUpdateCopy(db, c, FindCopy(seen, entity, user, book))
      else CommitUpdateAnnotation(db, c, FindRow(seen.highlights, entity, user, book))
    case DeleteAnnotation(entity, _) => CommitDeleteAnnotation(db, c, FindRow(seen.highlights, entity, user, book))
  }

  function ContextFor(db: Db, request: Request, pageCount: Option<nat>, now: Time): Context {
    Context(request, db.nextId, db.nextId + 1, pageCount, now)
  }

  // The tables once the receipt of an applied or conflicting operation is in.
  function WithReceipt(db: Db, c: Context, result: Result): Db {
    db.(receipts := db.receipts[c.request.Key() := Receipt(c.receipt, c.request.payload, result)], nextId := c.newId + 1)
  }

  // The writing half of a transaction: the handler, then the receipt under its unique key.
  function Commit(seen: Db, db: Db, request: Request, pageCount: Option<nat>, now: Time): Step {
    var c := ContextFor(db, request, pageCount, now);
    match Handle(seen, db, c)
    case UniqueViolation => UniqueViolation
    case Done(written, result) =>
      if !result.Receipted() then Done(written, result)
      else if request.Key() in db.receipts then UniqueViolation
      else Done(WithReceipt(written, c, result), result)
  }

  // ── Replies to the caller ──

  datatype Reply =
    | Ok(result: Result)
    | DifferentPayload      // the operation id was used before with another payload
    | RetryLater            // a concurrent winner was never observed

  function ReplayOutcome(stored: Receipt, payload: Payload): Reply {
    if stored.payload != payload then DifferentPayload else Ok(stored.result)
  }

  // The checks that answer without writing: a prior receipt, then entitlement, then version.
  function PriorReply(db: Db, request: Request): Option<Reply> {
    if request.Key() in db.receipts then Some(ReplayOutcome(db.receipts[request.Key()], request.payload)) else None
  }

  function AccessReply(request: Request, access: Access): Option<Reply> {
    if access.Denied? then Some(Ok(AccessDenied(request.payload.book)))
    else if request.payload.contentVersion !in access.supported
    then Some(Ok(IncompatibleVersion(request.payload.contentVersion, access.supported)))
    else None
  }

  // How often an aborted transaction looks for the winner's receipt.
  const REPLAY_READ_ATTEMPTS: nat := 5
}
