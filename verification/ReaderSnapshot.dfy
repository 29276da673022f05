// The annotation snapshot a reader downloads, and its watermark.
module ReaderSnapshot {
  import opened Prelude
  import opened ReaderModel
  import opened ReaderInvariants

  datatype Snapshot = Snapshot(annotations: map<Id, ServerValue>, tombstones: map<Id, Tombstone>, copies: map<Id, Copy>,
                               revision: nat)

  function LiveIds<Body>(t: Table<Body>, user: Id, book: Id): set<Id> {
    set id | id in t.rows && t.rows[id].user == user && t.rows[id].book == book && t.rows[id].deletedAt.None?
  }

  function DeletedIds<Body>(t: Table<Body>, user: Id, book: Id): set<Id> {
    set id | id in t.rows && t.rows[id].user == user && t.rows[id].book == book && t.rows[id].deletedAt.Some?
  }

  function CopyIds(db: Db, subject: Id, book: Id): set<Id> {
    set id | id in db.copies && db.copies[id].subject == subject && db.copies[id].book == book
  }

  // Tombstones carry no book, so they are found through the deleted rows of this book.
  function ScopedTombstones(db: Db, subject: Id, book: Id): map<Id, Tombstone> {
    map id | id in DeletedIds(db.bookmarks, subject, book) + DeletedIds(db.highlights, subject, book)
             && (subject, id) in db.tombstones
      :: db.tombstones[(subject, id)]
  }

  function Revisions(db: Db, subject: Id, book: Id): set<nat> {
    (set id | id in LiveIds(db.bookmarks, subject, book) :: db.bookmarks.rows[id].revision)
    + (set id | id in LiveIds(db.highlights, subject, book) :: db.highlights.rows[id].revision)
    + (set id | id in ScopedTombstones(db, subject, book) :: ScopedTombstones(db, subject, book)[id].revision)
    + (set id | id in CopyIds(db, subject, book) :: db.copies[id].revision)
  }

  ghost function TakeSnapshot(db: Db, subject: Id, book: Id): Snapshot {
    Snapshot((map id | id in LiveIds(db.bookmarks, subject, book) :: BookmarkView(id, db.bookmarks.rows[id]))
             + (map id | id in LiveIds(db.highlights, subject, book) :: HighlightView(id, db.highlights.rows[id])),
             ScopedTombstones(db, subject, book),
             map id | id in CopyIds(db, subject, book) :: db.copies[id],
             MaxOf(Revisions(db, subject, book)))
  }

  // A row of this reader and book: it is shown as an annotation while live, and as a tombstone
  // at its own revision once deleted.
  ghost predicate BookmarkShown(s: Snapshot, id: Id, row: Row<BookmarkBody>) {
    match row.deletedAt
    case None => id in s.annotations && ShowsBookmark(s.annotations[id], id, row) && id !in s.tombstones
    case Some(at) => id !in s.annotations && id in s.tombstones && s.tombstones[id] == Tombstone(BookmarkKind, row.revision, at)
  }

  ghost predicate HighlightShown(s: Snapshot, id: Id, row: Row<HighlightBody>) {
    match row.deletedAt
    case None => id in s.annotations && ShowsHighlight(s.annotations[id], id, row) && id !in s.tombstones
    case Some(at) => id !in s.annotations && id in s.tombstones && s.tombstones[id] == Tombstone(AnnotationKind, row.revision, at)
  }

  lemma LiveOrRecorded<Body>(t: Table<Body>, tombstones: map<(Id, Id), Tombstone>, kind: EntityKind, user: Id, book: Id)
    requires DeletionsRecorded(t, tombstones, kind)
    ensures LiveIds(t, user, book) !! DeletedIds(t, user, book)
    ensures forall id :: FindRow(t, id, user, book).Some? <==> id in LiveIds(t, user, book) + DeletedIds(t, user, book)
    ensures forall id :: id in DeletedIds(t, user, book) ==>
              (user, id) in tombstones && tombstones[(user, id)] == Tombstone(kind, t.rows[id].revision, t.rows[id].deletedAt.value)
  {
  }

  // Which ids a snapshot lists as annotations and as tombstones.
  lemma SnapshotKeys(db: Db, subject: Id, book: Id)
    requires Inv(db)
    ensures var s := TakeSnapshot(db, subject, book);
            && s.annotations.Keys == LiveIds(db.bookmarks, subject, book) + LiveIds(db.highlights, subject, book)
            && s.tombstones.Keys == DeletedIds(db.bookmarks, subject, book) + DeletedIds(db.highlights, subject, book)
  {
    hide MaxOf, Revisions, TableOk, DeletionsRecorded, DeletedIn, LiveIds, DeletedIds, BookmarkView, HighlightView;
    LiveOrRecorded(db.bookmarks, db.tombstones, BookmarkKind, subject, book);
    LiveOrRecorded(db.highlights, db.tombstones, AnnotationKind, subject, book);
  }

  // What a snapshot says of the rows it lists.
  lemma SnapshotValues(db: Db, subject: Id, book: Id)
    requires Inv(db)
    ensures var s := TakeSnapshot(db, subject, book);
            && (forall id :: FindRow(db.bookmarks, id, subject, book).Some? ==> BookmarkShown(s, id, db.bookmarks.rows[id]))
            && (forall id :: FindRow(db.highlights, id, subject, book).Some? ==> HighlightShown(s, id, db.highlights.rows[id]))
  {
    BookmarkValues(db, subject, book);
    HighlightValues(db, subject, book);
    hide *;
  }

  lemma BookmarkValues(db: Db, subject: Id, book: Id)
    requires Inv(db)
    ensures var s := TakeSnapshot(db, subject, book);
            forall id :: FindRow(db.bookmarks, id, subject, book).Some? ==> BookmarkShown(s, id, db.bookmarks.rows[id])
  {
    hide MaxOf, Revisions, TableOk, DeletionsRecorded, DeletedIn, HighlightView;
    LiveOrRecorded(db.bookmarks, db.tombstones, BookmarkKind, subject, book);
  }

  lemma HighlightValues(db: Db, subject: Id, book: Id)
    requires Inv(db)
    ensures var s := TakeSnapshot(db, subject, book);
            forall id :: FindRow(db.highlights, id, subject, book).Some? ==> HighlightShown(s, id, db.highlights.rows[id])
  {
    hide MaxOf, Revisions, TableOk, DeletionsRecorded, DeletedIn, BookmarkView;
    LiveOrRecorded(db.highlights, db.tombstones, AnnotationKind, subject, book);
  }

  // Annotations and tombstones together are exactly the rows of that subject and book, each in one of them and as it
  // stands, and the copies are exactly the conflict copies of that subject and book.
  lemma SnapshotPartitionsRows(db: Db, subject: Id, book: Id)
    requires Inv(db)
    ensures var s := TakeSnapshot(db, subject, book);
            && s.annotations.Keys !! s.tombstones.Keys
            && (forall id :: id in s.annotations || id in s.tombstones <==>
                  || (id in db.bookmarks.rows && db.bookmarks.rows[id].user == subject && db.bookmarks.rows[id].book == book)
                  || (id in db.highlights.rows && db.highlights.rows[id].user == subject && db.highlights.rows[id].book == book))
            && (forall id :: id in db.bookmarks.rows && db.bookmarks.rows[id].user == subject && db.bookmarks.rows[id].book == book ==>
                  BookmarkShown(s, id, db.bookmarks.rows[id]))
            && (forall id :: id in db.highlights.rows && db.highlights.rows[id].user == subject && db.highlights.rows[id].book == book ==>
                  HighlightShown(s, id, db.highlights.rows[id]))
    ensures var copies := TakeSnapshot(db, subject, book).copies;
            && (forall id :: id in copies <==> id in db.copies && db.copies[id].subject == subject && db.copies[id].book == book)
            && (forall id :: id in copies ==> copies[id] == db.copies[id])
  {
    FindsOwn(db.bookmarks, subject, book);
    FindsOwn(db.highlights, subject, book);
    CopiesShown(db, subject, book);
    hide TableOk, DeletionsRecorded, DeletedIn, FindRow, LiveIds, DeletedIds, TakeSnapshot, BookmarkShown, HighlightShown;
    LiveOrRecorded(db.bookmarks, db.tombstones, BookmarkKind, subject, book);
    LiveOrRecorded(db.highlights, db.tombstones, AnnotationKind, subject, book);
    IdsDisjoint(db, subject, book);
    SnapshotKeys(db, subject, book);
    SnapshotValues(db, subject, book);
  }

  lemma FindsOwn<Body>(t: Table<Body>, user: Id, book: Id)
    ensures forall id :: FindRow(t, id, user, book).Some? <==> id in t.rows && t.rows[id].user == user && t.rows[id].book == book
  {
  }

  lemma CopiesShown(db: Db, subject: Id, book: Id)
    ensures var copies := TakeSnapshot(db, subject, book).copies;
            && (forall id :: id in copies <==> id in db.copies && db.copies[id].subject == subject && db.copies[id].book == book)
            && (forall id :: id in copies ==> copies[id] == db.copies[id])
  {
    hide MaxOf, Revisions, LiveIds, DeletedIds, ScopedTombstones;
  }

  lemma IdsDisjoint(db: Db, subject: Id, book: Id)
    requires Inv(db)
    ensures LiveIds(db.bookmarks, subject, book) !! DeletedIds(db.highlights, subject, book)
    ensures LiveIds(db.highlights, subject, book) !! DeletedIds(db.bookmarks, subject, book)
  {
    hide TableOk, DeletionsRecorded, DeletedIn;
  }

  lemma MaxOfMonotone(a: set<nat>, b: set<nat>)
    requires forall x :: x in a ==> Met(x, b)
    ensures MaxOf(a) <= MaxOf(b)
  {
    if a != {} {
      var y :| y in b && MaxOf(a) <= y;
    }
  }

  lemma RowRevisionLater<Body>(t: Table<Body>, u: Table<Body>, tombstones: map<(Id, Id), Tombstone>, kind: EntityKind,
                               user: Id, book: Id, id: Id)
    requires TableEvolves(t, u) && DeletionsRecorded(u, tombstones, kind)
    requires FindRow(t, id, user, book).Some?
    ensures id in LiveIds(u, user, book) || (id in DeletedIds(u, user, book) && (user, id) in tombstones
                                             && tombstones[(user, id)].revision == u.rows[id].revision)
    ensures t.rows[id].revision <= u.rows[id].revision
  {
    assert RowEvolves(t.rows[id], u.rows[id]);
  }

  // Every revision a snapshot has seen of one kind is met or passed by a later snapshot.
  ghost predicate Met(x: nat, later: set<nat>) {
    exists y :: y in later && x <= y
  }

  lemma RevisionOfLaterRow<Body>(a: Db, b: Db, t: Table<Body>, u: Table<Body>, kind: EntityKind, subject: Id, book: Id, id: Id)
    requires TableEvolves(t, u) && DeletionsRecorded(u, b.tombstones, kind) && FindRow(t, id, subject, book).Some?
    requires forall i :: i in LiveIds(u, subject, book) ==> u.rows[i].revision in Revisions(b, subject, book)
    requires forall i :: i in DeletedIds(u, subject, book) && (subject, i) in b.tombstones ==>
               b.tombstones[(subject, i)].revision in Revisions(b, subject, book)
    ensures Met(t.rows[id].revision, Revisions(b, subject, book))
  {
    hide Revisions;
    RowRevisionLater(t, u, b.tombstones, kind, subject, book, id);
    assert u.rows[id].revision in Revisions(b, subject, book);
  }

  lemma RevisionsHoldRows(db: Db, subject: Id, book: Id)
    ensures forall i :: i in LiveIds(db.bookmarks, subject, book) ==>
              db.bookmarks.rows[i].revision in Revisions(db, subject, book)
    ensures forall i :: i in LiveIds(db.highlights, subject, book) ==>
              db.highlights.rows[i].revision in Revisions(db, subject, book)
    ensures forall i :: i in DeletedIds(db.bookmarks, subject, book) && (subject, i) in db.tombstones ==>
              db.tombstones[(subject, i)].revision in Revisions(db, subject, book)
    ensures forall i :: i in DeletedIds(db.highlights, subject, book) && (subject, i) in db.tombstones ==>
              db.tombstones[(subject, i)].revision in Revisions(db, subject, book)
    ensures forall i :: i in CopyIds(db, subject, book) ==> db.copies[i].revision in Revisions(db, subject, book)
  {
    hide LiveIds, DeletedIds, CopyIds;
    var stones := ScopedTombstones(db, subject, book);
    forall i | i in DeletedIds(db.bookmarks, subject, book) + DeletedIds(db.highlights, subject, book) && (subject, i) in db.tombstones
      ensures db.tombstones[(subject, i)].revision in Revisions(db, subject, book)
    {
      assert i in stones && stones[i] == db.tombstones[(subject, i)];
    }
  }

  // Where a revision of a snapshot comes from.
  lemma RevisionSource(db: Db, subject: Id, book: Id, x: nat)
    requires Inv(db) && x in Revisions(db, subject, book)
    ensures || (exists id :: FindRow(db.bookmarks, id, subject, book).Some? && db.bookmarks.rows[id].revision == x)
            || (exists id :: FindRow(db.highlights, id, subject, book).Some? && db.highlights.rows[id].revision == x)
            || (exists id :: id in CopyIds(db, subject, book) && db.copies[id].revision == x)
  {
    hide TableOk;
    if id :| id in ScopedTombstones(db, subject, book) && ScopedTombstones(db, subject, book)[id].revision == x {
      if id in DeletedIds(db.bookmarks, subject, book) { assert db.bookmarks.rows[id].revision == x; }
      else { assert db.highlights.rows[id].revision == x; }
    }
  }

  lemma RevisionMet(a: Db, b: Db, subject: Id, book: Id, x: nat)
    requires Inv(a) && Inv(b) && Evolves(a, b) && x in Revisions(a, subject, book)
    ensures Met(x, Revisions(b, subject, book))
  {
    hide Revisions, LiveIds, DeletedIds, TableOk, TableEvolves, DeletionsRecorded, DeletedIn, ReceiptsOk, ProgressEvolves;
    RevisionSource(a, subject, book, x);
    RevisionsHoldRows(b, subject, book);
    if id :| FindRow(a.bookmarks, id, subject, book).Some? && a.bookmarks.rows[id].revision == x {
      RevisionOfLaterRow(a, b, a.bookmarks, b.bookmarks, BookmarkKind, subject, book, id);
    } else if id :| FindRow(a.highlights, id, subject, book).Some? && a.highlights.rows[id].revision == x {
      RevisionOfLaterRow(a, b, a.highlights, b.highlights, AnnotationKind, subject, book, id);
    } else {
      var id :| id in CopyIds(a, subject, book) && a.copies[id].revision == x;
      assert CopyEvolves(a.copies[id], b.copies[id]);
    }
  }

  // The watermark is the highest revision the snapshot shows, and 0 when it shows nothing.
  lemma WatermarkIsHighest(db: Db, subject: Id, book: Id)
    requires Inv(db)
    ensures var s := TakeSnapshot(db, subject, book);
            && (forall id :: id in LiveIds(db.bookmarks, subject, book) ==> db.bookmarks.rows[id].revision <= s.revision)
            && (forall id :: id in LiveIds(db.highlights, subject, book) ==> db.highlights.rows[id].revision <= s.revision)
            && (forall id :: id in s.tombstones ==> s.tombstones[id].revision <= s.revision)
            && (forall id :: id in s.copies ==> s.copies[id].revision <= s.revision)
            && (s.revision == 0
                || (exists id :: FindRow(db.bookmarks, id, subject, book).Some? && db.bookmarks.rows[id].revision == s.revision)
                || (exists id :: FindRow(db.highlights, id, subject, book).Some? && db.highlights.rows[id].revision == s.revision)
                || (exists id :: id in s.copies && s.copies[id].revision == s.revision))
  {
    hide Inv, LiveIds, DeletedIds, FindRow, BookmarkView, HighlightView;
    var revisions := Revisions(db, subject, book);
    RevisionsHoldRows(db, subject, book);
    if revisions != {} {
      RevisionSource(db, subject, book, MaxOf(revisions));
      if id :| id in CopyIds(db, subject, book) && db.copies[id].revision == MaxOf(revisions) {
        assert id in TakeSnapshot(db, subject, book).copies;
      }
    }
    var stones := ScopedTombstones(db, subject, book);
    forall id | id in stones ensures stones[id].revision in revisions {}
    hide Revisions, ScopedTombstones;
  }

  // The watermark never goes back, whatever happened in between.
  lemma WatermarkNeverDecreases(a: Db, b: Db, subject: Id, book: Id)
    requires Inv(a) && Inv(b) && Evolves(a, b)
    ensures TakeSnapshot(a, subject, book).revision <= TakeSnapshot(b, subject, book).revision
  {
    hide Inv, Evolves, Revisions;
    forall x | x in Revisions(a, subject, book) ensures Met(x, Revisions(b, subject, book)) {
      RevisionMet(a, b, subject, book, x);
    }
    MaxOfMonotone(Revisions(a, subject, book), Revisions(b, subject, book));
  }

  // A progress write, even a racing one, changes nothing a snapshot shows.
  lemma ProgressLeavesSnapshots(seen: Db, db: Db, request: Request, pageCount: Option<nat>, now: Time, subject: Id, book: Id)
    requires request.payload.action.SetProgress?
    requires Commit(seen, db, request, pageCount, now).Done?
    ensures TakeSnapshot(Commit(seen, db, request, pageCount, now).db, subject, book) == TakeSnapshot(db, subject, book)
  {
    hide TakeSnapshot, CompletedAtFor, ProgressView, EmptyProgressView;
    SnapshotIgnoresProgress(db, Commit(seen, db, request, pageCount, now).db, subject, book);
  }

  lemma SnapshotIgnoresProgress(db: Db, after: Db, subject: Id, book: Id)
    requires after.bookmarks == db.bookmarks && after.highlights == db.highlights
    requires after.tombstones == db.tombstones && after.copies == db.copies
    ensures TakeSnapshot(after, subject, book) == TakeSnapshot(db, subject, book)
  {
    hide MaxOf, LiveIds, DeletedIds, BookmarkView, HighlightView;
    assert ScopedTombstones(after, subject, book) == ScopedTombstones(db, subject, book);
    assert CopyIds(after, subject, book) == CopyIds(db, subject, book);
    assert Revisions(after, subject, book) == Revisions(db, subject, book);
  }
}
