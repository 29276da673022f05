// One conversion as the worker runs it, step for step one job of the concurrent model.
module ConversionRunner {
  import opened Prelude
  import opened Text
  import opened ContentModel
  import opened ContentVersions

  lemma RunOne(w: World, e: Event)
    ensures Run(w, [e]) == Next(w, e)
  {
    assert [e][..0] == [];
  }

  function Puts(worker: nat, n: nat): seq<Event> {
    if n == 0 then [] else Puts(worker, n - 1) + [Put(worker)]
  }

  // The steps of one job: with `failsAt` the rendering of that page (counted from 0) fails.
  function JobEvents(worker: nat, book: BookId, document: Document, failsAt: Option<nat>): seq<Event> {
    if failsAt.Some? && failsAt.value < |document|
    then [Reserve(worker, book, document)] + Puts(worker, 2 * failsAt.value) + [Fail(worker)] + [Release(worker)]
    else [Reserve(worker, book, document)] + Puts(worker, 2 * |document|) + [CommitVersion(worker)] + [Release(worker)]
  }

  class Runner {
    var books: map<BookId, Book>
    var versions: map<(BookId, nat), Version>
    var storage: map<string, Bytes>
    var nextPageId: nat

    function Contents(jobs: map<nat, Job>): World
      reads this
    {
      World(books, versions, storage, jobs, nextPageId)
    }

    // No committed number is above its book's counter.
    ghost predicate Valid()
      reads this
    {
      forall k :: k in versions ==> k.0 in books && k.1 <= books[k.0].counter
    }

    lemma ValidIsNumbering()
      ensures Valid() <==> NumbersOk(Contents(map[]))
    {
    }

    // This worker's job while it converts.
    ghost function Working(worker: nat, book: BookId, version: nat, document: Document, written: nat): World
      reads this
    {
      Contents(map[worker := Job(book, version, Converting(document, written))])
    }

    method ReserveVersion(ghost worker: nat, book: BookId, ghost document: Document) returns (version: nat)
      requires book in books
      modifies this`books
      ensures Working(worker, book, version, document, 0) == Next(old(Contents(map[])), Reserve(worker, book, document))
      ensures book in books && books[book].counter == version == old(books[book].counter) + 1
    {
      version := books[book].counter + 1;
      books := books[book := books[book].(counter := version)];
      assert map[][worker := Job(book, version, Converting(document, 0))] == map[worker := Job(book, version, Converting(document, 0))];
    }

    method PutAsset(ghost worker: nat, book: BookId, version: nat, ghost document: Document, ghost k: nat, key: string, bytes: Bytes)
      requires k < 2 * |document| && key == AssetKey(book, version, k) && bytes == AssetBytes(document, k)
      modifies this`storage
      ensures Working(worker, book, version, document, k + 1) == Next(old(Working(worker, book, version, document, k)), Put(worker))
    {
      hide AssetPath;
      storage := storage[key := bytes];
      assert map[worker := Job(book, version, Converting(document, k))][worker := Job(book, version, Converting(document, k + 1))]
          == map[worker := Job(book, version, Converting(document, k + 1))];
    }

    // The per-page loop of the converter: render, store the frame, store the text layer, record both checksums.
    method Convert(ghost before: World, ghost reserved: seq<Event>, ghost worker: nat, book: BookId, version: nat,
                   document: Document, failsAt: Option<nat>)
      returns (converted: Option<seq<PageRecord>>)
      requires Working(worker, book, version, document, 0) == Run(before, reserved)
      modifies this`storage
      ensures converted.None? <==> failsAt.Some? && failsAt.value < |document|
      ensures var n := if converted.None? then failsAt.value else |document|;
              Working(worker, book, version, document, 2 * n) == Run(before, reserved + Puts(worker, 2 * n))
      ensures converted.Some? ==>
                && |converted.value| == |document|
                && forall i :: 0 <= i < |document| ==> converted.value[i] == Record(book, version, 0, i + 1, document[i]).(id := "")
    {
      hide Run, Next, AssetPath, Working;
      var pages := [];
      var index := 1;
      assert reserved + Puts(worker, 0) == reserved;
      while index <= |document|
        invariant 1 <= index <= |document| + 1 && |pages| == index - 1
        invariant failsAt.Some? ==> index - 1 <= failsAt.value || |document| <= failsAt.value
        invariant forall i :: 0 <= i < |pages| ==> pages[i] == Record(book, version, 0, i + 1, document[i]).(id := "")
        invariant Working(worker, book, version, document, 2 * (index - 1)) == Run(before, reserved + Puts(worker, 2 * (index - 1)))
      {
        if failsAt.Some? && failsAt.value == index - 1 { return None; }
        var page := document[index - 1];
        ghost var k := 2 * (index - 1);
        PutsSnoc(before, reserved, worker, k);
        PutsSnoc(before, reserved, worker, k + 1);
        PutAsset(worker, book, version, document, k, AssetPath(book, version, index, Frame), page.frame);
        PutAsset(worker, book, version, document, k + 1, AssetPath(book, version, index, Layer), page.text);
        pages := pages + [Record(book, version, 0, index, page).(id := "")];
        index := index + 1;
      }
      converted := Some(pages);
    }

    // The version row and the current projection commit together; only the newest reservation swaps the projection.
    method CommitConverted(ghost worker: nat, book: BookId, version: nat, document: Document, converted: seq<PageRecord>)
      returns (ok: bool)
      requires book in books && |converted| == |document|
      requires forall i :: 0 <= i < |document| ==> converted[i] == Record(book, version, 0, i + 1, document[i]).(id := "")
      modifies this`books, this`versions, this`nextPageId
      ensures ok <==> (book, version) !in old(versions)
      ensures ok ==> Contents(map[]) == Next(Next(old(Working(worker, book, version, document, 2 * |document|)), CommitVersion(worker)), Release(worker))
      ensures ok ==> (book, version) in versions && book in books && books[book].counter == old(books[book].counter)
                     && (old(books[book].counter) == version ==> books[book].shown == version)
      ensures !ok ==> Contents(map[]) == old(Contents(map[]))
    {
      hide AssetPath, Projection;
      if (book, version) in versions { return false; }
      var firstId := nextPageId;
      var pages := seq(|document|, i requires 0 <= i < |document| => converted[i].(id := Dec(firstId + i)));
      assert pages == Records(book, version, nextPageId, document);
      hide Records;
      if books[book].counter == version {
        books := books[book := books[book].(ready := true, pageCount := |document|, projection := Projection(pages), shown := version)];
      }
      versions := versions[(book, version) := Version(|document|, true, pages)];
      nextPageId := nextPageId + |document|;
      assert map[worker := Job(book, version, Converting(document, 2 * |document|))] - {worker} == map[];
      ok := true;
      IdleRelease(Contents(map[]), worker);
    }

    // Give the number back, unless a later reservation has been made since.
    method ReleaseVersion(ghost worker: nat, book: BookId, version: nat, ghost document: Document, ghost written: nat)
      requires book in books && 0 < version
      modifies this`books
      ensures Contents(map[]) == Next(Next(old(Working(worker, book, version, document, written)), Fail(worker)), Release(worker))
    {
      JobFails(Contents(map[]), worker, Job(book, version, Converting(document, written)));
      if books[book].counter == version {
        books := books[book := books[book].(counter := version - 1)];
      }
      assert map[worker := Job(book, version, Failing)] - {worker} == map[];
    }

    // One conversion from reservation to commit or release. When nothing else runs meanwhile, the tables and the
    // storage end as the concurrent model says for the steps of this job alone.
    method Process(ghost worker: nat, book: BookId, original: Option<Document>, failsAt: Option<nat>) returns (ok: bool)
      requires Valid()
      modifies this
      ensures (book !in old(books) || original.None?) ==> !ok && Contents(map[]) == old(Contents(map[]))
      ensures (book in old(books) && original.Some?) ==>
                && Contents(map[]) == Run(old(Contents(map[])), JobEvents(worker, book, original.value, failsAt))
                && (ok <==> failsAt.None? || |original.value| <= failsAt.value)
      ensures ok ==> book in books && (book, books[book].counter) in versions && books[book].shown == books[book].counter
      ensures Valid()
    {
      if book !in books || original.None? { return false; }
      ValidIsNumbering();
      hide Run, Next, AssetPath, Contents, Working, Record, Puts, JobEvents, NumbersOk, Valid;
      var document := original.value;
      ghost var before := Contents(map[]);
      ghost var reserved := [Reserve(worker, book, document)];
      RunOne(before, reserved[0]);

      var version := ReserveVersion(worker, book, document);
      var converted := Convert(before, reserved, worker, book, version, document, failsAt);

      ghost var n := if converted.None? then failsAt.value else |document|;
      ghost var settled := if converted.None? then Fail(worker) else CommitVersion(worker);
      RunSnoc(before, reserved + Puts(worker, 2 * n), settled);
      RunSnoc(before, reserved + Puts(worker, 2 * n) + [settled], Release(worker));
      if converted.Some? {
        ok := CommitConverted(worker, book, version, document, converted.value);
      } else {
        ReleaseVersion(worker, book, version, document, 2 * n);
        ok := false;
      }
      SettledIsJob(worker, book, document, failsAt);
      NumbersRun(before, JobEvents(worker, book, document, failsAt));
      ValidIsNumbering();
    }
  }

  lemma SettledIsJob(worker: nat, book: BookId, document: Document, failsAt: Option<nat>)
    ensures var failing := failsAt.Some? && failsAt.value < |document|;
            JobEvents(worker, book, document, failsAt)
            == [Reserve(worker, book, document)] + Puts(worker, 2 * if failing then failsAt.value else |document|)
               + [if failing then Fail(worker) else CommitVersion(worker)] + [Release(worker)]
  {
    hide Puts;
  }

  // The numbering alone is kept by every step, so one conversion can follow another.
  lemma NumbersNext(w: World, e: Event)
    requires NumbersOk(w)
    ensures NumbersOk(Next(w, e))
  {
    hide NumbersOk, AssetKey, AssetBytes, Records, Projection;
    match e
    case Put(_) => NumbersFrame(w, Next(w, e));
    case CommitVersion(worker) =>
      if Next(w, e) != w {
        CommitNeverCollidesHere(w, worker);
        NumberMovesToCommitted(w, Next(w, e), worker);
      }
    case _ => OtherNumbers(w, e);
  }

  lemma {:induction false} NumbersRun(w: World, events: seq<Event>)
    requires NumbersOk(w)
    ensures NumbersOk(Run(w, events))
  {
    hide NumbersOk, Next;
    if events != [] {
      NumbersRun(w, events[..|events| - 1]);
      NumbersNext(Run(w, events[..|events| - 1]), events[|events| - 1]);
    }
  }

  lemma IdleRelease(w: World, worker: nat)
    requires worker !in w.jobs
    ensures Next(w, Release(worker)) == w
  {
  }

  lemma JobFails(w: World, worker: nat, job: Job)
    ensures Next(w.(jobs := map[worker := job]), Fail(worker)) == w.(jobs := map[worker := job.(phase := Failing)])
  {
    assert map[worker := job][worker := job.(phase := Failing)] == map[worker := job.(phase := Failing)];
  }

  lemma PutsSnoc(before: World, reserved: seq<Event>, worker: nat, k: nat)
    ensures Run(before, reserved + Puts(worker, k + 1)) == Next(Run(before, reserved + Puts(worker, k)), Put(worker))
  {
    assert reserved + Puts(worker, k + 1) == (reserved + Puts(worker, k)) + [Put(worker)];
    RunSnoc(before, reserved + Puts(worker, k), Put(worker));
  }
}
