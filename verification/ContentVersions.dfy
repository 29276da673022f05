// Concurrent conversions of books: reserve a version number, write page assets one by one, then commit or release.
// Workers may stop at any point.
module ContentVersions {
  import opened Prelude
  import opened Text
  import opened ContentModel

  // A row of the current-page projection: what readers online see.
  datatype PageRow = PageRow(index: nat, assetKey: string, textKey: Option<string>, mimeType: Option<string>,
                             width: Option<nat>, height: Option<nat>)

  // `counter` is the column that reservations increment. `shown` is history: the version whose pages the projection
  // was last taken from, 0 while it is none of ours.
  datatype Book = Book(counter: nat, ready: bool, pageCount: nat, projection: seq<PageRow>, shown: nat)

  // A live job: it has put `written` assets, two for each page, or it has failed and still has to release its number.
  datatype Phase = Converting(document: Document, written: nat) | Failing

  datatype Job = Job(book: BookId, version: nat, phase: Phase)

  datatype World = World(
    books: map<BookId, Book>,
    versions: map<(BookId, nat), Version>,
    storage: map<string, Bytes>,
    jobs: map<nat, Job>,
    nextPageId: nat)

  datatype Event =
    | Reserve(worker: nat, book: BookId, document: Document)
    | Put(worker: nat)
    | Fail(worker: nat)       // rendering, storage or database error
    | CommitVersion(worker: nat)
    | Release(worker: nat)
    | Crash(worker: nat)      // the worker stops for good and releases nothing

  // The k-th asset a job writes: the frame and then the text layer of each page in turn.
  function PageOf(k: nat): nat { k / 2 + 1 }

  function KindOf(k: nat): Kind { if k % 2 == 0 then Frame else Layer }

  function AssetKey(book: BookId, version: nat, k: nat): string {
    AssetPath(book, version, PageOf(k), KindOf(k))
  }

  function AssetBytes(document: Document, k: nat): Bytes
    requires k < 2 * |document|
  {
    document[k / 2].Asset(KindOf(k))
  }

  function Record(book: BookId, version: nat, id: nat, index: nat, page: SourcePage): PageRecord {
    PageRecord(Dec(id), index, AssetPath(book, version, index, Frame), Some(AssetPath(book, version, index, Layer)), true,
               Some("image/png"), Some(page.width), Some(page.height),
               Some(|page.frame|), Some(Sha256(page.frame)), Some(|page.text|), Some(Sha256(page.text)))
  }

  function Records(book: BookId, version: nat, firstId: nat, document: seq<SourcePage>): (r: seq<PageRecord>)
    ensures |r| == |document|
    ensures forall i :: 0 <= i < |r| ==> r[i] == Record(book, version, firstId + i, i + 1, document[i])
  {
    if document == [] then [] else
      var most := document[..|document| - 1];
      Records(book, version, firstId, most) + [Record(book, version, firstId + |most|, |document|, document[|most|])]
  }

  function Row(p: PageRecord): PageRow {
    PageRow(p.index, p.assetKey, p.textKey, p.mimeType, p.width, p.height)
  }

  function Projection(pages: seq<PageRecord>): (rows: seq<PageRow>)
    ensures |rows| == |pages| && forall i :: 0 <= i < |rows| ==> rows[i] == Row(pages[i])
  {
    seq(|pages|, i requires 0 <= i < |pages| => Row(pages[i]))
  }

  function SetPhase(w: World, worker: nat, phase: Phase): World
    requires worker in w.jobs
  {
    w.(jobs := w.jobs[worker := w.jobs[worker].(phase := phase)])
  }

  function Without(w: World, worker: nat): World {
    w.(jobs := w.jobs - {worker})
  }

  // The commit transaction: only the newest reservation swaps the projection, then the version row is inserted
  // under its unique key, or everything is undone.
  function Committed(w: World, worker: nat): World
    requires worker in w.jobs && w.jobs[worker].phase.Converting?
  {
    var Job(book, version, Converting(document, _)) := w.jobs[worker];
    if book !in w.books || (book, version) in w.versions then SetPhase(w, worker, Failing)
    else
      var pages := Records(book, version, w.nextPageId, document);
      var b := w.books[book];
      var swapped := if b.counter == version
                     then b.(ready := true, pageCount := |document|, projection := Projection(pages), shown := version)
                     else b;
      Without(w, worker).(books := w.books[book := swapped],
                          versions := w.versions[(book, version) := Version(|document|, true, pages)],
                          nextPageId := w.nextPageId + |document|)
  }

  function Released(w: World, worker: nat): World
    requires worker in w.jobs
  {
    var Job(book, version, _) := w.jobs[worker];
    if book in w.books && w.books[book].counter == version && 0 < version
    then Without(w, worker).(books := w.books[book := w.books[book].(counter := version - 1)])
    else Without(w, worker)
  }

  // An event that does not apply does nothing.
  function Next(w: World, e: Event): World {
    match e
    case Reserve(worker, book, document) =>
      if worker in w.jobs || book !in w.books then w else
        var counter := w.books[book].counter + 1;
        w.(books := w.books[book := w.books[book].(counter := counter)],
           jobs := w.jobs[worker := Job(book, counter, Converting(document, 0))])
    case Put(worker) =>
      if worker in w.jobs && w.jobs[worker].phase.Converting? && w.jobs[worker].phase.written < 2 * |w.jobs[worker].phase.document| then
        var Job(book, version, Converting(document, k)) := w.jobs[worker];
        SetPhase(w, worker, Converting(document, k + 1)).(
          storage := w.storage[AssetKey(book, version, k) := AssetBytes(document, k)])
      else w
    case Fail(worker) => if worker in w.jobs then SetPhase(w, worker, Failing) else w
    case CommitVersion(worker) =>
      if worker in w.jobs && w.jobs[worker].phase.Converting? && w.jobs[worker].phase.written == 2 * |w.jobs[worker].phase.document|
      then Committed(w, worker) else w
    case Release(worker) => if worker in w.jobs && w.jobs[worker].phase.Failing? then Released(w, worker) else w
    case Crash(worker) => Without(w, worker)
  }

  function Run(w: World, events: seq<Event>): World {
    if events == [] then w else Next(Run(w, events[..|events| - 1]), events[|events| - 1])
  }

  // ── The invariant ──

  // An asset is stored under its key with exactly the recorded length and digest.
  ghost predicate AssetStored(storage: map<string, Bytes>, key: string, length: Option<nat>, digest: Option<Digest>) {
    key in storage && length == Some(|storage[key]|) && digest == Some(Sha256(storage[key]))
  }

  ghost predicate PageStored(storage: map<string, Bytes>, book: BookId, version: nat, p: PageRecord) {
    && p.assetKey == AssetPath(book, version, p.index, Frame) && p.textKey == Some(AssetPath(book, version, p.index, Layer))
    && AssetStored(storage, p.assetKey, p.frameByteLength, p.frameSha256)
    && AssetStored(storage, p.textKey.value, p.textByteLength, p.textSha256)
  }

  ghost predicate VersionStored(storage: map<string, Bytes>, book: BookId, version: nat, v: Version) {
    v.eligible ==> forall i :: 0 <= i < |v.pages| ==> PageStored(storage, book, version, v.pages[i])
  }

  ghost predicate JobStored(storage: map<string, Bytes>, j: Job) {
    j.phase.Converting? ==>
      && j.phase.written <= 2 * |j.phase.document|
      && forall k :: 0 <= k < j.phase.written ==>
           AssetKey(j.book, j.version, k) in storage
           && storage[AssetKey(j.book, j.version, k)] == AssetBytes(j.phase.document, k)
  }

  // Live and committed numbers of a book are pairwise distinct and at most its counter.
  ghost predicate NumbersOk(w: World) {
    && (forall k :: k in w.versions ==> k.0 in w.books && k.1 <= w.books[k.0].counter)
    && (forall x :: x in w.jobs ==>
          && w.jobs[x].book in w.books && 1 <= w.jobs[x].version <= w.books[w.jobs[x].book].counter
          && (w.jobs[x].book, w.jobs[x].version) !in w.versions)
    && (forall x, y :: x in w.jobs && y in w.jobs && x != y && w.jobs[x].book == w.jobs[y].book ==>
          w.jobs[x].version != w.jobs[y].version)
  }

  ghost predicate BytesOk(w: World) {
    && (forall k :: k in w.versions ==> VersionStored(w.storage, k.0, k.1, w.versions[k]))
    && (forall x :: x in w.jobs ==> JobStored(w.storage, w.jobs[x]))
  }

  // The projection of a book shows the pages of one committed version.
  ghost predicate ProjectionOk(w: World) {
    forall b :: b in w.books && 0 < w.books[b].shown ==>
      && (b, w.books[b].shown) in w.versions
      && w.books[b].projection == Projection(w.versions[(b, w.books[b].shown)].pages)
  }

  ghost predicate Inv(w: World) {
    NumbersOk(w) && BytesOk(w) && ProjectionOk(w)
  }

  // What one step may change for good: versions are only added, and no stored asset of an eligible one changes.
  ghost predicate Keeps(w: World, v: World) {
    && (forall k :: k in w.versions ==> k in v.versions && v.versions[k] == w.versions[k])
    && (forall k, i, kind :: k in w.versions && AssetPath(k.0, k.1, i, kind) in w.storage ==>
          AssetPath(k.0, k.1, i, kind) in v.storage
          && v.storage[AssetPath(k.0, k.1, i, kind)] == w.storage[AssetPath(k.0, k.1, i, kind)])
    && (forall b :: b in w.books ==>
          && b in v.books && w.books[b].shown <= v.books[b].shown
          && (w.books[b].shown == v.books[b].shown ==> v.books[b].projection == w.books[b].projection))
  }

  // Writing for one number leaves every asset of another number alone.
  lemma PutElsewhere(book: BookId, version: nat, k: nat, c: BookId, w: nat, i: nat, kind: Kind)
    requires book != c || version != w
    ensures AssetKey(book, version, k) != AssetPath(c, w, i, kind)
  {
    if AssetKey(book, version, k) == AssetPath(c, w, i, kind) {
      AssetPathInjective(book, version, PageOf(k), KindOf(k), c, w, i, kind);
    }
  }

  lemma PutOtherAsset(book: BookId, version: nat, k: nat, l: nat)
    requires k != l
    ensures AssetKey(book, version, k) != AssetKey(book, version, l)
  {
    if AssetKey(book, version, k) == AssetKey(book, version, l) {
      AssetPathInjective(book, version, PageOf(k), KindOf(k), book, version, PageOf(l), KindOf(l));
    }
  }

  lemma PutStep(w: World, worker: nat)
    requires Inv(w)
    ensures Inv(Next(w, Put(worker))) && Keeps(w, Next(w, Put(worker)))
  {
    hide AssetPath, NumbersOk, ProjectionOk;
    var v := Next(w, Put(worker));
    if v != w {
      var Job(book, version, Converting(document, n)) := w.jobs[worker];
      PutNumbers(w, worker);
      forall k, i, kind | k in w.versions ensures AssetKey(book, version, n) != AssetPath(k.0, k.1, i, kind) {
        WorkerNumber(w, worker, k);
        PutElsewhere(book, version, n, k.0, k.1, i, kind);
      }
      forall x | x in v.jobs ensures JobStored(v.storage, v.jobs[x]) {
        assert JobStored(w.storage, w.jobs[x]);
        if x == worker {
          forall k | 0 <= k < n ensures AssetKey(book, version, k) != AssetKey(book, version, n) {
            PutOtherAsset(book, version, k, n);
          }
        } else {
          OtherNumber(w, worker, x);
          forall k: nat ensures AssetKey(book, version, n) != AssetKey(w.jobs[x].book, w.jobs[x].version, k) {
            PutElsewhere(book, version, n, w.jobs[x].book, w.jobs[x].version, PageOf(k), KindOf(k));
          }
        }
      }
      forall k | k in v.versions ensures VersionStored(v.storage, k.0, k.1, v.versions[k]) {
        assert VersionStored(w.storage, k.0, k.1, w.versions[k]);
      }
    }
  }

  lemma WorkerNumber(w: World, worker: nat, k: (BookId, nat))
    requires NumbersOk(w) && worker in w.jobs && k in w.versions
    ensures w.jobs[worker].book != k.0 || w.jobs[worker].version != k.1
  {
  }

  lemma OtherNumber(w: World, x: nat, y: nat)
    requires NumbersOk(w) && x in w.jobs && y in w.jobs && x != y
    ensures w.jobs[x].book != w.jobs[y].book || w.jobs[x].version != w.jobs[y].version
  {
  }

  lemma PutNumbers(w: World, worker: nat)
    requires NumbersOk(w) && ProjectionOk(w)
    ensures NumbersOk(Next(w, Put(worker))) && ProjectionOk(Next(w, Put(worker)))
  {
    hide AssetKey;
  }

  // A job that wrote everything has stored exactly what its version will record.
  lemma FinishedJobStored(storage: map<string, Bytes>, j: Job, firstId: nat)
    requires JobStored(storage, j) && j.phase.Converting? && j.phase.written == 2 * |j.phase.document|
    ensures VersionStored(storage, j.book, j.version,
                          Version(|j.phase.document|, true, Records(j.book, j.version, firstId, j.phase.document)))
  {
    hide AssetPath, Record, Records, PageStored, JobStored;
    var pages := Records(j.book, j.version, firstId, j.phase.document);
    forall i | 0 <= i < |pages| ensures PageStored(storage, j.book, j.version, pages[i]) {
      FinishedPageStored(storage, j, firstId + i, i);
    }
  }

  lemma FinishedPageStored(storage: map<string, Bytes>, j: Job, id: nat, i: nat)
    requires JobStored(storage, j) && j.phase.Converting? && j.phase.written == 2 * |j.phase.document| && i < |j.phase.document|
    ensures PageStored(storage, j.book, j.version, Record(j.book, j.version, id, i + 1, j.phase.document[i]))
  {
    hide AssetPath, Dec;
    assert AssetKey(j.book, j.version, 2 * i) in storage;
    assert AssetKey(j.book, j.version, 2 * i + 1) in storage;
  }

  // The version insert never collides: a finished job always commits.
  lemma CommitNeverCollides(w: World, worker: nat)
    requires Inv(w) && worker in w.jobs
    ensures w.jobs[worker].book in w.books && (w.jobs[worker].book, w.jobs[worker].version) !in w.versions
  {
    hide BytesOk, ProjectionOk;
  }

  // Only the counters, the numbers of live jobs and the committed numbers matter to the numbering.
  ghost predicate SameCounters(w: World, v: World) {
    && v.books.Keys == w.books.Keys
    && (forall b :: b in w.books ==> v.books[b].counter == w.books[b].counter)
  }

  ghost predicate FewerJobs(w: World, v: World) {
    forall x :: x in v.jobs ==> x in w.jobs && v.jobs[x].book == w.jobs[x].book && v.jobs[x].version == w.jobs[x].version
  }

  lemma NumbersFrame(w: World, v: World)
    requires NumbersOk(w) && SameCounters(w, v) && FewerJobs(w, v) && v.versions.Keys == w.versions.Keys
    ensures NumbersOk(v)
  {
  }

  lemma NumberMovesToCommitted(w: World, v: World, worker: nat)
    requires NumbersOk(w) && SameCounters(w, v) && worker in w.jobs && v.jobs == w.jobs - {worker}
    requires v.versions.Keys == w.versions.Keys + {(w.jobs[worker].book, w.jobs[worker].version)}
    ensures NumbersOk(v)
  {
  }

  lemma CommitNumbers(w: World, worker: nat)
    requires NumbersOk(w) && ProjectionOk(w) && worker in w.jobs && w.jobs[worker].phase.Converting?
    ensures NumbersOk(Committed(w, worker)) && ProjectionOk(Committed(w, worker))
    ensures SameCounters(w, Committed(w, worker))
    ensures forall b :: b in w.books ==>
              var v := Committed(w, worker); b in v.books && (v.books[b] == w.books[b] || w.books[b].shown < v.books[b].shown)
  {
    hide Records, Projection, NumbersOk;
    CommitNeverCollidesHere(w, worker);
    var v := Committed(w, worker);
    assert SameCounters(w, v);
    NumberMovesToCommitted(w, v, worker);
    SwapGoesForward(w, worker);
  }

  lemma CommitNeverCollidesHere(w: World, worker: nat)
    requires NumbersOk(w) && worker in w.jobs
    ensures w.jobs[worker].book in w.books && 1 <= w.jobs[worker].version
    ensures (w.jobs[worker].book, w.jobs[worker].version) !in w.versions
  {
  }

  lemma SwapGoesForward(w: World, worker: nat)
    requires NumbersOk(w) && ProjectionOk(w) && worker in w.jobs
    ensures var Job(book, version, _) := w.jobs[worker];
            book in w.books && (w.books[book].counter == version ==> w.books[book].shown < version)
  {
    hide Projection;
  }

  lemma CommitStep(w: World, worker: nat)
    requires Inv(w)
    ensures Inv(Next(w, CommitVersion(worker))) && Keeps(w, Next(w, CommitVersion(worker)))
  {
    var v := Next(w, CommitVersion(worker));
    hide NumbersOk, ProjectionOk, VersionStored, JobStored, AssetPath, Records, Projection;
    if v != w {
      var job := w.jobs[worker];
      CommitNumbers(w, worker);
      CommitNeverCollides(w, worker);
      assert JobStored(w.storage, job);
      FinishedJobStored(w.storage, job, w.nextPageId);
      assert BytesOk(v);
    }
  }

  lemma ReserveNumbers(w: World, e: Event)
    requires NumbersOk(w) && e.Reserve?
    ensures NumbersOk(Next(w, e))
  {
  }

  lemma ReleaseNumbers(w: World, worker: nat)
    requires NumbersOk(w) && worker in w.jobs
    ensures NumbersOk(Released(w, worker))
  {
  }

  lemma OtherNumbers(w: World, e: Event)
    requires NumbersOk(w) && !e.Put? && !e.CommitVersion?
    ensures NumbersOk(Next(w, e))
  {
    hide NumbersOk;
    match e
    case Reserve(_, _, _) => ReserveNumbers(w, e);
    case Release(worker) => if worker in w.jobs { ReleaseNumbers(w, worker); }
    case _ => NumbersFrame(w, Next(w, e));
  }

  ghost predicate CountersOnly(w: World, v: World) {
    && v.storage == w.storage && v.versions == w.versions && v.books.Keys == w.books.Keys
    && forall b :: b in w.books ==> v.books[b] == w.books[b].(counter := v.books[b].counter)
  }

  lemma CountersOnlyFrame(w: World, v: World)
    requires Inv(w) && NumbersOk(v) && CountersOnly(w, v)
    requires forall x :: x in v.jobs ==> JobStored(v.storage, v.jobs[x])
    ensures Inv(v) && Keeps(w, v)
  {
    hide NumbersOk, AssetPath, AssetKey, JobStored, VersionStored, Projection;
  }

  lemma OtherJobsStored(w: World, e: Event)
    requires !e.Put? && !e.CommitVersion?
    requires forall x :: x in w.jobs ==> JobStored(w.storage, w.jobs[x])
    ensures forall x :: x in Next(w, e).jobs ==> JobStored(Next(w, e).storage, Next(w, e).jobs[x])
  {
    hide AssetKey, AssetBytes;
    forall x | x in Next(w, e).jobs ensures JobStored(Next(w, e).storage, Next(w, e).jobs[x]) {
      if x in w.jobs { assert JobStored(w.storage, w.jobs[x]); }
    }
  }

  lemma OtherCountersOnly(w: World, e: Event)
    requires !e.Put? && !e.CommitVersion?
    ensures CountersOnly(w, Next(w, e))
  {
  }

  lemma OtherStep(w: World, e: Event)
    requires Inv(w) && !e.Put? && !e.CommitVersion?
    ensures Inv(Next(w, e)) && Keeps(w, Next(w, e))
  {
    hide NumbersOk, ProjectionOk, JobStored, VersionStored, Next, Keeps, CountersOnly;
    OtherNumbers(w, e);
    OtherJobsStored(w, e);
    OtherCountersOnly(w, e);
    CountersOnlyFrame(w, Next(w, e));
  }

  lemma NextOk(w: World, e: Event)
    requires Inv(w)
    ensures Inv(Next(w, e)) && Keeps(w, Next(w, e))
  {
    hide Inv, Keeps, Next;
    match e
    case Put(worker) => PutStep(w, worker);
    case CommitVersion(worker) => CommitStep(w, worker);
    case _ => OtherStep(w, e);
  }

  // Over every interleaving of reserve, page write, commit, failure, release and crash: live and committed numbers of a
  // book stay pairwise distinct and at most its counter, every committed asset stays stored with its recorded length and
  // digest, and the projection of a book shows one committed version.
  lemma {:induction false} RunOk(w: World, events: seq<Event>)
    requires Inv(w)
    ensures Inv(Run(w, events))
  {
    hide Inv, Keeps, Next;
    if events != [] {
      RunOk(w, events[..|events| - 1]);
      NextOk(Run(w, events[..|events| - 1]), events[|events| - 1]);
    }
  }

  lemma KeepsTransitive(a: World, b: World, c: World)
    requires Keeps(a, b) && Keeps(b, c)
    ensures Keeps(a, c)
  {
    hide AssetPath;
  }

  // From any point of a run to any later one no committed version changes, none of its stored bytes is overwritten,
  // and the projection of a book only ever moves to a higher version.
  lemma {:induction false} CommittedBytesAreNeverOverwritten(w: World, events: seq<Event>, more: seq<Event>)
    requires Inv(w)
    ensures Keeps(Run(w, events), Run(w, events + more))
    decreases |more|
  {
    hide Inv, Next;
    if more == [] {
      assert events + more == events;
      hide AssetPath;
    } else {
      var most, e := more[..|more| - 1], more[|more| - 1];
      assert (events + more)[..|events + more| - 1] == events + most && (events + more)[|events + more| - 1] == e;
      hide Keeps;
      CommittedBytesAreNeverOverwritten(w, events, most);
      RunOk(w, events + most);
      NextOk(Run(w, events + most), e);
      KeepsTransitive(Run(w, events), Run(w, events + most), Run(w, events + more));
    }
  }

  // What a version records of page `i`: its place, its two storage keys, its size, and length and digest of its assets.
  predicate RecordsPage(p: PageRecord, book: BookId, version: nat, id: nat, i: nat, page: SourcePage) {
    && p.id == Dec(id) && p.index == i + 1
    && p.assetKey == AssetPath(book, version, i + 1, Frame) && p.textKey == Some(AssetPath(book, version, i + 1, Layer))
    && p.hasTextLayer && p.mimeType == Some("image/png") && p.width == Some(page.width) && p.height == Some(page.height)
    && p.frameByteLength == Some(|page.frame|) && p.frameSha256 == Some(Sha256(page.frame))
    && p.textByteLength == Some(|page.text|) && p.textSha256 == Some(Sha256(page.text))
  }

  // What online readers are shown of page `i`, and that its image and its text layer are stored where they are told.
  predicate ShowsPage(row: PageRow, storage: map<string, Bytes>, book: BookId, version: nat, i: nat, page: SourcePage) {
    var frameKey, textKey := AssetPath(book, version, i + 1, Frame), AssetPath(book, version, i + 1, Layer);
    && row.index == i + 1 && row.assetKey == frameKey && row.textKey == Some(textKey)
    && row.mimeType == Some("image/png") && row.width == Some(page.width) && row.height == Some(page.height)
    && frameKey in storage && storage[frameKey] == page.frame
    && textKey in storage && storage[textKey] == page.text
  }

  // A finished job whose reservation is still the newest swaps the projection to its own, strictly higher version;
  // one that was overtaken records its version and leaves the projection alone. Either way nothing else changes.
  lemma CommitSwapsOnlyForward(w: World, worker: nat)
    requires Inv(w) && worker in w.jobs
    requires w.jobs[worker].phase.Converting? && w.jobs[worker].phase.written == 2 * |w.jobs[worker].phase.document|
    ensures var Job(book, version, Converting(document, _)) := w.jobs[worker];
            var v := Next(w, CommitVersion(worker));
            && v.jobs == w.jobs - {worker} && v.storage == w.storage && v.nextPageId == w.nextPageId + |document|
            && (book, version) in v.versions && v.versions == w.versions[(book, version) := v.versions[(book, version)]]
            && var Version(pageCount, eligible, pages) := v.versions[(book, version)];
               && pageCount == |document| == |pages| && eligible
               && (forall i :: 0 <= i < |pages| ==> RecordsPage(pages[i], book, version, w.nextPageId + i, i, document[i]))
    ensures var Job(book, version, Converting(document, _)) := w.jobs[worker];
            var v := Next(w, CommitVersion(worker));
            if w.books[book].counter == version then
              && w.books[book].shown < version
              && v.books == w.books[book := Book(version, true, |document|, v.books[book].projection, version)]
              && |v.books[book].projection| == |document|
              && forall i :: 0 <= i < |document| ==> ShowsPage(v.books[book].projection[i], v.storage, book, version, i, document[i])
            else v.books == w.books
  {
    hide Inv, Next, AssetPath, Records, Projection, JobStored, RecordsPage, ShowsPage;
    FinishedCommit(w, worker);
    JobIsStored(w, worker);
    var Job(book, version, Converting(document, _)) := w.jobs[worker];
    AllPagesShown(w.storage, book, version, w.nextPageId, document);
  }

  // The commit of a finished job, whose version insert never collides.
  lemma FinishedCommit(w: World, worker: nat)
    requires Inv(w) && worker in w.jobs
    requires w.jobs[worker].phase.Converting? && w.jobs[worker].phase.written == 2 * |w.jobs[worker].phase.document|
    ensures var Job(book, version, Converting(document, _)) := w.jobs[worker];
            var pages := Records(book, version, w.nextPageId, document);
            var v := Next(w, CommitVersion(worker));
            && book in w.books && (w.books[book].counter == version ==> w.books[book].shown < version)
            && v.jobs == w.jobs - {worker} && v.storage == w.storage && v.nextPageId == w.nextPageId + |document|
            && v.versions == w.versions[(book, version) := Version(|document|, true, pages)]
            && v.books == if w.books[book].counter == version
                          then w.books[book := Book(version, true, |document|, Projection(pages), version)] else w.books
  {
    CommitNeverCollides(w, worker);
    SwapGoesForward(w, worker);
    hide Inv, Records, Projection;
  }

  lemma JobIsStored(w: World, worker: nat)
    requires Inv(w) && worker in w.jobs
    ensures JobStored(w.storage, w.jobs[worker])
  {
  }

  lemma AllPagesShown(storage: map<string, Bytes>, book: BookId, version: nat, firstId: nat, document: Document)
    requires JobStored(storage, Job(book, version, Converting(document, 2 * |document|)))
    ensures var pages := Records(book, version, firstId, document);
            forall i :: 0 <= i < |document| ==>
              && RecordsPage(pages[i], book, version, firstId + i, i, document[i])
              && ShowsPage(Projection(pages)[i], storage, book, version, i, document[i])
  {
    hide AssetPath, Record, Row, RecordsPage, ShowsPage, JobStored, Records;
    forall i | 0 <= i < |document|
      ensures RecordsPage(Records(book, version, firstId, document)[i], book, version, firstId + i, i, document[i])
      ensures ShowsPage(Projection(Records(book, version, firstId, document))[i], storage, book, version, i, document[i])
    {
      PageShown(storage, book, version, firstId + i, document, i);
    }
  }

  lemma PageShown(storage: map<string, Bytes>, book: BookId, version: nat, id: nat, document: Document, i: nat)
    requires JobStored(storage, Job(book, version, Converting(document, 2 * |document|))) && i < |document|
    ensures RecordsPage(Record(book, version, id, i + 1, document[i]), book, version, id, i, document[i])
    ensures ShowsPage(Row(Record(book, version, id, i + 1, document[i])), storage, book, version, i, document[i])
  {
    hide AssetPath;
    assert AssetKey(book, version, 2 * i) in storage && storage[AssetKey(book, version, 2 * i)] == AssetBytes(document, 2 * i);
    assert AssetKey(book, version, 2 * i + 1) in storage && storage[AssetKey(book, version, 2 * i + 1)] == AssetBytes(document, 2 * i + 1);
  }

  // What every other step does. A reservation raises the counter by one and starts a job under the new number; a put stores
  // the next asset of its document, the frame and then the text layer of each page in turn; a failed job gives its number
  // back exactly when no later one has been reserved; a crash leaves everything but the job.
  lemma StepOnTables(w: World, e: Event)
    ensures var v := Next(w, e);
            match e
            case Reserve(worker, book, document) =>
              if worker in w.jobs || book !in w.books then v == w else
                var b := w.books[book];
                v == World(w.books[book := Book(b.counter + 1, b.ready, b.pageCount, b.projection, b.shown)], w.versions, w.storage,
                           w.jobs[worker := Job(book, b.counter + 1, Converting(document, 0))], w.nextPageId)
            case Put(worker) =>
              if worker !in w.jobs || w.jobs[worker].phase.Failing? then v == w else
                var Job(book, version, Converting(document, k)) := w.jobs[worker];
                if 2 * |document| <= k then v == w else
                  v == World(w.books, w.versions, NextAssetStored(w.storage, book, version, document, k),
                             w.jobs[worker := Job(book, version, Converting(document, k + 1))], w.nextPageId)
            case Fail(worker) =>
              v == if worker in w.jobs then w.(jobs := w.jobs[worker := Job(w.jobs[worker].book, w.jobs[worker].version, Failing)]) else w
            case Release(worker) =>
              if worker !in w.jobs || !w.jobs[worker].phase.Failing? then v == w else
                var Job(book, version, _) := w.jobs[worker];
                && v.jobs == w.jobs - {worker} && v.versions == w.versions && v.storage == w.storage && v.nextPageId == w.nextPageId
                && if book in w.books && w.books[book].counter == version && 1 <= version then
                     var b := w.books[book];
                     v.books == w.books[book := Book(version - 1, b.ready, b.pageCount, b.projection, b.shown)]
                   else v.books == w.books
            case Crash(worker) => v == w.(jobs := w.jobs - {worker})
            case CommitVersion(worker) =>
              worker !in w.jobs || w.jobs[worker].phase.Failing? || w.jobs[worker].phase.written < 2 * |w.jobs[worker].phase.document| ==> v == w
  {
    hide AssetPath, Records, Projection;
  }

  function NextAssetStored(storage: map<string, Bytes>, book: BookId, version: nat, document: Document, k: nat): map<string, Bytes>
    requires k < 2 * |document|
  {
    var i := k / 2;
    if k == 2 * i then storage[AssetPath(book, version, i + 1, Frame) := document[i].frame]
    else storage[AssetPath(book, version, i + 1, Layer) := document[i].text]
  }

  // ── The counter and the projection ──

  predicate Busy(w: World, book: BookId) {
    exists x :: x in w.jobs && w.jobs[x].book == book
  }

  // A worker of the book crashes, or a reservation is made while another one of the book is in flight.
  predicate Disturbs(w: World, e: Event, book: BookId) {
    match e
    case Crash(worker) => worker in w.jobs && w.jobs[worker].book == book
    case Reserve(worker, b, _) => b == book && book in w.books && worker !in w.jobs && Busy(w, book)
    case _ => false
  }

  // The version the projection shows; while it shows none of this run, the counter it started from.
  function ProjectedVersion(start: World, w: World, book: BookId): nat
    requires book in start.books && book in w.books
  {
    if w.books[book].shown == start.books[book].shown then start.books[book].counter else w.books[book].shown
  }

  ghost predicate InStep(start: World, w: World, book: BookId) {
    && book in start.books && book in w.books
    && start.books[book].shown <= w.books[book].shown <= w.books[book].counter
    && (forall x, y :: x in w.jobs && y in w.jobs && w.jobs[x].book == book && w.jobs[y].book == book ==> x == y)
    && (forall x :: x in w.jobs && w.jobs[x].book == book ==> w.jobs[x].version == w.books[book].counter)
    && (forall x :: x in w.jobs && w.jobs[x].book == book ==> start.books[book].shown < w.jobs[x].version)
    && w.books[book].counter == ProjectedVersion(start, w, book) + if Busy(w, book) then 1 else 0
  }

  lemma InStepReserve(start: World, w: World, e: Event, book: BookId)
    requires InStep(start, w, book) && e.Reserve? && !Disturbs(w, e, book)
    ensures InStep(start, Next(w, e), book)
  {
    var v := Next(w, e);
    if v != w {
      if e.book == book {
        assert e.worker in v.jobs && v.jobs[e.worker].book == book;
        assert Busy(v, book) && !Busy(w, book);
      } else {
        SameBusy(w, v, book);
      }
    }
  }

  // Jobs of `book` are the same before and after.
  lemma SameBusy(w: World, v: World, book: BookId)
    requires forall x :: x in w.jobs && w.jobs[x].book == book ==> x in v.jobs && v.jobs[x].book == book
    requires forall x :: x in v.jobs && v.jobs[x].book == book ==> x in w.jobs && w.jobs[x].book == book
    ensures Busy(w, book) == Busy(v, book)
  {
  }

  lemma InStepCommit(start: World, w: World, worker: nat, book: BookId)
    requires Inv(w) && InStep(start, w, book) && worker in w.jobs && w.jobs[worker].phase.Converting?
    ensures InStep(start, Committed(w, worker), book)
  {
    hide NumbersOk, BytesOk, ProjectionOk, Records, Projection;
    CommitNeverCollides(w, worker);
    SwapGoesForward(w, worker);
    var v := Committed(w, worker);
    if w.jobs[worker].book == book {
      assert Busy(w, book) && !Busy(v, book);
    } else {
      SameBusy(w, v, book);
    }
  }

  lemma InStepRelease(start: World, w: World, worker: nat, book: BookId)
    requires InStep(start, w, book) && worker in w.jobs
    ensures InStep(start, Released(w, worker), book)
  {
    var v := Released(w, worker);
    if w.jobs[worker].book == book {
      assert Busy(w, book) && !Busy(v, book);
    } else {
      SameBusy(w, v, book);
    }
  }

  lemma InStepPhase(start: World, w: World, v: World, book: BookId)
    requires InStep(start, w, book) && v.books == w.books && v.jobs.Keys == w.jobs.Keys && FewerJobs(w, v)
    ensures InStep(start, v, book)
  {
    SameBusy(w, v, book);
  }

  lemma InStepNext(start: World, w: World, e: Event, book: BookId)
    requires Inv(w) && InStep(start, w, book) && !Disturbs(w, e, book)
    ensures InStep(start, Next(w, e), book)
  {
    hide Inv, InStep, Committed, Released, AssetKey, AssetBytes;
    match e
    case Reserve(_, _, _) => InStepReserve(start, w, e, book);
    case CommitVersion(worker) => if Next(w, e) != w { InStepCommit(start, w, worker, book); }
    case Release(worker) => if Next(w, e) != w { InStepRelease(start, w, worker, book); }
    case Crash(worker) => if Next(w, e) != w { InStepOtherCrash(start, w, worker, book); }
    case _ => InStepPhase(start, w, Next(w, e), book);
  }

  lemma InStepOtherCrash(start: World, w: World, worker: nat, book: BookId)
    requires InStep(start, w, book) && worker in w.jobs && w.jobs[worker].book != book
    ensures InStep(start, Without(w, worker), book)
  {
    SameBusy(w, Without(w, worker), book);
  }

  // A disturbance breaks the step at once: a crash leaves the counter ahead with nothing in flight, a second reservation
  // puts two jobs in flight.
  lemma DisturbanceBreaksStep(start: World, w: World, e: Event, book: BookId)
    requires InStep(start, w, book) && Disturbs(w, e, book)
    ensures !InStep(start, Next(w, e), book)
  {
    var v := Next(w, e);
    if e.Crash? {
      assert Busy(w, book) && !Busy(v, book);
    } else {
      var x :| x in w.jobs && w.jobs[x].book == book;
      assert x in v.jobs && v.jobs[x].book == book && e.worker in v.jobs && v.jobs[e.worker].book == book;
    }
  }

  ghost predicate AlwaysInStep(start: World, events: seq<Event>, book: BookId) {
    InStep(start, Run(start, events), book) && (events != [] ==> AlwaysInStep(start, events[..|events| - 1], book))
  }

  predicate Undisturbed(start: World, events: seq<Event>, book: BookId) {
    events != [] ==>
      && Undisturbed(start, events[..|events| - 1], book)
      && !Disturbs(Run(start, events[..|events| - 1]), events[|events| - 1], book)
  }

  // From an idle start, the counter is the projection's version whenever no reservation of the book is in flight, and one
  // ahead of it while the one reservation is, at every point of a run exactly when no worker of the book crashes and no
  // reservation is made while another is in flight.
  lemma {:induction false} InStepExactlyWhenUndisturbed(w: World, events: seq<Event>, book: BookId)
    requires Inv(w) && w.jobs == map[] && book in w.books && w.books[book].shown <= w.books[book].counter
    ensures AlwaysInStep(w, events, book) <==> Undisturbed(w, events, book)
  {
    hide Inv, InStep, Next, Disturbs;
    if events == [] {
      IdleIsInStep(w, book);
    } else {
      var before, e := Run(w, events[..|events| - 1]), events[|events| - 1];
      InStepExactlyWhenUndisturbed(w, events[..|events| - 1], book);
      RunOk(w, events[..|events| - 1]);
      if AlwaysInStep(w, events[..|events| - 1], book) {
        if Disturbs(before, e, book) { DisturbanceBreaksStep(w, before, e, book); } else { InStepNext(w, before, e, book); }
      }
    }
  }

  lemma IdleIsInStep(w: World, book: BookId)
    requires w.jobs == map[] && book in w.books && w.books[book].shown <= w.books[book].counter
    ensures InStep(w, w, book)
  {
  }

  // The two meet again: whatever happened before, a finished job's commit ends with counter and projection equal
  // exactly when it holds the newest reservation or they were equal already.
  lemma CommitRestoresAgreement(w: World, worker: nat)
    requires Inv(w) && worker in w.jobs
    requires w.jobs[worker].phase.Converting? && w.jobs[worker].phase.written == 2 * |w.jobs[worker].phase.document|
    ensures var book, v := w.jobs[worker].book, Next(w, CommitVersion(worker));
            && book in w.books && book in v.books
            && (v.books[book].counter == v.books[book].shown <==>
                  w.books[book].counter == w.jobs[worker].version || w.books[book].counter == w.books[book].shown)
  {
    CommitNeverCollides(w, worker);
    CommitSwapsOnlyForward(w, worker);
    hide Inv, Records, Projection;
  }

  lemma RunSnoc(w: World, events: seq<Event>, e: Event)
    ensures Run(w, events + [e]) == Next(Run(w, events), e)
  {
    assert (events + [e])[..|events|] == events;
  }

  lemma ReservedAndCrashed(w: World, book: BookId, document: Document)
    requires w.jobs == map[] && book in w.books
    ensures var end := Next(Next(w, Reserve(0, book, document)), Crash(0));
            end.jobs == map[] && end.books == w.books[book := w.books[book].(counter := w.books[book].counter + 1)]
  {
    StepOnTables(w, Reserve(0, book, document));
    StepOnTables(Next(w, Reserve(0, book, document)), Crash(0));
    hide Next;
  }

  // A crash after a reservation leaves the counter ahead of the projection with nothing in flight.
  lemma CrashLeavesCounterAhead(w: World, book: BookId, document: Document)
    requires Inv(w) && w.jobs == map[] && book in w.books && w.books[book].counter == w.books[book].shown
    ensures var end := Run(w, [Reserve(0, book, document), Crash(0)]);
            end.jobs == map[] && book in end.books && end.books[book].counter == end.books[book].shown + 1
  {
    ReservedAndCrashed(w, book, document);
    hide Inv, Next;
    RunSnoc(w, [], Reserve(0, book, document));
    RunSnoc(w, [Reserve(0, book, document)], Crash(0));
    assert [] + [Reserve(0, book, document)] == [Reserve(0, book, document)];
    assert [Reserve(0, book, document)] + [Crash(0)] == [Reserve(0, book, document), Crash(0)];
  }

  // The job of worker 0 is overtaken by a reservation of worker 1 and commits; then worker 1 fails.
  function Overlap(book: BookId, document: Document): seq<Event> {
    [Reserve(0, book, document), Reserve(1, book, document), Put(0), Put(0), CommitVersion(0), Fail(1), Release(1)]
  }

  lemma TwoReserved(w: World, book: BookId, document: Document) returns (v: World)
    requires w.jobs == map[] && book in w.books
    ensures v == Next(Next(w, Reserve(0, book, document)), Reserve(1, book, document))
    ensures var n := w.books[book].counter;
            && v.books == w.books[book := w.books[book].(counter := n + 2)] && v.versions == w.versions
            && v.jobs == map[0 := Job(book, n + 1, Converting(document, 0)), 1 := Job(book, n + 2, Converting(document, 0))]
  {
    v := Next(Next(w, Reserve(0, book, document)), Reserve(1, book, document));
  }

  lemma OneWritten(w: World, book: BookId, n: nat, document: Document) returns (v: World)
    requires |document| == 1
    requires w.jobs == map[0 := Job(book, n + 1, Converting(document, 0)), 1 := Job(book, n + 2, Converting(document, 0))]
    ensures v == Next(Next(w, Put(0)), Put(0)) && v.books == w.books && v.versions == w.versions
    ensures v.jobs == map[0 := Job(book, n + 1, Converting(document, 2)), 1 := Job(book, n + 2, Converting(document, 0))]
  {
    hide AssetKey, AssetBytes;
    var u := Next(w, Put(0));
    assert u.jobs == map[0 := Job(book, n + 1, Converting(document, 1)), 1 := Job(book, n + 2, Converting(document, 0))];
    v := Next(u, Put(0));
  }

  lemma OvertakenCommits(w: World, book: BookId, n: nat, document: Document) returns (v: World)
    requires |document| == 1 && book in w.books && w.books[book].counter == n + 2 && (book, n + 1) !in w.versions
    requires w.jobs == map[0 := Job(book, n + 1, Converting(document, 2)), 1 := Job(book, n + 2, Converting(document, 0))]
    ensures v == Next(Next(Next(w, CommitVersion(0)), Fail(1)), Release(1)) && v.jobs == map[]
    ensures v.books == w.books[book := w.books[book].(counter := n + 1)] && (book, n + 1) in v.versions
  {
    hide Records, Projection;
    var committed := Next(w, CommitVersion(0));
    assert committed.books == w.books && (book, n + 1) in committed.versions;
    assert committed.jobs == map[1 := Job(book, n + 2, Converting(document, 0))];
    var failed := Next(committed, Fail(1));
    assert failed.jobs == map[1 := Job(book, n + 2, Failing)] && failed.books == w.books;
    v := Next(failed, Release(1));
  }

  lemma {:induction false} RunSeven(w: World, es: seq<Event>)
    requires |es| == 7
    ensures Run(w, es) == Next(Next(Next(Next(Next(Next(Next(w, es[0]), es[1]), es[2]), es[3]), es[4]), es[5]), es[6])
  {
    hide Next;
    forall n | 0 <= n < 7 ensures Run(w, es[..n + 1]) == Next(Run(w, es[..n]), es[n]) {
      RunSnoc(w, es[..n], es[n]);
      assert es[..n] + [es[n]] == es[..n + 1];
    }
    assert es[..0] == [] && es[..7] == es;
    assert Run(w, es[..1]) == Next(w, es[0]);
    assert Run(w, es[..2]) == Next(Run(w, es[..1]), es[1]);
    assert Run(w, es[..3]) == Next(Run(w, es[..2]), es[2]);
    assert Run(w, es[..4]) == Next(Run(w, es[..3]), es[3]);
    assert Run(w, es[..5]) == Next(Run(w, es[..4]), es[4]);
    assert Run(w, es[..6]) == Next(Run(w, es[..5]), es[5]);
    assert Run(w, es[..7]) == Next(Run(w, es[..6]), es[6]);
  }

  lemma NextNumberIsFree(w: World, book: BookId)
    requires Inv(w) && book in w.books
    ensures (book, w.books[book].counter + 1) !in w.versions
  {
  }

  // Without any crash, two overlapping conversions of which the later fails end idle with a committed version at the
  // counter that the projection never shows.
  lemma OverlapLeavesVersionUnshown(w: World, book: BookId, document: Document)
    requires Inv(w) && w.jobs == map[] && book in w.books && w.books[book].counter == w.books[book].shown && |document| == 1
    ensures var end := Run(w, Overlap(book, document));
            && end.jobs == map[] && book in end.books && (book, end.books[book].counter) in end.versions
            && end.books[book].counter == end.books[book].shown + 1
            && end.books[book].shown == w.books[book].shown && end.books[book].projection == w.books[book].projection
  {
    hide Inv, Next, Run, Records, Projection, AssetPath;
    var n := w.books[book].counter;
    NextNumberIsFree(w, book);
    RunSeven(w, Overlap(book, document));
    var reserved := TwoReserved(w, book, document);
    var written := OneWritten(reserved, book, n, document);
    var end := OvertakenCommits(written, book, n, document);
  }
}
