// The offline manifest of a version, its opaque asset ids, and the integrity-checked asset read.
module BookDownload {
  import opened Prelude
  import opened Text
  import opened ContentModel
  import opened ContentVersions
  import BackfillSweep

  datatype PageEntry = PageEntry(pageNumber: nat, imageAssetId: string, textLayerAssetId: string)

  datatype AssetEntry = AssetEntry(assetId: string, kind: Kind, pageNumber: nat, mediaType: string, byteLength: nat,
                                   sha256: Digest, width: Option<nat>, height: Option<nat>, url: string)

  datatype Manifest = Manifest(book: BookId, contentVersion: nat, totalPages: nat, pages: seq<PageEntry>, assets: seq<AssetEntry>)

  datatype Download =
    | Delivered(bytes: Bytes, mediaType: string, sha256: Digest, kind: Kind, pageNumber: nat)
    | NotFound
    | IntegrityFailure

  // ── Asset ids ──

  function Suffix(kind: Kind): string { if kind.Frame? then ":frame" else ":text" }

  function AssetId(pageId: string, kind: Kind): string { pageId + Suffix(kind) }

  predicate EndsWith(s: string, suffix: string) {
    |suffix| <= |s| && s[|s| - |suffix|..] == suffix
  }

  function ParseAssetId(s: string): Option<(string, Kind)> {
    if EndsWith(s, Suffix(Frame)) then Some((s[..|s| - 6], Frame))
    else if EndsWith(s, Suffix(Layer)) then Some((s[..|s| - 5], Layer))
    else None
  }

  // Parsing and printing asset ids are inverse to each other, whatever the page id looks like.
  lemma AssetIdRoundTrip(pageId: string, kind: Kind)
    ensures ParseAssetId(AssetId(pageId, kind)) == Some((pageId, kind))
  {
    var s := AssetId(pageId, kind);
    assert s[|pageId|..] == Suffix(kind);
    assert s[..|pageId|] == pageId;
    if kind.Layer? { assert s[|s| - 1] == 't'; }
  }

  lemma ParsedAssetIdPrintsBack(s: string)
    ensures match ParseAssetId(s)
            case Some((pageId, kind)) => AssetId(pageId, kind) == s
            case None => forall pageId, kind :: AssetId(pageId, kind) != s
  {
    if ParseAssetId(s).None? {
      forall pageId, kind ensures AssetId(pageId, kind) != s {
        AssetIdRoundTrip(pageId, kind);
      }
    } else {
      var (pageId, kind) := ParseAssetId(s).value;
      assert s == s[..|pageId|] + s[|pageId|..];
    }
  }

  // ── Manifest ──

  predicate PageComplete(p: PageRecord) {
    && p.assetKey != "" && p.frameSha256.Some? && 0 < p.frameByteLength.GetOr(0)
    && p.hasTextLayer && p.textKey.Some? && p.textSha256.Some? && 0 < p.textByteLength.GetOr(0)
  }

  predicate Complete(v: Version) {
    && 1 <= v.pageCount == |v.pages|
    && forall i :: 0 <= i < |v.pages| ==> PageComplete(v.pages[i])
  }

  function AssetUrl(book: BookId, number: nat, assetId: string): string {
    "/books/" + book + "/content/" + Dec(number) + "/assets/" + assetId
  }

  function Entry(book: BookId, number: nat, p: PageRecord, kind: Kind): AssetEntry
    requires PageComplete(p)
  {
    var id := AssetId(p.id, kind);
    if kind.Frame?
    then AssetEntry(id, kind, p.index, p.mimeType.GetOr("image/png"), p.frameByteLength.value, p.frameSha256.value,
                    p.width, p.height, AssetUrl(book, number, id))
    else AssetEntry(id, kind, p.index, "application/json", p.textByteLength.value, p.textSha256.value, None, None,
                    AssetUrl(book, number, id))
  }

  // The manifest lists the pages in order and, for each, its frame and then its text layer with what is recorded of them
  // and the route they are read from.
  ghost predicate ManifestOf(book: BookId, number: nat, v: Version, m: Manifest)
    requires Complete(v)
  {
    && m.book == book && m.contentVersion == number && m.totalPages == v.pageCount
    && |m.pages| == |v.pages| && |m.assets| == 2 * |v.pages|
    && forall i :: 0 <= i < |v.pages| ==>
         && m.pages[i] == PageEntry(v.pages[i].index, v.pages[i].id + ":frame", v.pages[i].id + ":text")
         && ListsFrame(m.assets[2 * i], book, number, v.pages[i])
         && ListsText(m.assets[2 * i + 1], book, number, v.pages[i])
  }

  ghost predicate ListsFrame(a: AssetEntry, book: BookId, number: nat, p: PageRecord) {
    && a.assetId == p.id + ":frame" && a.kind == Frame && a.pageNumber == p.index
    && a.mediaType == (match p.mimeType case Some(mime) => mime case None => "image/png")
    && p.frameByteLength == Some(a.byteLength) && p.frameSha256 == Some(a.sha256) && a.width == p.width && a.height == p.height
    && a.url == "/books/" + book + "/content/" + Dec(number) + "/assets/" + p.id + ":frame"
  }

  ghost predicate ListsText(a: AssetEntry, book: BookId, number: nat, p: PageRecord) {
    && a.assetId == p.id + ":text" && a.kind == Layer && a.pageNumber == p.index && a.mediaType == "application/json"
    && p.textByteLength == Some(a.byteLength) && p.textSha256 == Some(a.sha256) && a.width == None && a.height == None
    && a.url == "/books/" + book + "/content/" + Dec(number) + "/assets/" + p.id + ":text"
  }

  lemma EntriesList(book: BookId, number: nat, p: PageRecord)
    requires PageComplete(p)
    ensures ListsFrame(Entry(book, number, p, Frame), book, number, p) && ListsText(Entry(book, number, p, Layer), book, number, p)
  {
    var prefix := "/books/" + book + "/content/" + Dec(number) + "/assets/";
    assert prefix + (p.id + ":frame") == prefix + p.id + ":frame";
    assert prefix + (p.id + ":text") == prefix + p.id + ":text";
  }

  // A page has an asset when its key, its digest and a length of at least one byte are recorded.
  ghost predicate HasAsset(p: PageRecord, kind: Kind) {
    match kind
    case Frame => p.assetKey != "" && p.frameSha256 != None && exists n: nat :: 1 <= n && p.frameByteLength == Some(n)
    case Layer => p.hasTextLayer && p.textKey != None && p.textSha256 != None && exists n: nat :: 1 <= n && p.textByteLength == Some(n)
  }

  // A version is complete exactly when it has a page, as many pages as it says, and both assets of each.
  lemma CompleteMeaning(v: Version)
    ensures Complete(v) <==>
              && v.pages != [] && |v.pages| == v.pageCount
              && forall i, kind :: 0 <= i < |v.pages| ==> HasAsset(v.pages[i], kind)
  {
    forall i | 0 <= i < |v.pages| ensures PageComplete(v.pages[i]) <==> HasAsset(v.pages[i], Frame) && HasAsset(v.pages[i], Layer) {
    }
  }

  method BuildManifest(book: BookId, number: nat, v: Version) returns (result: Option<Manifest>)
    ensures result.Some? <==> Complete(v)
    ensures result.Some? ==> ManifestOf(book, number, v, result.value)
  {
    hide Dec, Entry, ListsFrame, ListsText;
    if !Complete(v) { return None; }
    var pages, assets := [], [];
    var n := 0;
    while n < |v.pages|
      invariant 0 <= n <= |v.pages| && |pages| == n && |assets| == 2 * n
      invariant forall i :: 0 <= i < n ==>
        && pages[i] == PageEntry(v.pages[i].index, v.pages[i].id + ":frame", v.pages[i].id + ":text")
        && ListsFrame(assets[2 * i], book, number, v.pages[i])
        && ListsText(assets[2 * i + 1], book, number, v.pages[i])
    {
      var page := v.pages[n];
      EntriesList(book, number, page);
      pages := pages + [PageEntry(page.index, AssetId(page.id, Frame), AssetId(page.id, Layer))];
      assets := assets + [Entry(book, number, page, Frame), Entry(book, number, page, Layer)];
      n := n + 1;
    }
    result := Some(Manifest(book, number, v.pageCount, pages, assets));
  }

  // ── Reading an asset ──

  function ReadAsset(storage: map<string, Bytes>, p: PageRecord, kind: Kind): Download {
    var key := if kind.Frame? then p.assetKey else p.textKey.GetOr("");
    if key == "" || key !in storage then NotFound
    else
      var bytes := storage[key];
      var length := if kind.Frame? then p.frameByteLength else p.textByteLength;
      var digest := if kind.Frame? then p.frameSha256 else p.textSha256;
      if digest.None? || length != Some(|bytes|) || digest.value != Sha256(bytes) then IntegrityFailure
      else Delivered(bytes, if kind.Frame? then p.mimeType.GetOr("image/png") else "application/json", Sha256(bytes), kind, p.index)
  }

  // The first page with the given id.
  function FindPage(pages: seq<PageRecord>, id: string): Option<PageRecord> {
    if pages == [] then None
    else if pages[0].id == id then Some(pages[0])
    else FindPage(pages[1..], id)
  }

  function GetAssetById(storage: map<string, Bytes>, v: Version, assetId: string): Download {
    match ParseAssetId(assetId)
    case None => NotFound
    case Some((pageId, kind)) =>
      match FindPage(v.pages, pageId)
      case None => NotFound
      case Some(page) => ReadAsset(storage, page, kind)
  }

  lemma {:induction false} FindPageFinds(pages: seq<PageRecord>, i: nat)
    requires i < |pages| && forall j :: 0 <= j < i ==> pages[j].id != pages[i].id
    ensures FindPage(pages, pages[i].id) == Some(pages[i])
  {
    if 0 < i {
      assert pages[0].id != pages[i].id;
      FindPageFinds(pages[1..], i - 1);
    }
  }

  // What a read of one page's asset comes to, by its recorded key, length and digest and by what is stored: missing without
  // a stored key, delivered exactly when the stored bytes have the recorded length and digest, and refused otherwise.
  ghost predicate ReadDecided(storage: map<string, Bytes>, p: PageRecord, kind: Kind, got: Download) {
    var key := match kind case Frame => Some(p.assetKey) case Layer => p.textKey;
    var length := match kind case Frame => p.frameByteLength case Layer => p.textByteLength;
    var digest := match kind case Frame => p.frameSha256 case Layer => p.textSha256;
    if key.None? || key.value == "" || key.value !in storage then got == NotFound
    else
      var bytes := storage[key.value];
      if length == Some(|bytes|) && digest == Some(Sha256(bytes)) then
        got == Delivered(bytes, match kind case Frame => (match p.mimeType case Some(mime) => mime case None => "image/png")
                                           case Layer => "application/json", Sha256(bytes), kind, p.index)
      else got == IntegrityFailure
  }

  // An asset id is that of the first page whose id it carries, and the read of that page's asset decides. An id that is no
  // page's id with one of the two suffixes is not found.
  lemma AssetReadDecided(storage: map<string, Bytes>, v: Version, assetId: string, i: nat, kind: Kind)
    ensures i < |v.pages| && assetId == v.pages[i].id + (match kind case Frame => ":frame" case Layer => ":text")
              && (forall j :: 0 <= j < i ==> v.pages[j].id != v.pages[i].id) ==>
              ReadDecided(storage, v.pages[i], kind, GetAssetById(storage, v, assetId))
    ensures (forall j :: 0 <= j < |v.pages| ==> assetId != v.pages[j].id + ":frame" && assetId != v.pages[j].id + ":text") ==>
              GetAssetById(storage, v, assetId) == NotFound
  {
    ParsedAssetIdPrintsBack(assetId);
    hide ParseAssetId;
    if i < |v.pages| && assetId == v.pages[i].id + Suffix(kind) && forall j :: 0 <= j < i ==> v.pages[j].id != v.pages[i].id {
      AssetIdRoundTrip(v.pages[i].id, kind);
      FindPageFinds(v.pages, i);
      ReadAssetDecided(storage, v.pages[i], kind);
    }
    if forall j :: 0 <= j < |v.pages| ==> assetId != v.pages[j].id + ":frame" && assetId != v.pages[j].id + ":text" {
      var parsed := ParseAssetId(assetId);
      if parsed.Some? { FindPageIs(v.pages, parsed.value.0); }
    }
  }

  lemma ReadAssetDecided(storage: map<string, Bytes>, p: PageRecord, kind: Kind)
    ensures ReadDecided(storage, p, kind, ReadAsset(storage, p, kind))
  {
  }

  lemma {:induction false} FindPageIs(pages: seq<PageRecord>, id: string)
    ensures FindPage(pages, id).Some? ==> FindPage(pages, id).value in pages && FindPage(pages, id).value.id == id
  {
    if pages != [] { FindPageIs(pages[1..], id); }
  }

  // A version a conversion of `document` committed.
  ghost predicate ConversionOf(book: BookId, number: nat, v: Version, document: Document) {
    exists firstId: nat :: v == Version(|document|, true, Records(book, number, firstId, document))
  }

  lemma RecordsHaveTheirOwnIds(book: BookId, number: nat, firstId: nat, document: Document, i: nat, j: nat)
    requires i < j < |document|
    ensures Records(book, number, firstId, document)[i].id != Records(book, number, firstId, document)[j].id
  {
    if Dec(firstId + i) == Dec(firstId + j) { DecInjective(firstId + i, firstId + j); }
  }

  lemma PageIsStored(w: World, book: BookId, number: nat, i: nat)
    requires Inv(w) && (book, number) in w.versions && w.versions[(book, number)].eligible
    requires i < |w.versions[(book, number)].pages|
    ensures PageStored(w.storage, book, number, w.versions[(book, number)].pages[i])
  {
    assert VersionStored(w.storage, book, number, w.versions[(book, number)]);
  }

  lemma ReadsWhatWasRendered(storage: map<string, Bytes>, book: BookId, number: nat, p: PageRecord, source: SourcePage, kind: Kind)
    requires PageComplete(p) && PageStored(storage, book, number, p)
    requires exists id, index :: p == Record(book, number, id, index, source)
    ensures var got := ReadAsset(storage, p, kind);
            var entry := Entry(book, number, p, kind);
            && got.Delivered? && got.bytes == source.Asset(kind) && got.pageNumber == p.index && got.kind == kind
            && |got.bytes| == entry.byteLength && got.sha256 == entry.sha256 && got.mediaType == entry.mediaType
  {
    hide AssetPath, AssetUrl, AssetId;
  }

  lemma RecordsAreComplete(book: BookId, number: nat, firstId: nat, document: Document)
    ensures Complete(Version(|document|, true, Records(book, number, firstId, document)))
  {
    forall i | 0 <= i < |document| ensures PageComplete(Records(book, number, firstId, document)[i]) {
      hide AssetPath, Records, Record, PageComplete;
      RecordIsComplete(book, number, firstId + i, i + 1, document[i]);
    }
  }

  lemma RecordIsComplete(book: BookId, number: nat, id: nat, index: nat, page: SourcePage)
    requires 0 < |page.frame| && 0 < |page.text|
    ensures PageComplete(Record(book, number, id, index, page)) && Record(book, number, id, index, page).index == index
  {
  }

  // Whatever runs beside it, a version that a conversion committed has a complete manifest, and every asset id the
  // manifest lists resolves to the very bytes the conversion rendered, with the listed length and digest.
  lemma CommittedVersionsDownload(w: World, book: BookId, number: nat, document: Document, i: nat, kind: Kind)
    requires Inv(w) && (book, number) in w.versions && ConversionOf(book, number, w.versions[(book, number)], document)
    requires i < |document|
    ensures var v := w.versions[(book, number)];
            && Complete(v)
            && var entry := Entry(book, number, v.pages[i], kind);
               var got := GetAssetById(w.storage, v, entry.assetId);
               && got.Delivered? && got.bytes == document[i].Asset(kind) && got.pageNumber == i + 1 && got.kind == kind
               && |got.bytes| == entry.byteLength && got.sha256 == entry.sha256 && got.mediaType == entry.mediaType
  {
    var v := w.versions[(book, number)];
    var firstId: nat :| v == Version(|document|, true, Records(book, number, firstId, document));
    var page := v.pages[i];
    hide Inv, PageStored, PageComplete, Record, AssetPath, FindPage, ReadAsset, ParseAssetId, AssetId, AssetUrl, Entry, Records;
    RecordsAreComplete(book, number, firstId, document);
    assert page == Record(book, number, firstId + i, i + 1, document[i]);
    PageIsStored(w, book, number, i);
    ReadsWhatWasRendered(w.storage, book, number, page, document[i], kind);
    AssetIdRoundTrip(page.id, kind);
    forall j | 0 <= j < i ensures v.pages[j].id != page.id { RecordsHaveTheirOwnIds(book, number, firstId, document, j, i); }
    FindPageFinds(v.pages, i);
  }

  // Whatever becomes of the storage, a page of a converted version is delivered with the bytes the conversion rendered or
  // not at all: missing bytes are not found, and any other bytes under its key are refused.
  lemma OtherBytesAreNeverDelivered(storage: map<string, Bytes>, book: BookId, number: nat, v: Version, document: Document, i: nat, kind: Kind)
    requires ConversionOf(book, number, v, document) && i < |document|
    ensures i < |v.pages|
    ensures var key := AssetPath(book, number, i + 1, kind);
            var got := GetAssetById(storage, v, AssetId(v.pages[i].id, kind));
            && (got.NotFound? <==> key !in storage)
            && (got.Delivered? <==> key in storage && storage[key] == document[i].Asset(kind))
            && (got.Delivered? ==> got.bytes == document[i].Asset(kind))
            && (got.IntegrityFailure? <==> key in storage && storage[key] != document[i].Asset(kind))
  {
    hide AssetPath, FindPage, ReadAsset, ParseAssetId, GetAssetById, Records, Record, ReadDecided, Suffix;
    var firstId: nat :| v == Version(|document|, true, Records(book, number, firstId, document));
    var page := v.pages[i];
    forall j | 0 <= j < i ensures v.pages[j].id != page.id { RecordsHaveTheirOwnIds(book, number, firstId, document, j, i); }
    AssetReadDecided(storage, v, AssetId(page.id, kind), i, kind);
    SuffixText(kind);
    RenderedReadDecided(storage, book, number, firstId + i, document, i, kind, GetAssetById(storage, v, AssetId(page.id, kind)));
  }

  lemma SuffixText(kind: Kind)
    ensures Suffix(kind) == match kind case Frame => ":frame" case Layer => ":text"
  {
  }

  lemma RenderedReadDecided(storage: map<string, Bytes>, book: BookId, number: nat, id: nat, document: Document, i: nat, kind: Kind, got: Download)
    requires i < |document| && ReadDecided(storage, Record(book, number, id, i + 1, document[i]), kind, got)
    ensures var key := AssetPath(book, number, i + 1, kind);
            && (got.NotFound? <==> key !in storage)
            && (got.Delivered? <==> key in storage && storage[key] == document[i].Asset(kind))
            && (got.Delivered? ==> got.bytes == document[i].Asset(kind))
            && (got.IntegrityFailure? <==> key in storage && storage[key] != document[i].Asset(kind))
  {
    hide AssetPath, Dec;
  }

  // From the commit of a finished job on, through every later interleaving, its document stays downloadable.
  lemma CommittedDocumentsStayDownloadable(w: World, events: seq<Event>, worker: nat, more: seq<Event>, i: nat, kind: Kind)
    requires Inv(w)
    requires var at := Run(w, events);
             && worker in at.jobs && at.jobs[worker].phase.Converting?
             && at.jobs[worker].phase.written == 2 * |at.jobs[worker].phase.document| && i < |at.jobs[worker].phase.document|
    ensures var Job(book, number, Converting(document, _)) := Run(w, events).jobs[worker];
            var later := Run(w, events + [CommitVersion(worker)] + more);
            && (book, number) in later.versions
            && var v := later.versions[(book, number)];
               && Complete(v) && i < |v.pages|
               && GetAssetById(later.storage, v, Entry(book, number, v.pages[i], kind).assetId).Delivered?
               && GetAssetById(later.storage, v, Entry(book, number, v.pages[i], kind).assetId).bytes == document[i].Asset(kind)
  {
    var at := Run(w, events);
    var Job(book, number, Converting(document, _)) := at.jobs[worker];
    var committing := events + [CommitVersion(worker)];
    assert committing[..|committing| - 1] == events && committing[|committing| - 1] == CommitVersion(worker);
    RunOk(w, events);
    CommitSwapsOnlyForward(at, worker);
    CommittedBytesAreNeverOverwritten(w, committing, more);
    RunOk(w, committing + more);
    var after, later := Run(w, committing), Run(w, committing + more);
    assert after == Next(at, CommitVersion(worker));
    hide Inv, Run, Next, GetAssetById, Entry, Records, Projection, Complete, AssetPath;
    assert ConversionOf(book, number, after.versions[(book, number)], document);
    assert later.versions[(book, number)] == after.versions[(book, number)];
    CommittedVersionsDownload(later, book, number, document, i, kind);
  }

  // ── Versions the sweep promoted ──

  // A promoted version downloads exactly when none of its stored frames and text layers is empty. The sweep asks only that
  // they are stored.
  lemma PromotedVersionsDownloadExactly(storage: map<string, Bytes>, v: Version, promoted: Version)
    requires BackfillSweep.Verifiable(storage, v) && BackfillSweep.Promotes(storage, v, promoted)
    ensures Complete(promoted) <==>
              forall i :: 0 <= i < |v.pages| ==> storage[v.pages[i].assetKey] != [] && storage[v.pages[i].textKey.value] != []
  {
    forall i | 0 <= i < |v.pages|
      ensures PageComplete(promoted.pages[i]) <==> storage[v.pages[i].assetKey] != [] && storage[v.pages[i].textKey.value] != []
    {
      hide Complete;
    }
    if Complete(promoted) {
      forall i | 0 <= i < |v.pages| ensures storage[v.pages[i].assetKey] != [] && storage[v.pages[i].textKey.value] != [] {
        assert PageComplete(promoted.pages[i]);
      }
    }
  }

  // And every asset of a promoted version, empty or not, is delivered with exactly the stored bytes.
  lemma PromotedAssetsAreDelivered(storage: map<string, Bytes>, v: Version, promoted: Version, i: nat, kind: Kind)
    requires BackfillSweep.Verifiable(storage, v) && BackfillSweep.Promotes(storage, v, promoted)
    requires i < |v.pages| && forall j, k :: 0 <= j < k < |v.pages| ==> v.pages[j].id != v.pages[k].id
    ensures var bytes := storage[if kind.Frame? then v.pages[i].assetKey else v.pages[i].textKey.value];
            var got := GetAssetById(storage, promoted, AssetId(v.pages[i].id, kind));
            got.Delivered? && got.bytes == bytes && got.sha256 == Sha256(bytes) && got.kind == kind && got.pageNumber == v.pages[i].index
  {
    var p := v.pages[i];
    var frame, text := storage[p.assetKey], storage[p.textKey.value];
    assert promoted.pages[i] == BackfillSweep.Measured(p, frame, text);
    forall j | 0 <= j <= i ensures promoted.pages[j].id == v.pages[j].id {
    }
    MeasuredReads(storage, p, kind);
    hide AssetId, ParseAssetId, FindPage, ReadAsset, BackfillSweep.Measured, BackfillSweep.Verifiable, BackfillSweep.Promotes;
    AssetIdRoundTrip(p.id, kind);
    FindPageFinds(promoted.pages, i);
  }

  lemma MeasuredReads(storage: map<string, Bytes>, p: PageRecord, kind: Kind)
    requires p.assetKey != "" && p.textKey.GetOr("") != "" && p.assetKey in storage && p.textKey.value in storage
    ensures var bytes := storage[if kind.Frame? then p.assetKey else p.textKey.value];
            var got := ReadAsset(storage, BackfillSweep.Measured(p, storage[p.assetKey], storage[p.textKey.value]), kind);
            got.Delivered? && got.bytes == bytes && got.sha256 == Sha256(bytes) && got.kind == kind && got.pageNumber == p.index
  {
  }
}
