// Books, content versions and the stored page assets they point at.
module ContentModel {
  import opened Prelude
  import opened Text

  // Book ids are path segments: they hold no slash.
  type BookId = s: string | '/' !in s witness ""
  type Bytes = seq<bv8>

  // SHA-256, taken to be injective.
  datatype Digest = Sha256(of: Bytes)

  datatype Kind = Frame | Layer

  // One rendered page of a document. A document has a page, and no asset of it is empty: even a page without
  // text stores a JSON document.
  datatype SourcePage = SourcePage(frame: Bytes, text: Bytes, width: nat, height: nat) {
    function Asset(kind: Kind): Bytes { if kind.Frame? then frame else text }
  }

  type Document = d: seq<SourcePage> | 1 <= |d| && forall i :: 0 <= i < |d| ==> |d[i].frame| > 0 && |d[i].text| > 0
    witness [SourcePage([0], [0], 0, 0)]

  // A page of an immutable version; the digests are missing on versions published before downloads existed.
  datatype PageRecord = PageRecord(
    id: string, index: nat, assetKey: string, textKey: Option<string>, hasTextLayer: bool, mimeType: Option<string>,
    width: Option<nat>, height: Option<nat>,
    frameByteLength: Option<nat>, frameSha256: Option<Digest>, textByteLength: Option<nat>, textSha256: Option<Digest>)

  datatype Version = Version(pageCount: nat, eligible: bool, pages: seq<PageRecord>)

  // ── Storage keys ──

  function Extension(kind: Kind): string { if kind.Frame? then "png" else "json" }

  function PageFile(page: nat, kind: Kind): string {
    Dec(page) + ['.'] + Extension(kind)
  }

  function VersionFile(version: nat, page: nat, kind: Kind): string {
    Dec(version) + ['/'] + ("pages/" + PageFile(page, kind))
  }

  // books/<book>/v<version>/pages/<page>.png or .json
  function AssetPath(book: BookId, version: nat, page: nat, kind: Kind): (key: string)
    ensures key != ""
  {
    "books/" + (book + ['/'] + ("v" + VersionFile(version, page, kind)))
  }

  // How a storage key reads.
  lemma AssetPathText(book: BookId, version: nat, page: nat)
    ensures AssetPath(book, version, page, Frame) == "books/" + book + "/v" + Dec(version) + "/pages/" + Dec(page) + ".png"
    ensures AssetPath(book, version, page, Layer) == "books/" + book + "/v" + Dec(version) + "/pages/" + Dec(page) + ".json"
  {
    hide Dec;
  }

  lemma PageFileInjective(i: nat, k: Kind, j: nat, l: Kind)
    requires PageFile(i, k) == PageFile(j, l)
    ensures i == j && k == l
  {
    CutUnique(Dec(i), Extension(k), Dec(j), Extension(l), '.');
    DecInjective(i, j);
    assert "png"[0] != "json"[0];
  }

  // Different assets have different keys, so one version's bytes can never land on another's.
  lemma AssetPathInjective(b: BookId, v: nat, i: nat, k: Kind, c: BookId, w: nat, j: nat, l: Kind)
    requires AssetPath(b, v, i, k) == AssetPath(c, w, j, l)
    ensures b == c && v == w && i == j && k == l
  {
    hide PageFile, VersionFile;
    CancelPrefix("books/", b + ['/'] + ("v" + VersionFile(v, i, k)), c + ['/'] + ("v" + VersionFile(w, j, l)));
    CutUnique(b, "v" + VersionFile(v, i, k), c, "v" + VersionFile(w, j, l), '/');
    CancelPrefix("v", VersionFile(v, i, k), VersionFile(w, j, l));
    VersionFileInjective(v, i, k, w, j, l);
  }

  lemma VersionFileInjective(v: nat, i: nat, k: Kind, w: nat, j: nat, l: Kind)
    requires VersionFile(v, i, k) == VersionFile(w, j, l)
    ensures v == w && i == j && k == l
  {
    hide PageFile;
    CutUnique(Dec(v), "pages/" + PageFile(i, k), Dec(w), "pages/" + PageFile(j, l), '/');
    DecInjective(v, w);
    CancelPrefix("pages/", PageFile(i, k), PageFile(j, l));
    PageFileInjective(i, k, j, l);
  }
}
