// The sweep that promotes old versions whose stored assets verify.
module BackfillSweep {
  import opened Prelude
  import opened Text
  import opened Keyset
  import opened ContentModel

  datatype Key = Key(book: BookId, number: nat)

  datatype Row = Row(key: Key, version: Version)

  // Index order: by book id, then by version number.
  predicate Precedes(a: Key, b: Key) {
    Before(a.book, b.book) || (a.book == b.book && a.number < b.number)
  }

  lemma PrecedesIsStrictTotal()
    ensures StrictTotal(Precedes)
  {
    forall x ensures !Precedes(x, x) { BeforeIrreflexive(x.book); }
    forall x, y, z | Precedes(x, y) && Precedes(y, z) ensures Precedes(x, z) {
      if Before(x.book, y.book) && Before(y.book, z.book) { BeforeTransitive(x.book, y.book, z.book); }
    }
    forall x, y | x != y ensures Precedes(x, y) || Precedes(y, x) { BeforeTotal(x.book, y.book); }
  }

  // The version table, read through its unique index on (book, number).
  ghost predicate Ordered(rows: seq<Row>) {
    forall i, j :: 0 <= i < j < |rows| ==> Precedes(rows[i].key, rows[j].key)
  }

  function Ineligible(rows: seq<Row>): seq<Key> {
    if rows == [] then []
    else (if rows[0].version.eligible then [] else [rows[0].key]) + Ineligible(rows[1..])
  }

  // ── One version ──

  // Every page advertises a frame and a text layer and both are in storage; nothing is ever made up to qualify.
  predicate Verifiable(storage: map<string, Bytes>, v: Version) {
    && v.pages != [] && |v.pages| == v.pageCount
    && forall i :: 0 <= i < |v.pages| ==>
         && v.pages[i].assetKey != "" && v.pages[i].textKey.GetOr("") != "" && v.pages[i].hasTextLayer
         && v.pages[i].assetKey in storage && v.pages[i].textKey.value in storage
  }

  function Measured(p: PageRecord, frame: Bytes, text: Bytes): PageRecord {
    p.(frameByteLength := Some(|frame|), frameSha256 := Some(Sha256(frame)),
       textByteLength := Some(|text|), textSha256 := Some(Sha256(text)))
  }

  ghost predicate Promotes(storage: map<string, Bytes>, v: Version, promoted: Version)
    requires Verifiable(storage, v)
  {
    && promoted == v.(eligible := true, pages := promoted.pages)
    && |promoted.pages| == |v.pages|
    && forall i :: 0 <= i < |v.pages| ==>
         promoted.pages[i] == Measured(v.pages[i], storage[v.pages[i].assetKey], storage[v.pages[i].textKey.value])
  }

  // What the sweep makes of one row: an ineligible version that verifies is promoted, any other row is left untouched.
  ghost predicate SweptRow(storage: map<string, Bytes>, old_: Row, new_: Row) {
    if !old_.version.eligible && Verifiable(storage, old_.version)
    then new_.key == old_.key && Promotes(storage, old_.version, new_.version)
    else new_ == old_
  }

  // Rows up to the bound are swept, later ones are as they were.
  ghost predicate SweptUpTo(storage: map<string, Bytes>, before: seq<Row>, rows: seq<Row>, bound: Option<Key>) {
    && |rows| == |before|
    && forall i :: 0 <= i < |rows| ==>
         if bound.Some? && !Precedes(bound.value, before[i].key) then SweptRow(storage, before[i], rows[i]) else rows[i] == before[i]
  }

  // The keys whose versions verify, and the keys whose do not, in the order given.
  ghost function Sift(storage: map<string, Bytes>, before: seq<Row>, keys: seq<Key>, verifies: bool): seq<Key> {
    if keys == [] then [] else
      var most, last := keys[..|keys| - 1], keys[|keys| - 1];
      Sift(storage, before, most, verifies) + if KeyVerifies(storage, before, last) == verifies then [last] else []
  }

  ghost predicate KeyVerifies(storage: map<string, Bytes>, before: seq<Row>, key: Key) {
    exists i :: 0 <= i < |before| && before[i].key == key && Verifiable(storage, before[i].version)
  }

  lemma {:induction false} IneligibleSorted(rows: seq<Row>)
    requires Ordered(rows)
    ensures Sorted(Precedes, Ineligible(rows))
    ensures forall k :: k in Ineligible(rows) <==> exists i :: 0 <= i < |rows| && !rows[i].version.eligible && rows[i].key == k
  {
    if rows != [] {
      IneligibleSorted(rows[1..]);
      forall k | k in Ineligible(rows[1..]) ensures Precedes(rows[0].key, k) {
        var i :| 0 <= i < |rows[1..]| && rows[1..][i].key == k;
        assert Precedes(rows[0].key, rows[i + 1].key);
      }
      forall k | exists i :: 0 <= i < |rows| && !rows[i].version.eligible && rows[i].key == k ensures k in Ineligible(rows) {
        var i :| 0 <= i < |rows| && !rows[i].version.eligible && rows[i].key == k;
        if 0 < i { assert rows[1..][i - 1].key == k; }
      }
      forall k | k in Ineligible(rows) ensures exists i :: 0 <= i < |rows| && !rows[i].version.eligible && rows[i].key == k {
        if k in Ineligible(rows[1..]) {
          var i :| 0 <= i < |rows[1..]| && !rows[1..][i].version.eligible && rows[1..][i].key == k;
          assert rows[i + 1].key == k;
        } else {
          assert rows[0].key == k;
        }
      }
    }
  }

  // The query sees the same keys past the cursor whether or not the rows before it have been promoted meanwhile.
  lemma {:induction false} QueryUnchanged(storage: map<string, Bytes>, before: seq<Row>, rows: seq<Row>, bound: Option<Key>)
    requires SweptUpTo(storage, before, rows, bound)
    ensures Beyond(Precedes, Ineligible(rows), bound) == Beyond(Precedes, Ineligible(before), bound)
  {
    if rows != [] {
      QueryUnchanged(storage, before[1..], rows[1..], bound);
      assert rows[0].key == before[0].key;
      var a, b := Ineligible(rows), Ineligible(before);
      BeyondConcat(Precedes, if rows[0].version.eligible then [] else [rows[0].key], Ineligible(rows[1..]), bound);
      BeyondConcat(Precedes, if before[0].version.eligible then [] else [before[0].key], Ineligible(before[1..]), bound);
    }
  }

  // No ineligible row lies between two neighbouring ineligible keys, so sweeping the next key sweeps up to it.
  lemma NextKeySweeps(storage: map<string, Bytes>, before: seq<Row>, rows: seq<Row>, after: seq<Row>, n: nat, at: nat)
    requires Ordered(before) && n < |Ineligible(before)| && at < |before| && before[at].key == Ineligible(before)[n]
    requires SweptUpTo(storage, before, rows, if n == 0 then None else Some(Ineligible(before)[n - 1]))
    requires |after| == |rows| && SweptRow(storage, before[at], after[at])
    requires forall i :: 0 <= i < |rows| && i != at ==> after[i] == rows[i]
    ensures SweptUpTo(storage, before, after, Some(Ineligible(before)[n]))
  {
    var keys := Ineligible(before);
    IneligibleSorted(before);
    PrecedesIsStrictTotal();
    forall i | 0 <= i < |after|
      ensures if !Precedes(keys[n], before[i].key) then SweptRow(storage, before[i], after[i]) else after[i] == before[i]
    {
      hide SweptRow, Precedes;
      if i < at { assert Precedes(before[i].key, before[at].key); }
      if at < i { assert Precedes(before[at].key, before[i].key); }
      if i < at && (n == 0 || Precedes(keys[n - 1], before[i].key)) {
        BetweenNeighbours(before, n, at, i);
        EligibleRowStays(storage, before[i]);
      }
      if i < at || i == at { Asymmetric(Precedes, before[i].key, before[at].key); }
    }
  }

  lemma EligibleRowStays(storage: map<string, Bytes>, row: Row)
    requires row.version.eligible
    ensures SweptRow(storage, row, row)
  {
  }

  lemma BetweenNeighbours(before: seq<Row>, n: nat, at: nat, i: nat)
    requires Ordered(before) && n < |Ineligible(before)| && i < at < |before| && before[at].key == Ineligible(before)[n]
    requires n == 0 || Precedes(Ineligible(before)[n - 1], before[i].key)
    ensures before[i].version.eligible
  {
    hide StrictTotal, Precedes, Ineligible;
    var keys := Ineligible(before);
    IneligibleSorted(before);
    PrecedesIsStrictTotal();
    if !before[i].version.eligible {
      assert before[i].key in keys;
      var m :| 0 <= m < |keys| && keys[m] == before[i].key;
      assert Precedes(keys[m], keys[n]);
      if n < m { assert Precedes(keys[n], keys[m]); }
      if m < n - 1 { assert Precedes(keys[m], keys[n - 1]); }
      Asymmetric(Precedes, keys[m], keys[n]);
      if 0 < n { Asymmetric(Precedes, keys[n - 1], keys[m]); }
    }
  }

  lemma SiftSnoc(storage: map<string, Bytes>, before: seq<Row>, keys: seq<Key>, n: nat)
    requires n < |keys|
    ensures forall verifies :: Sift(storage, before, keys[..n + 1], verifies)
              == Sift(storage, before, keys[..n], verifies) + if KeyVerifies(storage, before, keys[n]) == verifies then [keys[n]] else []
  {
    assert keys[..n + 1][..n] == keys[..n];
  }

  // Promoted and skipped partition the examined keys: every key is in the one its verification decides, as often as it
  // was examined, and in the order it was examined.
  lemma SiftPartitions(storage: map<string, Bytes>, before: seq<Row>, keys: seq<Key>)
    ensures multiset(Sift(storage, before, keys, true)) + multiset(Sift(storage, before, keys, false)) == multiset(keys)
    ensures forall key :: key in Sift(storage, before, keys, true) <==> key in keys && KeyVerifies(storage, before, key)
    ensures forall key :: key in Sift(storage, before, keys, false) <==> key in keys && !KeyVerifies(storage, before, key)
  {
    hide KeyVerifies, Sift;
    SiftSplits(storage, before, keys);
    SiftDecides(storage, before, keys, true);
    SiftDecides(storage, before, keys, false);
  }

  lemma {:induction false} SiftSplits(storage: map<string, Bytes>, before: seq<Row>, keys: seq<Key>)
    ensures multiset(Sift(storage, before, keys, true)) + multiset(Sift(storage, before, keys, false)) == multiset(keys)
  {
    hide KeyVerifies;
    if keys != [] {
      var most, last := keys[..|keys| - 1], keys[|keys| - 1];
      SiftSplits(storage, before, most);
      var yes, no := Sift(storage, before, most, true), Sift(storage, before, most, false);
      var verifies := KeyVerifies(storage, before, last);
      assert Sift(storage, before, keys, true) == if verifies then yes + [last] else yes + [];
      assert Sift(storage, before, keys, false) == if verifies then no + [] else no + [last];
      hide Sift;
      OneMoreKey(keys, most, last, yes, no, verifies);
    }
  }

  lemma OneMoreKey(keys: seq<Key>, most: seq<Key>, last: Key, yes: seq<Key>, no: seq<Key>, verifies: bool)
    requires keys != [] && most == keys[..|keys| - 1] && last == keys[|keys| - 1]
    requires multiset(yes) + multiset(no) == multiset(most)
    ensures if verifies then multiset(yes + [last]) + multiset(no + []) == multiset(keys)
            else multiset(yes + []) + multiset(no + [last]) == multiset(keys)
  {
    assert keys == most + [last];
    assert yes + [] == yes && no + [] == no;
  }

  lemma {:induction false} SiftDecides(storage: map<string, Bytes>, before: seq<Row>, keys: seq<Key>, verifies: bool)
    ensures forall key :: key in Sift(storage, before, keys, verifies) <==> key in keys && KeyVerifies(storage, before, key) == verifies
  {
    hide KeyVerifies;
    if keys != [] {
      SiftDecides(storage, before, keys[..|keys| - 1], verifies);
      assert keys == keys[..|keys| - 1] + [keys[|keys| - 1]];
    }
  }

  lemma SameKeys(storage: map<string, Bytes>, before: seq<Row>, rows: seq<Row>, bound: Option<Key>)
    requires SweptUpTo(storage, before, rows, bound)
    ensures forall i :: 0 <= i < |rows| ==> rows[i].key == before[i].key
  {
  }

  lemma KeysAreUnique(rows: seq<Row>, i: nat, j: nat)
    requires Ordered(rows) && i < |rows| && j < |rows| && rows[i].key == rows[j].key
    ensures i == j
  {
    BeforeIrreflexive(rows[i].key.book);
    assert !Precedes(rows[i].key, rows[i].key);
  }

  // The next ineligible key has one row, and the sweep has not touched it yet.
  lemma UntouchedRow(storage: map<string, Bytes>, before: seq<Row>, rows: seq<Row>, n: nat) returns (at: nat)
    requires Ordered(before) && n < |Ineligible(before)|
    requires SweptUpTo(storage, before, rows, if n == 0 then None else Some(Ineligible(before)[n - 1]))
    ensures at < |before| && before[at].key == Ineligible(before)[n] && !before[at].version.eligible && rows[at] == before[at]
  {
    IneligibleSorted(before);
    var keys := Ineligible(before);
    assert keys[n] in keys;
    var i :| 0 <= i < |before| && !before[i].version.eligible && before[i].key == keys[n];
    at := i;
    if 0 < n { assert Precedes(keys[n - 1], keys[n]); }
  }

  lemma VerifiesOnlyHere(storage: map<string, Bytes>, before: seq<Row>, at: nat)
    requires Ordered(before) && at < |before|
    ensures KeyVerifies(storage, before, before[at].key) == Verifiable(storage, before[at].version)
  {
    hide Verifiable;
    if KeyVerifies(storage, before, before[at].key) {
      var i :| 0 <= i < |before| && before[i].key == before[at].key && Verifiable(storage, before[i].version);
      KeysAreUnique(before, i, at);
    }
  }

  lemma AllSwept(storage: map<string, Bytes>, before: seq<Row>, rows: seq<Row>, bound: Option<Key>)
    requires Ordered(before) && SweptUpTo(storage, before, rows, bound)
    requires var keys := Ineligible(before); bound == if keys == [] then None else Some(keys[|keys| - 1])
    ensures |rows| == |before| && forall i :: 0 <= i < |rows| ==> SweptRow(storage, before[i], rows[i])
  {
    IneligibleSorted(before);
    PrecedesIsStrictTotal();
    var keys := Ineligible(before);
    forall i | 0 <= i < |rows| ensures SweptRow(storage, before[i], rows[i]) {
      hide SweptRow, Precedes, StrictTotal, Ineligible;
      if bound.None? || Precedes(bound.value, before[i].key) {
        if !before[i].version.eligible {
          assert before[i].key in keys;
          var m :| 0 <= m < |keys| && keys[m] == before[i].key;
          assert m < |keys| - 1 ==> Precedes(keys[m], keys[|keys| - 1]);
          Asymmetric(Precedes, keys[m], keys[|keys| - 1]);
        }
        EligibleRowStays(storage, before[i]);
      }
    }
  }

  // The sweep after its first `n` keys: the cursor is at the last of them, the rows up to it are swept, and both lists
  // hold what was found.
  ghost predicate Examined(storage: map<string, Bytes>, before: seq<Row>, rows: seq<Row>, n: nat, cursor: Option<Key>,
                           promoted: seq<Key>, skipped: seq<Key>) {
    var keys := Ineligible(before);
    && n <= |keys|
    && cursor == (if n == 0 then None else Some(keys[n - 1]))
    && SweptUpTo(storage, before, rows, cursor)
    && promoted == Sift(storage, before, keys[..n], true)
    && skipped == Sift(storage, before, keys[..n], false)
  }

  ghost predicate IsNext(batch: seq<Key>, keys: seq<Key>, n: nat) {
    n + |batch| <= |keys| && batch == keys[n..n + |batch|]
  }

  lemma PastTheCursor(storage: map<string, Bytes>, before: seq<Row>, rows: seq<Row>, n: nat, cursor: Option<Key>)
    requires Ordered(before) && n <= |Ineligible(before)| && SweptUpTo(storage, before, rows, cursor)
    requires cursor == if n == 0 then None else Some(Ineligible(before)[n - 1])
    ensures Beyond(Precedes, Ineligible(rows), cursor) == Ineligible(before)[n..]
  {
    hide *;
    var keys := Ineligible(before);
    QueryUnchanged(storage, before, rows, cursor);
    IneligibleSorted(before);
    if n == 0 {
      NoCursorYet(keys);
    } else {
      PrecedesIsStrictTotal();
      BeyondIsSuffix(Precedes, keys, n - 1);
    }
  }

  lemma NoCursorYet(keys: seq<Key>)
    ensures Beyond(Precedes, keys, None) == keys[0..]
  {
    AllBeyond(Precedes, keys, None);
    assert keys[0..] == keys;
  }

  // The next query returns the next keys, fewer than asked for only when they are the last.
  lemma NextBatch(storage: map<string, Bytes>, before: seq<Row>, rows: seq<Row>, n: nat, cursor: Option<Key>,
                  promoted: seq<Key>, skipped: seq<Key>, size: nat)
    requires Ordered(before) && Examined(storage, before, rows, n, cursor, promoted, skipped) && 1 <= size
    ensures n + |Take(Beyond(Precedes, Ineligible(rows), cursor), size)| <= |Ineligible(before)|
    ensures IsNext(Take(Beyond(Precedes, Ineligible(rows), cursor), size), Ineligible(before), n)
    ensures |Take(Beyond(Precedes, Ineligible(rows), cursor), size)| < size ==>
              n + |Take(Beyond(Precedes, Ineligible(rows), cursor), size)| == |Ineligible(before)|
  {
    hide Ordered, SweptUpTo, Ineligible, Beyond, Take, Precedes, Sift;
    PastTheCursor(storage, before, rows, n, cursor);
    TakeIsNext(Ineligible(before), n, size);
  }

  datatype Summary = Summary(examined: nat, promoted: seq<Key>, skipped: seq<Key>)

  // A finished sweep: every row is swept, and each initially ineligible key was examined once, in key order, and listed
  // by what its verification said.
  ghost predicate Swept(storage: map<string, Bytes>, before: seq<Row>, rows: seq<Row>, summary: Summary) {
    && |rows| == |before|
    && (forall i :: 0 <= i < |rows| ==> SweptRow(storage, before[i], rows[i]))
    && summary.examined == |Ineligible(before)|
    && summary.promoted == Sift(storage, before, Ineligible(before), true)
    && summary.skipped == Sift(storage, before, Ineligible(before), false)
  }

  lemma AllExamined(storage: map<string, Bytes>, before: seq<Row>, rows: seq<Row>, cursor: Option<Key>, summary: Summary)
    requires Ordered(before) && Examined(storage, before, rows, summary.examined, cursor, summary.promoted, summary.skipped)
    requires summary.examined == |Ineligible(before)|
    ensures Swept(storage, before, rows, summary)
  {
    assert Ineligible(before)[..summary.examined] == Ineligible(before);
    AllSwept(storage, before, rows, cursor);
  }

  // ── What a finished sweep means, row by row ──

  // By book id in string order and then by version number, from the lowest on.
  ghost predicate InKeyOrder(keys: seq<Key>) {
    forall i, j :: 0 <= i < j < |keys| ==>
      Before(keys[i].book, keys[j].book) || (keys[i].book == keys[j].book && keys[i].number < keys[j].number)
  }

  // The version has a page, as many pages as it says, and both assets of each page are named and stored.
  ghost predicate AllStored(storage: map<string, Bytes>, v: Version) {
    && 1 <= |v.pages| == v.pageCount
    && forall p :: p in v.pages ==>
         && p.hasTextLayer && p.assetKey != "" && p.assetKey in storage
         && p.textKey != None && p.textKey != Some("") && p.textKey.value in storage
  }

  // The page as it was, with length and digest of what is stored under its two keys.
  ghost predicate PageMeasured(storage: map<string, Bytes>, was: PageRecord, p: PageRecord)
    requires was.assetKey in storage && was.textKey.Some? && was.textKey.value in storage
  {
    && p.id == was.id && p.index == was.index && p.assetKey == was.assetKey && p.textKey == was.textKey
    && p.hasTextLayer == was.hasTextLayer && p.mimeType == was.mimeType && p.width == was.width && p.height == was.height
    && p.frameByteLength == Some(|storage[was.assetKey]|) && p.frameSha256 == Some(Sha256(storage[was.assetKey]))
    && p.textByteLength == Some(|storage[was.textKey.value]|) && p.textSha256 == Some(Sha256(storage[was.textKey.value]))
  }

  ghost predicate RowOutcome(storage: map<string, Bytes>, was: Row, row: Row) {
    if was.version.eligible || !AllStored(storage, was.version) then row == was
    else
      && row.key == was.key && row.version.eligible && row.version.pageCount == was.version.pageCount
      && |row.version.pages| == |was.version.pages|
      && forall i :: 0 <= i < |was.version.pages| ==>
           was.version.pages[i] in was.version.pages && PageMeasured(storage, was.version.pages[i], row.version.pages[i])
  }

  // Each version that was ineligible is in exactly one list, by whether all its assets are stored, each list is in key order
  // and so names none twice, and the number examined is that of both lists together.
  ghost predicate ListsOutcome(storage: map<string, Bytes>, before: seq<Row>, summary: Summary) {
    && InKeyOrder(summary.promoted) && InKeyOrder(summary.skipped)
    && summary.examined == |summary.promoted| + |summary.skipped|
    && (forall key :: key in summary.promoted <==>
          exists i :: 0 <= i < |before| && before[i].key == key && !before[i].version.eligible && AllStored(storage, before[i].version))
    && (forall key :: key in summary.skipped <==>
          exists i :: 0 <= i < |before| && before[i].key == key && !before[i].version.eligible && !AllStored(storage, before[i].version))
  }

  lemma VerifiableMeansStored(storage: map<string, Bytes>, v: Version)
    ensures Verifiable(storage, v) <==> AllStored(storage, v)
  {
    if Verifiable(storage, v) { assert v.pages[0] in v.pages; }
  }

  lemma SweptRowOutcome(storage: map<string, Bytes>, was: Row, row: Row)
    requires SweptRow(storage, was, row)
    ensures RowOutcome(storage, was, row)
  {
    VerifiableMeansStored(storage, was.version);
  }

  lemma SortedIsInKeyOrder(keys: seq<Key>)
    requires Sorted(Precedes, keys)
    ensures InKeyOrder(keys)
  {
    hide Before;
  }

  lemma {:induction false} SiftKeepsOrder(storage: map<string, Bytes>, before: seq<Row>, keys: seq<Key>, verifies: bool)
    requires Sorted(Precedes, keys)
    ensures Sorted(Precedes, Sift(storage, before, keys, verifies))
    ensures forall k :: k in Sift(storage, before, keys, verifies) ==> k in keys
  {
    hide Precedes, KeyVerifies;
    if keys != [] {
      var most, last := keys[..|keys| - 1], keys[|keys| - 1];
      SiftKeepsOrder(storage, before, most, verifies);
      forall k | k in most ensures Precedes(k, last) {
        var i :| 0 <= i < |most| && most[i] == k;
        assert keys[i] == k;
      }
      assert keys == most + [last];
      var sifted := Sift(storage, before, most, verifies);
      assert forall i :: 0 <= i < |sifted| ==> sifted[i] in most;
    }
  }

  lemma {:induction false} SiftCounts(storage: map<string, Bytes>, before: seq<Row>, keys: seq<Key>)
    ensures |Sift(storage, before, keys, true)| + |Sift(storage, before, keys, false)| == |keys|
  {
    hide KeyVerifies;
    if keys != [] { SiftCounts(storage, before, keys[..|keys| - 1]); }
  }

  // A key is listed by what its own row says.
  lemma ListedByRow(storage: map<string, Bytes>, before: seq<Row>, key: Key, verifies: bool)
    requires Ordered(before)
    ensures key in Ineligible(before) && KeyVerifies(storage, before, key) == verifies <==>
              exists i :: 0 <= i < |before| && before[i].key == key && !before[i].version.eligible
                && AllStored(storage, before[i].version) == verifies
  {
    IneligibleSorted(before);
    hide Ineligible, Precedes, AllStored, Verifiable, KeyVerifies;
    if key in Ineligible(before) {
      var i :| 0 <= i < |before| && !before[i].version.eligible && before[i].key == key;
      VerifiesOnlyHere(storage, before, i);
      VerifiableMeansStored(storage, before[i].version);
    }
    if i :| 0 <= i < |before| && before[i].key == key && !before[i].version.eligible && AllStored(storage, before[i].version) == verifies {
      VerifiesOnlyHere(storage, before, i);
      VerifiableMeansStored(storage, before[i].version);
    }
  }

  lemma SweptMeaning(storage: map<string, Bytes>, before: seq<Row>, rows: seq<Row>, summary: Summary)
    requires Ordered(before) && Swept(storage, before, rows, summary)
    ensures ListsOutcome(storage, before, summary)
    ensures |rows| == |before| && forall i :: 0 <= i < |rows| ==> RowOutcome(storage, before[i], rows[i])
  {
    hide SweptRow, RowOutcome, Ineligible, Sift, Ordered, InKeyOrder;
    forall i | 0 <= i < |rows| ensures RowOutcome(storage, before[i], rows[i]) { SweptRowOutcome(storage, before[i], rows[i]); }
    ListsMeaning(storage, before, summary);
  }

  lemma ListsMeaning(storage: map<string, Bytes>, before: seq<Row>, summary: Summary)
    requires Ordered(before) && summary.examined == |Ineligible(before)|
    requires summary.promoted == Sift(storage, before, Ineligible(before), true)
    requires summary.skipped == Sift(storage, before, Ineligible(before), false)
    ensures ListsOutcome(storage, before, summary)
  {
    hide AllStored, Precedes, KeyVerifies, Verifiable, Sift, Ineligible, Ordered, InKeyOrder, Sorted;
    var keys := Ineligible(before);
    IneligibleSorted(before);
    SiftKeepsOrder(storage, before, keys, true);
    SiftKeepsOrder(storage, before, keys, false);
    SiftCounts(storage, before, keys);
    SiftPartitions(storage, before, keys);
    SortedIsInKeyOrder(summary.promoted);
    SortedIsInKeyOrder(summary.skipped);
    forall key
      ensures key in summary.promoted <==>
                exists i :: 0 <= i < |before| && before[i].key == key && !before[i].version.eligible && AllStored(storage, before[i].version)
      ensures key in summary.skipped <==>
                exists i :: 0 <= i < |before| && before[i].key == key && !before[i].version.eligible && !AllStored(storage, before[i].version)
    {
      ListedByRow(storage, before, key, true);
      ListedByRow(storage, before, key, false);
    }
  }

  // ── The service ──

  class BackfillService {
    var rows: seq<Row>
    const storage: map<string, Bytes>

    constructor (rows: seq<Row>, storage: map<string, Bytes>)
      ensures this.rows == rows && this.storage == storage
    {
      this.rows, this.storage := rows, storage;
    }

    method FindUnique(key: Key) returns (at: Option<nat>)
      ensures at.Some? ==> at.value < |rows| && rows[at.value].key == key
      ensures at.None? ==> forall i :: 0 <= i < |rows| ==> rows[i].key != key
    {
      for i := 0 to |rows|
        invariant forall j :: 0 <= j < i ==> rows[j].key != key
      {
        if rows[i].key == key { return Some(i); }
      }
      at := None;
    }

    // Measures every page from its stored bytes; gives up at the first missing asset without writing anything.
    method MeasurePages(v: Version) returns (pages: Option<seq<PageRecord>>)
      ensures pages.Some? <==> Verifiable(storage, v)
      ensures pages.Some? ==> Promotes(storage, v, v.(eligible := true, pages := pages.value))
    {
      if |v.pages| == 0 || |v.pages| != v.pageCount { return None; }
      if exists i :: 0 <= i < |v.pages| && (v.pages[i].assetKey == "" || v.pages[i].textKey.GetOr("") == "" || !v.pages[i].hasTextLayer) {
        return None;
      }
      var updates := [];
      for n := 0 to |v.pages|
        invariant |updates| == n
        invariant forall i :: 0 <= i < n ==>
          && v.pages[i].assetKey in storage && v.pages[i].textKey.value in storage
          && updates[i] == Measured(v.pages[i], storage[v.pages[i].assetKey], storage[v.pages[i].textKey.value])
      {
        var page := v.pages[n];
        if page.assetKey !in storage { return None; }
        if page.textKey.value !in storage { return None; }
        updates := updates + [Measured(page, storage[page.assetKey], storage[page.textKey.value])];
      }
      pages := Some(updates);
    }

    method BackfillVersion(key: Key) returns (ok: bool)
      modifies this`rows
      ensures |rows| == |old(rows)|
      ensures (forall i :: 0 <= i < |rows| ==> old(rows)[i].key != key) ==> !ok && rows == old(rows)
      ensures !ok ==> rows == old(rows)
      ensures (exists at :: 0 <= at < |rows| && old(rows)[at].key == key) ==>
                exists at :: 0 <= at < |rows| && old(rows)[at].key == key
                  && ok == Verifiable(storage, old(rows)[at].version)
                  && (ok ==> rows[at].key == key && Promotes(storage, old(rows)[at].version, rows[at].version))
                  && forall i :: 0 <= i < |rows| && i != at ==> rows[i] == old(rows)[i]
    {
      var at := FindUnique(key);
      if at.None? { return false; }
      var v := rows[at.value].version;
      var pages := MeasurePages(v);
      if pages.None? { return false; }
      rows := rows[at.value := Row(key, v.(eligible := true, pages := pages.value))];
      ok := true;
    }

    // Sweeps all ineligible versions in key order, `batchSize` to a query, past a cursor that never goes back.
    method BackfillAllIneligible(batchSize: int) returns (summary: Option<Summary>)
      requires Ordered(rows)
      modifies this`rows
      ensures summary.None? <==> batchSize < 1
      ensures summary.None? ==> rows == old(rows)
      ensures summary.Some? ==>
                && ListsOutcome(storage, old(rows), summary.value)
                && |rows| == |old(rows)| && forall i :: 0 <= i < |rows| ==> RowOutcome(storage, old(rows)[i], rows[i])
    {
      if batchSize < 1 { return None; }
      ghost var before := rows;
      ghost var keys := Ineligible(before);
      var examined: nat := 0;
      var promoted, skipped, cursor := [], [], None;
      assert keys[..0] == [];
      assert Examined(storage, before, rows, 0, cursor, promoted, skipped);
      hide *;
      var exhausted := false;
      while !exhausted
        invariant Examined(storage, before, rows, examined, cursor, promoted, skipped)
        invariant examined <= |keys| && (exhausted ==> examined == |keys|)
        decreases !exhausted, |keys| - examined
      {
        var batch := FindMany(before, examined, cursor, promoted, skipped, batchSize);
        if |batch| > 0 {
          promoted, skipped := ExamineBatch(before, examined, batch, cursor, promoted, skipped);
          examined := examined + |batch|;
          cursor := Some(batch[|batch| - 1]);
        }
        exhausted := |batch| < batchSize;
      }
      var result := Summary(examined, promoted, skipped);
      AllExamined(storage, before, rows, cursor, result);
      SweptMeaning(storage, before, rows, result);
      summary := Some(result);
    }

    // The query: the ineligible keys past the cursor, in index order, at most `size` of them.
    method FindMany(ghost before: seq<Row>, ghost n: nat, cursor: Option<Key>, ghost promoted: seq<Key>,
                    ghost skipped: seq<Key>, size: nat)
      returns (batch: seq<Key>)
      requires Ordered(before) && Examined(storage, before, rows, n, cursor, promoted, skipped) && 1 <= size
      ensures IsNext(batch, Ineligible(before), n) && n + |batch| <= |Ineligible(before)|
      ensures |batch| <= size && (|batch| < size ==> n + |batch| == |Ineligible(before)|)
    {
      hide *;
      NextBatch(storage, before, rows, n, cursor, promoted, skipped, size);
      batch := Take(Beyond(Precedes, Ineligible(rows), cursor), size);
    }

    // The inner loop: examine the keys of one batch in turn and push each to its list.
    method ExamineBatch(ghost before: seq<Row>, ghost first: nat, batch: seq<Key>, ghost cursor: Option<Key>,
                        promotedSoFar: seq<Key>, skippedSoFar: seq<Key>)
      returns (promoted: seq<Key>, skipped: seq<Key>)
      requires Ordered(before) && Examined(storage, before, rows, first, cursor, promotedSoFar, skippedSoFar)
      requires 0 < |batch| && IsNext(batch, Ineligible(before), first)
      modifies this`rows
      ensures Examined(storage, before, rows, first + |batch|, Some(batch[|batch| - 1]), promoted, skipped)
    {
      hide SweptUpTo, SweptRow, Ineligible, Precedes, Ordered, Sift, KeyVerifies;
      promoted, skipped := promotedSoFar, skippedSoFar;
      for n := 0 to |batch|
        invariant Examined(storage, before, rows, first + n, if n == 0 then cursor else Some(batch[n - 1]), promoted, skipped)
      {
        var candidate := batch[n];
        var ok := ExamineNext(before, first + n, candidate);
        SiftSnoc(storage, before, Ineligible(before), first + n);
        if ok { promoted := promoted + [candidate]; } else { skipped := skipped + [candidate]; }
      }
    }

    // Examining the next ineligible key sweeps the rows up to it.
    method ExamineNext(ghost before: seq<Row>, ghost n: nat, key: Key) returns (ok: bool)
      requires Ordered(before) && n < |Ineligible(before)| && key == Ineligible(before)[n]
      requires SweptUpTo(storage, before, rows, if n == 0 then None else Some(Ineligible(before)[n - 1]))
      modifies this`rows
      ensures SweptUpTo(storage, before, rows, Some(key))
      ensures ok == KeyVerifies(storage, before, key)
    {
      ghost var at := UntouchedRow(storage, before, rows, n);
      ghost var was := rows;
      ok := BackfillVersion(key);
      ghost var hit :| 0 <= hit < |was| && was[hit].key == key && ok == Verifiable(storage, was[hit].version)
        && (ok ==> rows[hit].key == key && Promotes(storage, was[hit].version, rows[hit].version))
        && forall i :: 0 <= i < |was| && i != hit ==> rows[i] == was[i];
      SameKeys(storage, before, was, if n == 0 then None else Some(Ineligible(before)[n - 1]));
      KeysAreUnique(before, at, hit);
      NextKeySweeps(storage, before, was, rows, n, at);
      VerifiesOnlyHere(storage, before, at);
    }
  }
}
