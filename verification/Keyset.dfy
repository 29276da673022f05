// Keyset paging over rows kept in the order of a unique key.
module Keyset {
  import opened Prelude

  ghost predicate StrictTotal<K(!new)>(less: (K, K) -> bool) {
    && (forall x :: !less(x, x))
    && (forall x, y, z :: less(x, y) && less(y, z) ==> less(x, z))
    && (forall x, y :: x != y ==> less(x, y) || less(y, x))
  }

  ghost predicate Sorted<K>(less: (K, K) -> bool, s: seq<K>) {
    forall i, j :: 0 <= i < j < |s| ==> less(s[i], s[j])
  }

  // The keys strictly past the cursor.
  function Beyond<K>(less: (K, K) -> bool, s: seq<K>, cursor: Option<K>): seq<K> {
    if s == [] then []
    else (if cursor.None? || less(cursor.value, s[0]) then [s[0]] else []) + Beyond(less, s[1..], cursor)
  }

  function Take<T>(s: seq<T>, n: nat): (t: seq<T>)
    ensures |t| == if |s| <= n then |s| else n
  {
    if |s| <= n then s else s[..n]
  }

  lemma {:induction false} AllBeyond<K>(less: (K, K) -> bool, s: seq<K>, cursor: Option<K>)
    requires forall i :: 0 <= i < |s| ==> cursor.None? || less(cursor.value, s[i])
    ensures Beyond(less, s, cursor) == s
  {
    if s != [] { AllBeyond(less, s[1..], cursor); }
  }

  lemma {:induction false} NoneBeyond<K>(less: (K, K) -> bool, s: seq<K>, cursor: K)
    requires forall i :: 0 <= i < |s| ==> !less(cursor, s[i])
    ensures Beyond(less, s, Some(cursor)) == []
  {
    if s != [] { NoneBeyond(less, s[1..], cursor); }
  }

  lemma {:induction false} BeyondConcat<K>(less: (K, K) -> bool, s: seq<K>, t: seq<K>, cursor: Option<K>)
    ensures Beyond(less, s + t, cursor) == Beyond(less, s, cursor) + Beyond(less, t, cursor)
  {
    if s == [] {
      assert s + t == t;
    } else {
      assert (s + t)[1..] == s[1..] + t;
      BeyondConcat(less, s[1..], t, cursor);
    }
  }

  // What lies past a cursor, of a list in key order: again in key order, and exactly the keys past it.
  lemma {:induction false} BeyondKeepsOrder<K(!new)>(less: (K, K) -> bool, s: seq<K>, cursor: Option<K>)
    requires Sorted(less, s)
    ensures Sorted(less, Beyond(less, s, cursor))
    ensures forall k :: k in Beyond(less, s, cursor) <==> k in s && (cursor.None? || less(cursor.value, k))
  {
    if s != [] {
      BeyondKeepsOrder(less, s[1..], cursor);
      assert s == [s[0]] + s[1..];
      forall k | k in s[1..] ensures less(s[0], k) {
        var i :| 0 <= i < |s[1..]| && s[1..][i] == k;
        assert less(s[0], s[i + 1]);
      }
    }
  }

  // Two lists in key order, the second past the last key of the first.
  lemma SortedConcat<K(!new)>(less: (K, K) -> bool, s: seq<K>, t: seq<K>)
    requires StrictTotal(less) && Sorted(less, s) && Sorted(less, t) && s != []
    requires forall k :: k in t ==> less(s[|s| - 1], k)
    ensures Sorted(less, s + t)
  {
    forall i, j | 0 <= i < j < |s + t| ensures less((s + t)[i], (s + t)[j]) {
      if i < |s| <= j {
        assert t[j - |s|] in t;
        assert i < |s| - 1 ==> less(s[i], s[|s| - 1]);
      }
    }
  }

  lemma Asymmetric<K(!new)>(less: (K, K) -> bool, x: K, y: K)
    requires StrictTotal(less) && (x == y || less(x, y))
    ensures !less(y, x)
  {
    assert !less(x, x);
    assert less(x, y) && less(y, x) ==> less(x, x);
  }

  // In key order, what lies past one of the keys is exactly what follows it.
  lemma BeyondIsSuffix<K(!new)>(less: (K, K) -> bool, s: seq<K>, n: nat)
    requires StrictTotal(less) && Sorted(less, s) && n < |s|
    ensures Beyond(less, s, Some(s[n])) == s[n + 1..]
  {
    hide StrictTotal;
    var head := s[..n + 1];
    assert s == head + s[n + 1..];
    BeyondConcat(less, head, s[n + 1..], Some(s[n]));
    forall i | 0 <= i < |head| ensures !less(s[n], head[i]) {
      Asymmetric(less, head[i], s[n]);
    }
    NoneBeyond(less, head, s[n]);
    AllBeyond(less, s[n + 1..], Some(s[n]));
  }

  // A short batch is the last one.
  lemma TakeIsNext<T>(s: seq<T>, n: nat, size: nat)
    requires n <= |s| && 1 <= size
    ensures var batch := Take(s[n..], size);
            && n + |batch| <= |s| && batch == s[n..n + |batch|]
            && (|batch| < size ==> n + |batch| == |s|)
  {
  }

  // Fetching one more than a page tells whether anything follows the page.
  lemma OneMoreThanAPage<T>(s: seq<T>, n: nat)
    ensures |Take(s, n + 1)| > n <==> |s| > n
    ensures Take(Take(s, n + 1), n) == if |s| > n then s[..n] else s
  {
  }

  lemma Window<T>(s: seq<T>, from: nat, n: nat)
    requires from + n < |s|
    ensures s[from..][..n] == s[from..from + n] && s[from..] == s[from..][..n] + s[from + n..]
    ensures 0 < n ==> s[from..][..n][n - 1] == s[from + n - 1]
  {
  }
}
