// Paging back through the messages of one conversation.
module ChatPaging {
  import opened Prelude
  import opened Text
  import opened Keyset

  type Time = int

  datatype Key = Key(createdAt: Time, id: string)

  datatype Message = Message(key: Key, senderId: string, body: string, deleted: bool)

  // Newest first; messages of one instant by id, descending.
  predicate Newer(a: Key, b: Key) {
    a.createdAt > b.createdAt || (a.createdAt == b.createdAt && Before(b.id, a.id))
  }

  lemma NewerIsStrictTotal()
    ensures StrictTotal(Newer)
  {
    forall x ensures !Newer(x, x) { BeforeIrreflexive(x.id); }
    forall x, y, z | Newer(x, y) && Newer(y, z) ensures Newer(x, z) {
      if Before(y.id, x.id) && Before(z.id, y.id) { BeforeTransitive(z.id, y.id, x.id); }
    }
    forall x, y | x != y ensures Newer(x, y) || Newer(y, x) { BeforeTotal(x.id, y.id); }
  }

  // From the newest message to the oldest, and messages of one instant by id from the last to the first.
  ghost predicate Descending(keys: seq<Key>) {
    forall i, j :: 0 <= i < j < |keys| ==>
      keys[j].createdAt < keys[i].createdAt || (keys[j].createdAt == keys[i].createdAt && Before(keys[j].id, keys[i].id))
  }

  lemma SortedIsDescending(keys: seq<Key>)
    ensures Sorted(Newer, keys) <==> Descending(keys)
  {
    hide Before;
  }

  // A conversation's message table, read through its index: newest first.
  type Table = seq<Message>

  ghost predicate Ordered(table: Table) {
    forall i, j :: 0 <= i < j < |table| ==> Newer(table[i].key, table[j].key)
  }

  // The keys of the messages that are not deleted.
  function Visible(table: Table): seq<Key> {
    if table == [] then []
    else (if table[0].deleted then [] else [table[0].key]) + Visible(table[1..])
  }

  lemma {:induction false} VisibleSorted(table: Table)
    requires Ordered(table)
    ensures Sorted(Newer, Visible(table))
    ensures forall k :: k in Visible(table) <==> exists i :: 0 <= i < |table| && !table[i].deleted && table[i].key == k
  {
    if table != [] {
      VisibleSorted(table[1..]);
      forall k | k in Visible(table[1..]) ensures Newer(table[0].key, k) {
        var i :| 0 <= i < |table[1..]| && table[1..][i].key == k;
        assert Newer(table[0].key, table[i + 1].key);
      }
      forall k | exists i :: 0 <= i < |table| && !table[i].deleted && table[i].key == k ensures k in Visible(table) {
        var i :| 0 <= i < |table| && !table[i].deleted && table[i].key == k;
        if 0 < i { assert table[1..][i - 1].key == k; }
      }
      forall k | k in Visible(table) ensures exists i :: 0 <= i < |table| && !table[i].deleted && table[i].key == k {
        if k in Visible(table[1..]) {
          var i :| 0 <= i < |table[1..]| && !table[1..][i].deleted && table[1..][i].key == k;
          assert table[i + 1].key == k;
        } else {
          assert table[0].key == k;
        }
      }
    }
  }

  datatype Page = Page(items: seq<Key>, hasNextPage: bool)

  function SafeLimit(limit: int): (n: nat)
    ensures n == if limit < 1 then 1 else if 100 < limit then 100 else limit
  {
    if limit < 1 then 1 else if limit > 100 then 100 else limit
  }

  // One query: one more than the limit is fetched to learn whether another page follows.
  function GetMessages(table: Table, cursor: Option<Key>, limit: int): Page {
    var n := SafeLimit(limit);
    var messages := Take(Beyond(Newer, Visible(table), cursor), n + 1);
    Page(Take(messages, n), |messages| > n)
  }

  // One request, told by what lies past its cursor.
  lemma PageOf(table: Table, cursor: Option<Key>, rest: seq<Key>, limit: int)
    requires Beyond(Newer, Visible(table), cursor) == rest
    ensures var n := SafeLimit(limit);
            GetMessages(table, cursor, limit) == if |rest| > n then Page(rest[..n], true) else Page(rest, false)
  {
    hide Beyond, Take, SafeLimit;
    OneMoreThanAPage(rest, SafeLimit(limit));
  }

  // A page holds the next messages after its cursor, as many as the limit allows, and says whether any are left.
  lemma PageIsNext(table: Table, n: nat, limit: int)
    requires Ordered(table) && n <= |Visible(table)|
    ensures var page := GetMessages(table, if n == 0 then None else Some(Visible(table)[n - 1]), limit);
            var end := n + if limit < 1 then 1 else if 100 < limit then 100 else limit;
            && page.items == Visible(table)[n..if end < |Visible(table)| then end else |Visible(table)|]
            && (page.hasNextPage <==> end < |Visible(table)|)
  {
    hide Ordered, Visible, Beyond, GetMessages, SafeLimit;
    var visible, size := Visible(table), SafeLimit(limit);
    BeyondFrom(table, n);
    PageOf(table, if n == 0 then None else Some(visible[n - 1]), visible[n..], limit);
    if n + size < |visible| { Window(visible, n, size); }
  }

  lemma BeyondFrom(table: Table, n: nat)
    requires Ordered(table) && n <= |Visible(table)|
    ensures Beyond(Newer, Visible(table), if n == 0 then None else Some(Visible(table)[n - 1])) == Visible(table)[n..]
  {
    hide Ordered, Visible, Newer, Beyond, StrictTotal, Sorted;
    var visible := Visible(table);
    VisibleSorted(table);
    if n == 0 {
      AllBeyond(Newer, visible, None);
      assert visible[0..] == visible;
    } else {
      NewerIsStrictTotal();
      BeyondIsSuffix(Newer, visible, n - 1);
    }
  }

  // A reader that follows the last cursor of each page until there is no next page. The k-th request meets the
  // table as it is by then. One request for each message is always enough.
  function FollowCursors(tables: seq<Table>, cursor: Option<Key>, limit: int): seq<Key> {
    if tables == [] then [] else
      var page := GetMessages(tables[0], cursor, limit);
      if page.hasNextPage && page.items != []
      then page.items + FollowCursors(tables[1..], Some(page.items[|page.items| - 1]), limit)
      else page.items
  }

  // Since the first request only newer messages have arrived.
  ghost predicate OnlyNewerArrived(first: seq<Key>, now: seq<Key>) {
    |first| <= |now| && now[|now| - |first|..] == first
  }

  // Past a message of the first table, a later table shows exactly what the first showed.
  lemma PastCursorUnchanged(first: seq<Key>, table: Table, n: nat)
    requires Ordered(table) && OnlyNewerArrived(first, Visible(table)) && n < |first|
    ensures Beyond(Newer, Visible(table), Some(first[n])) == first[n + 1..]
  {
    VisibleSorted(table);
    NewerIsStrictTotal();
    var now := Visible(table);
    var at := |now| - |first| + n;
    assert now[at] == first[n];
    BeyondIsSuffix(Newer, now, at);
    assert now[at + 1..] == now[|now| - |first|..][n + 1..];
  }

  lemma {:induction false} FollowFrom(first: seq<Key>, tables: seq<Table>, done: nat, limit: int)
    requires 1 <= done < |first| && |first| - done <= |tables|
    requires forall k :: 0 <= k < |tables| ==> Ordered(tables[k]) && OnlyNewerArrived(first, Visible(tables[k]))
    ensures FollowCursors(tables, Some(first[done - 1]), limit) == first[done..]
    decreases |tables|
  {
    hide Ordered, Beyond, Visible, GetMessages, SafeLimit, OnlyNewerArrived;
    var n, rest := SafeLimit(limit), first[done..];
    PastCursorUnchanged(first, tables[0], done - 1);
    PageOf(tables[0], Some(first[done - 1]), rest, limit);
    if |rest| > n {
      Window(first, done, n);
      FollowFrom(first, tables[1..], done + n, limit);
    }
  }

  lemma FollowAll(tables: seq<Table>, limit: int)
    requires 1 <= |tables| && |Visible(tables[0])| <= |tables|
    requires forall k :: 0 <= k < |tables| ==> Ordered(tables[k]) && OnlyNewerArrived(Visible(tables[0]), Visible(tables[k]))
    ensures FollowCursors(tables, None, limit) == Visible(tables[0])
  {
    hide Ordered, Visible, Newer, Beyond, GetMessages, SafeLimit, OnlyNewerArrived;
    var first, n := Visible(tables[0]), SafeLimit(limit);
    AllBeyond(Newer, first, None);
    PageOf(tables[0], None, first, limit);
    if |first| > n {
      FollowFrom(first, tables[1..], n, limit);
    }
  }

  // For any limit, following cursors until there is no next page yields every message that was visible at the first
  // request exactly once, in strictly descending (createdAt, id) order, also when newer messages arrive meanwhile.
  lemma PagingVisitsAllOnce(tables: seq<Table>, limit: int)
    requires 1 <= |tables| && |Visible(tables[0])| <= |tables|
    requires forall k :: 0 <= k < |tables| ==> Ordered(tables[k]) && OnlyNewerArrived(Visible(tables[0]), Visible(tables[k]))
    ensures var got := FollowCursors(tables, None, limit);
            && Descending(got)
            && forall key :: key in got <==> exists i :: 0 <= i < |tables[0]| && !tables[0][i].deleted && tables[0][i].key == key
  {
    FollowAll(tables, limit);
    VisibleSorted(tables[0]);
    SortedIsDescending(FollowCursors(tables, None, limit));
    hide *;
  }

  // ── Deletions and arrivals of any kind ──

  // The tables are those the requests met, and the last request said that no page follows.
  ghost predicate Finished(tables: seq<Table>, cursor: Option<Key>, limit: int) {
    && tables != []
    && var page := GetMessages(tables[0], cursor, limit);
       if page.hasNextPage && page.items != [] then Finished(tables[1..], Some(page.items[|page.items| - 1]), limit)
       else |tables| == 1
  }

  predicate Past(cursor: Option<Key>, key: Key) {
    cursor.None? || Newer(cursor.value, key)
  }

  ghost predicate VisibleAtAll(tables: seq<Table>, key: Key) {
    forall k :: 0 <= k < |tables| ==> key in Visible(tables[k])
  }

  ghost predicate Visits(tables: seq<Table>, cursor: Option<Key>, got: seq<Key>) {
    && Descending(got)
    && (forall key :: key in got ==> Past(cursor, key) && exists k :: 0 <= k < |tables| && key in Visible(tables[k]))
    && (forall key :: Past(cursor, key) && VisibleAtAll(tables, key) ==> key in got)
  }

  lemma LastPage(tables: seq<Table>, cursor: Option<Key>, rest: seq<Key>)
    requires |tables| == 1 && Sorted(Newer, rest)
    requires forall key :: key in rest <==> key in Visible(tables[0]) && Past(cursor, key)
    ensures Visits(tables, cursor, rest)
  {
    SortedIsDescending(rest);
    hide Newer, Visible, Sorted, Past, Descending;
  }

  lemma OnePage(tables: seq<Table>, cursor: Option<Key>, rest: seq<Key>, n: nat, more: seq<Key>)
    requires 1 <= n < |rest| && tables != [] && Sorted(Newer, rest)
    requires forall key :: key in rest <==> key in Visible(tables[0]) && Past(cursor, key)
    requires Visits(tables[1..], Some(rest[n - 1]), more)
    ensures Visits(tables, cursor, rest[..n] + more)
  {
    NewerIsStrictTotal();
    SortedIsDescending(more);
    SortedIsDescending(rest[..n] + more);
    hide Newer, Visible, Descending;
    var items, got := rest[..n], rest[..n] + more;
    var last := rest[n - 1];
    assert items[|items| - 1] == last && last in rest;
    SortedConcat(Newer, items, more);
    hide Sorted;
    forall key | key in got ensures Past(cursor, key) && exists k :: 0 <= k < |tables| && key in Visible(tables[k]) {
      if key in more {
        var k :| 0 <= k < |tables[1..]| && key in Visible(tables[1..][k]);
        assert key in Visible(tables[k + 1]);
      } else {
        assert key in rest;
      }
    }
    forall key | Past(cursor, key) && VisibleAtAll(tables, key) ensures key in got {
      assert key in rest;
      var i :| 0 <= i < |rest| && rest[i] == key;
      if i < n {
        assert items[i] == key;
      } else {
        AfterLast(rest, n, i);
        assert VisibleAtAll(tables[1..], key);
      }
    }
  }

  lemma AfterLast(rest: seq<Key>, n: nat, i: nat)
    requires 1 <= n <= i < |rest| && Sorted(Newer, rest)
    ensures Newer(rest[n - 1], rest[i])
  {
  }

  // Whatever is deleted or arrives between the requests: the reader gets every message that was visible at all of its
  // requests, exactly once and in strictly descending order, and nothing that was visible at none of them.
  lemma {:induction false} PagingVisitsWhatStays(tables: seq<Table>, cursor: Option<Key>, limit: int)
    requires Finished(tables, cursor, limit) && forall k :: 0 <= k < |tables| ==> Ordered(tables[k])
    ensures Visits(tables, cursor, FollowCursors(tables, cursor, limit))
    decreases |tables|
  {
    hide Ordered, Visible, Newer, Beyond, GetMessages, SafeLimit, Sorted, Visits;
    var n, rest := SafeLimit(limit), Beyond(Newer, Visible(tables[0]), cursor);
    VisibleSorted(tables[0]);
    BeyondKeepsOrder(Newer, Visible(tables[0]), cursor);
    PageOf(tables[0], cursor, rest, limit);
    if |rest| > n {
      assert rest[..n][n - 1] == rest[n - 1];
      PagingVisitsWhatStays(tables[1..], Some(rest[n - 1]), limit);
      OnePage(tables, cursor, rest, n, FollowCursors(tables[1..], Some(rest[n - 1]), limit));
    } else {
      LastPage(tables, cursor, rest);
    }
  }
}
