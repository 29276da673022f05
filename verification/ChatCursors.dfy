// Message cursors as text: the instant in ISO form, a bar, and the id. The base64url wrapping is left out.
module ChatCursors {
  import opened Prelude
  import opened Text
  import opened DayKeys
  import opened Keyset
  import opened ChatPaging

  // ── Instants in ISO form ──

  function ClockText(ms: nat): string {
    Pad(2, ms / 3_600_000) + (":" + (Pad(2, ms / 60_000 % 60) + (":" + (Pad(2, ms / 1000 % 60) + ("." + Pad(3, ms % 1000))))))
  }

  function IsoInstant(t: Time): string {
    IsoDay(t / MS_PER_DAY) + ("T" + ClockText(t % MS_PER_DAY) + "Z")
  }

  // The milliseconds since midnight.
  function ParseClock(s: string): Option<nat> {
    if && |s| == 12 && s[2] == ':' && s[5] == ':' && s[8] == '.'
       && AllDigits(s[..2]) && AllDigits(s[3..5]) && AllDigits(s[6..8]) && AllDigits(s[9..])
       && Value(s[..2]) < 24 && Value(s[3..5]) < 60 && Value(s[6..8]) < 60
    then Some(3_600_000 * Value(s[..2]) + 60_000 * Value(s[3..5]) + 1000 * Value(s[6..8]) + Value(s[9..]))
    else None
  }

  // Strings of other shapes are outside the model and read as no date.
  function ParseInstant(s: string): Option<Time> {
    if |s| == 24 && IsDayKey(s[..10]) && s[10] == 'T' && ParseClock(s[11..23]).Some? && s[23] == 'Z'
    then Some(DayOf(s[..10]) * MS_PER_DAY + ParseClock(s[11..23]).value)
    else None
  }

  lemma ClockFields(ms: nat)
    ensures var s := ClockText(ms);
            && |s| == 12 && s[2] == ':' && s[5] == ':' && s[8] == '.'
            && s[..2] == Pad(2, ms / 3_600_000) && s[3..5] == Pad(2, ms / 60_000 % 60)
            && s[6..8] == Pad(2, ms / 1000 % 60) && s[9..] == Pad(3, ms % 1000)
  {
  }

  lemma ClockParts(ms: nat)
    requires ms < MS_PER_DAY
    ensures ms / 3_600_000 < 24
    ensures 3_600_000 * (ms / 3_600_000) + 60_000 * (ms / 60_000 % 60) + 1000 * (ms / 1000 % 60) + ms % 1000 == ms
  {
    assert ms / 60_000 / 60 == ms / 3_600_000;
    assert ms / 1000 / 60 == ms / 60_000;
  }

  lemma ParseOfClock(ms: nat)
    requires ms < MS_PER_DAY
    ensures ParseClock(ClockText(ms)) == Some(ms)
  {
    hide ClockText, Pad, Value, Pow10;
    ClockFields(ms);
    ClockParts(ms);
    Powers();
    ValueOfPad(2, ms / 3_600_000);
    ValueOfPad(2, ms / 60_000 % 60);
    ValueOfPad(2, ms / 1000 % 60);
    ValueOfPad(3, ms % 1000);
  }

  lemma InstantFields(day: string, clock: string)
    requires |day| == 10 && |clock| == 12
    ensures var s := day + ("T" + clock + "Z");
            && |s| == 24 && s[..10] == day && s[10] == 'T' && s[11..23] == clock && s[23] == 'Z'
  {
  }

  lemma ParseOfFields(day: string, clock: string)
    requires IsDayKey(day) && ParseClock(clock).Some?
    ensures var s := day + ("T" + clock + "Z");
            |s| == 24 && ParseInstant(s) == Some(DayOf(day) * MS_PER_DAY + ParseClock(clock).value)
  {
    KeyLength(day);
    assert |clock| == 12;
    hide ParseDay, ParseClock;
    InstantFields(day, clock);
  }

  lemma ParseOfIsoInstant(t: Time)
    requires Keyed(t / MS_PER_DAY)
    ensures |IsoInstant(t)| == 24 && ParseInstant(IsoInstant(t)) == Some(t)
  {
    hide IsoDay, ClockText, ParseDay, ParseClock, ParseInstant, Keyed;
    ParseOfIsoDay(t / MS_PER_DAY);
    ParseOfClock(t % MS_PER_DAY);
    ParseOfFields(IsoDay(t / MS_PER_DAY), ClockText(t % MS_PER_DAY));
  }

  lemma KeyLength(day: string)
    requires IsDayKey(day)
    ensures |day| == 10
  {
  }

  // ── Cursors ──

  function EncodeCursor(key: Key): string {
    IsoInstant(key.createdAt) + ("|" + key.id)
  }

  // The position of the last bar, or -1.
  function LastBar(s: string): (i: int)
    ensures -1 <= i < |s|
    ensures 0 <= i ==> s[i] == '|'
    ensures forall k :: i < k < |s| ==> s[k] != '|'
  {
    if s == "" then -1 else if s[|s| - 1] == '|' then |s| - 1 else LastBar(s[..|s| - 1])
  }

  // None is the invalid cursor.
  function DecodeCursor(raw: string): Option<Key> {
    var separator := LastBar(raw);
    if separator <= 0 || separator == |raw| - 1 then None
    else
      var createdAt := ParseInstant(raw[..separator]);
      var id := raw[separator + 1..];
      if createdAt.None? || id == "" then None else Some(Key(createdAt.value, id))
  }

  predicate Encodable(key: Key) {
    Keyed(key.createdAt / MS_PER_DAY) && key.id != "" && '|' !in key.id
  }

  // For an instant of a four-digit year, decoding gives the key back exactly when the id is not empty and has no bar.
  lemma DecodeInvertsEncode(key: Key)
    requires Keyed(key.createdAt / MS_PER_DAY)
    ensures DecodeCursor(EncodeCursor(key)) == Some(key) <==> key.id != "" && '|' !in key.id
  {
    hide IsoInstant, ParseInstant, LastBar;
    var raw, head := EncodeCursor(key), IsoInstant(key.createdAt);
    ParseOfIsoInstant(key.createdAt);
    CutAt24(head, key.id);
    if '|' in key.id {
      var k :| 0 <= k < |key.id| && key.id[k] == '|';
      assert raw[25 + k] == '|';
      assert |raw[LastBar(raw) + 1..]| < |key.id|;
    } else {
      assert forall k :: 24 < k < |raw| ==> raw[k] == key.id[k - 25];
      assert LastBar(raw) == 24;
    }
  }

  lemma PadThree(n: nat)
    requires n < 1000
    ensures Pad(3, n) == [DIGITS[n / 100], DIGITS[n / 10 % 10], DIGITS[n % 10]]
  {
    hide Pad;
    PadStep(3, n);
    PadTwo(n / 10);
    assert n / 10 / 10 == n / 100;
  }

  // How a clock time reads: hours, minutes, seconds and milliseconds.
  lemma ClockReads(h: nat, m: nat, s: nat, f: nat)
    requires h < 24 && m < 60 && s < 60 && f < 1000
    ensures ClockText(3_600_000 * h + 60_000 * m + 1000 * s + f)
         == [DIGITS[h / 10], DIGITS[h % 10], ':', DIGITS[m / 10], DIGITS[m % 10], ':',
             DIGITS[s / 10], DIGITS[s % 10], '.', DIGITS[f / 100], DIGITS[f / 10 % 10], DIGITS[f % 10]]
  {
    hide Pad;
    ClockDivides(h, m, s, f);
    PadTwo(h);
    PadTwo(m);
    PadTwo(s);
    PadThree(f);
  }

  lemma ClockDivides(h: nat, m: nat, s: nat, f: nat)
    requires m < 60 && s < 60 && f < 1000
    ensures var ms := 3_600_000 * h + 60_000 * m + 1000 * s + f;
            ms / 3_600_000 == h && ms / 60_000 % 60 == m && ms / 1000 % 60 == s && ms % 1000 == f
  {
    var ms := 3_600_000 * h + 60_000 * m + 1000 * s + f;
    assert ms / 1000 == 3600 * h + 60 * m + s;
    assert ms / 60_000 == 60 * h + m;
  }

  // Printing an instant and reading it are inverse to each other: whatever reads as an instant is that instant printed.
  lemma IsoInstantOfParse(text: string, t: Time)
    requires ParseInstant(text) == Some(t)
    ensures IsoInstant(t) == text
  {
    hide *;
    InstantParts(text, t);
    FieldsOfInstant(text[..10], text[11..23]);
  }

  lemma InstantParts(text: string, t: Time)
    requires ParseInstant(text) == Some(t)
    ensures |text| == 24 && IsDayKey(text[..10]) && ParseClock(text[11..23]).Some?
    ensures t == DayOf(text[..10]) * MS_PER_DAY + ParseClock(text[11..23]).value
    ensures text == text[..10] + ("T" + text[11..23] + "Z")
  {
    hide ParseClock, ParseDay;
    CutInstant(text);
  }

  lemma FieldsOfInstant(day: string, clock: string)
    requires IsDayKey(day) && ParseClock(clock).Some?
    ensures IsoInstant(DayOf(day) * MS_PER_DAY + ParseClock(clock).value) == day + ("T" + clock + "Z")
  {
    hide ParseClock, ParseDay, ClockText, IsoDay, Keyed, IsDayKey, DayOf;
    IsoDayOfParse(day);
    ClockOfParse(clock);
    DayAndClock(DayOf(day), ParseClock(clock).value);
  }

  lemma CutInstant(text: string)
    requires |text| == 24 && text[10] == 'T' && text[23] == 'Z'
    ensures text == text[..10] + ("T" + text[11..23] + "Z")
  {
  }

  lemma DayAndClock(n: int, ms: nat)
    requires ms < MS_PER_DAY
    ensures (n * MS_PER_DAY + ms) / MS_PER_DAY == n && (n * MS_PER_DAY + ms) % MS_PER_DAY == ms
  {
  }

  lemma ClockOfParse(clock: string)
    requires ParseClock(clock).Some?
    ensures ParseClock(clock).value < MS_PER_DAY && ClockText(ParseClock(clock).value) == clock
  {
    hide Pad, Value, Pow10, AllDigits, ClockText;
    CutClock(clock);
    FieldPrints(2, clock[..2]);
    FieldPrints(2, clock[3..5]);
    FieldPrints(2, clock[6..8]);
    FieldPrints(3, clock[9..]);
    ClockPads(Value(clock[..2]), Value(clock[3..5]), Value(clock[6..8]), Value(clock[9..]));
  }

  lemma FieldPrints(width: nat, s: string)
    requires |s| == width && (width == 2 || width == 3) && AllDigits(s)
    ensures Pad(width, Value(s)) == s && (width == 3 ==> Value(s) < 1000)
  {
    hide *;
    Powers();
    PadOfValue(s);
  }

  lemma CutClock(clock: string)
    requires |clock| == 12 && clock[2] == ':' && clock[5] == ':' && clock[8] == '.'
    ensures clock == clock[..2] + (":" + (clock[3..5] + (":" + (clock[6..8] + ("." + clock[9..])))))
  {
  }

  lemma ClockPads(h: nat, m: nat, s: nat, f: nat)
    requires m < 60 && s < 60 && f < 1000
    ensures ClockText(3_600_000 * h + 60_000 * m + 1000 * s + f)
         == Pad(2, h) + (":" + (Pad(2, m) + (":" + (Pad(2, s) + ("." + Pad(3, f))))))
  {
    hide Pad;
    ClockDivides(h, m, s, f);
  }

  // A cursor is read exactly when a date, a bar and a non-empty id without a bar make it up.
  lemma DecodedExactly(raw: string, key: Key)
    ensures DecodeCursor(raw) == Some(key) <==>
              && key.id != "" && '|' !in key.id
              && exists date :: ParseInstant(date) == Some(key.createdAt) && raw == date + "|" + key.id
  {
    hide ParseInstant;
    if DecodeCursor(raw) == Some(key) { DecodedParts(raw, key); }
    hide DecodeCursor;
    if key.id != "" && '|' !in key.id {
      forall date | ParseInstant(date) == Some(key.createdAt) && raw == date + "|" + key.id ensures DecodeCursor(raw) == Some(key) {
        PartsDecode(date, key);
      }
    }
  }

  lemma DecodedParts(raw: string, key: Key)
    requires DecodeCursor(raw) == Some(key)
    ensures key.id != "" && '|' !in key.id
    ensures exists date :: ParseInstant(date) == Some(key.createdAt) && raw == date + "|" + key.id
  {
    hide ParseInstant, LastBar;
    var bar := LastBar(raw);
    assert key.id == raw[bar + 1..];
    CutAtBar(raw, bar);
  }

  lemma CutAtBar(raw: string, bar: nat)
    requires bar < |raw| && raw[bar] == '|' && forall k :: bar < k < |raw| ==> raw[k] != '|'
    ensures raw == raw[..bar] + "|" + raw[bar + 1..] && '|' !in raw[bar + 1..]
  {
  }

  lemma PartsDecode(date: string, key: Key)
    requires key.id != "" && '|' !in key.id && ParseInstant(date) == Some(key.createdAt)
    ensures DecodeCursor(date + "|" + key.id) == Some(key)
  {
    NoDateIsEmpty(date);
    hide ParseInstant;
    var raw := date + "|" + key.id;
    assert raw[|date|] == '|' && forall k :: |date| < k < |raw| ==> raw[k] == key.id[k - |date| - 1];
    assert LastBar(raw) == |date| && raw[..|date|] == date && raw[|date| + 1..] == key.id;
  }

  lemma NoDateIsEmpty(date: string)
    ensures ParseInstant(date).Some? ==> |date| == 24
  {
  }

  lemma CutAt24(head: string, id: string)
    requires |head| == 24
    ensures var raw := head + ("|" + id); raw[24] == '|' && raw[25..] == id && raw[..24] == head
  {
  }

  // ── Paging with cursors as text ──

  // An empty cursor asks for the first page; None is the invalid cursor.
  function GetMessagesAfter(table: Table, cursor: string, limit: int): Option<Page> {
    if cursor == "" then Some(GetMessages(table, None, limit))
    else match DecodeCursor(cursor)
      case None => None
      case Some(key) => Some(GetMessages(table, Some(key), limit))
  }

  function FollowEncoded(tables: seq<Table>, cursor: string, limit: int): Option<seq<Key>> {
    if tables == [] then Some([]) else
      match GetMessagesAfter(tables[0], cursor, limit)
      case None => None
      case Some(page) =>
        if page.hasNextPage && page.items != [] then
          match FollowEncoded(tables[1..], EncodeCursor(page.items[|page.items| - 1]), limit)
          case None => None
          case Some(rest) => Some(page.items + rest)
        else Some(page.items)
  }

  lemma {:induction false} BeyondIsPart<K>(less: (K, K) -> bool, s: seq<K>, cursor: Option<K>)
    ensures forall k :: k in Beyond(less, s, cursor) ==> k in s
  {
    if s != [] { BeyondIsPart(less, s[1..], cursor); }
  }

  lemma PageIsVisible(table: Table, cursor: Option<Key>, limit: int)
    ensures forall k :: k in GetMessages(table, cursor, limit).items ==> k in Visible(table)
  {
    BeyondIsPart(Newer, Visible(table), cursor);
  }

  lemma {:induction false} EncodedFollowsKeys(tables: seq<Table>, cursor: Option<Key>, text: string, limit: int)
    requires forall k, key :: 0 <= k < |tables| && key in Visible(tables[k]) ==> Encodable(key)
    requires if cursor.None? then text == "" else Encodable(cursor.value) && text == EncodeCursor(cursor.value)
    ensures FollowEncoded(tables, text, limit) == Some(FollowCursors(tables, cursor, limit))
    decreases |tables|
  {
    hide GetMessages, Visible, Encodable, EncodeCursor, DecodeCursor;
    if tables != [] {
      if cursor.Some? { CursorReads(cursor.value); }
      var page := GetMessages(tables[0], cursor, limit);
      if page.hasNextPage && page.items != [] {
        var last := page.items[|page.items| - 1];
        PageIsVisible(tables[0], cursor, limit);
        EncodedFollowsKeys(tables[1..], Some(last), EncodeCursor(last), limit);
      }
    }
  }

  lemma CursorReads(key: Key)
    requires Encodable(key)
    ensures EncodeCursor(key) != "" && DecodeCursor(EncodeCursor(key)) == Some(key)
  {
    DecodeInvertsEncode(key);
    ParseOfIsoInstant(key.createdAt);
  }

  // Paging with the cursors the server hands out: no request fails, and every message visible at the first request comes
  // exactly once, newest first, whatever newer messages arrive meanwhile.
  lemma EncodedPagingVisitsAllOnce(tables: seq<Table>, limit: int)
    requires 1 <= |tables| && |Visible(tables[0])| <= |tables|
    requires forall k :: 0 <= k < |tables| ==> Ordered(tables[k]) && OnlyNewerArrived(Visible(tables[0]), Visible(tables[k]))
    requires forall k, key :: 0 <= k < |tables| && key in Visible(tables[k]) ==> Encodable(key)
    ensures var got := FollowEncoded(tables, "", limit);
            && got.Some? && Descending(got.value)
            && forall key :: key in got.value <==>
                 exists i :: 0 <= i < |tables[0]| && !tables[0][i].deleted && tables[0][i].key == key
  {
    EncodedFollowsKeys(tables, None, "", limit);
    PagingVisitsAllOnce(tables, limit);
    hide *;
  }

  // The same when messages are deleted or arrive anywhere meanwhile: no request fails, and what was visible at all of them
  // comes exactly once, newest first.
  lemma EncodedPagingVisitsWhatStays(tables: seq<Table>, limit: int)
    requires Finished(tables, None, limit) && forall k :: 0 <= k < |tables| ==> Ordered(tables[k])
    requires forall k, key :: 0 <= k < |tables| && key in Visible(tables[k]) ==> Encodable(key)
    ensures FollowEncoded(tables, "", limit).Some? && Visits(tables, None, FollowEncoded(tables, "", limit).value)
  {
    hide Finished, Visits, Visible, Ordered, Encodable;
    EncodedFollowsKeys(tables, None, "", limit);
    PagingVisitsWhatStays(tables, None, limit);
  }
}
