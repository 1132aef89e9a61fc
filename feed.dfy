/** The `survivordelay3h` feed (src/algos/survivordelay3h.ts): a page of
    the stored posts that are at least three hours old, newest first, with
    an explanation post pinned on the first page and a cursor of the last
    row's timestamp for the next one. Stored timestamps are compared as
    times (the source compares ISO strings, which order the same way for
    years 0 to 9999). */
module SurvivorDelay3h {
  import opened Wrappers
  import opened Timer
  import opened Store
  import opened Text
  import Decimal

  const PinnedPostUri := "at://did:plc:fpeawo3ch4ypy66kxj57s2w4/app.bsky.feed.post/3ldlyyc55ec2h"

  /** Three hours, in ms. */
  const Delay := 3600 * 3 * 1000

  /** The `getFeedSkeleton` parameters the handler reads. */
  datatype QueryParams = QueryParams(limit: nat, cursor: Option<string>)

  /** The handler's answer: the next cursor and the post uris of the page. */
  datatype Skeleton = Skeleton(cursor: Option<string>, feed: seq<string>)

  // ---------------------------------------------------------------------
  // The query: filter, order, limit
  // ---------------------------------------------------------------------

  /** `orderBy('indexedAt', 'desc').orderBy('cid', 'desc')`: `a` may be
      listed before `b`. */
  predicate Ordered(a: PostRow, b: PostRow)
  {
    a.indexedAt > b.indexedAt || (a.indexedAt == b.indexedAt && LexLe(b.cid, a.cid))
  }

  predicate SortedDesc(s: seq<PostRow>)
  {
    forall i, j :: 0 <= i < j < |s| ==> Ordered(s[i], s[j])
  }

  lemma OrderedTotal(a: PostRow, b: PostRow)
    ensures Ordered(a, b) || Ordered(b, a)
  {
    LexTotal(a.cid, b.cid);
  }

  lemma OrderedTrans(a: PostRow, b: PostRow, c: PostRow)
    requires Ordered(a, b) && Ordered(b, c)
    ensures Ordered(a, c)
  {
    if a.indexedAt == b.indexedAt == c.indexedAt {
      LexTrans(c.cid, b.cid, a.cid);
    }
  }

  /** One row inserted into an ordered list at its place. */
  function Insert(x: PostRow, s: seq<PostRow>): (r: seq<PostRow>)
    requires SortedDesc(s)
    ensures SortedDesc(r)
    ensures multiset(r) == multiset(s) + multiset{x}
    ensures |r| == |s| + 1
  {
    if s == [] then [x]
    else if Ordered(x, s[0]) then
      InsertFront(x, s);
      [x] + s
    else
      var t := Insert(x, s[1..]);
      assert s == [s[0]] + s[1..];
      OrderedTotal(x, s[0]);
      InsertBehind(s, x, t);
      [s[0]] + t
  }

  lemma InsertFront(x: PostRow, s: seq<PostRow>)
    requires SortedDesc(s) && s != [] && Ordered(x, s[0])
    ensures SortedDesc([x] + s)
  {
    var r := [x] + s;
    forall i, j | 0 <= i < j < |r| ensures Ordered(r[i], r[j]) {
      if i == 0 {
        if j > 1 {
          OrderedTrans(x, s[0], s[j - 1]);
        }
      } else {
        assert r[i] == s[i - 1] && r[j] == s[j - 1];
      }
    }
  }

  lemma InsertBehind(s: seq<PostRow>, x: PostRow, t: seq<PostRow>)
    requires SortedDesc(s) && s != [] && Ordered(s[0], x)
    requires SortedDesc(t) && multiset(t) == multiset(s[1..]) + multiset{x}
    ensures SortedDesc([s[0]] + t)
  {
    var r := [s[0]] + t;
    forall i, j | 0 <= i < j < |r| ensures Ordered(r[i], r[j]) {
      if i == 0 {
        var y := t[j - 1];
        assert y in multiset(t);
        if y != x {
          assert y in multiset(s[1..]);
          var k :| 0 <= k < |s[1..]| && s[1..][k] == y;
          assert s[k + 1] == y;
        }
      } else {
        assert r[i] == t[i - 1] && r[j] == t[j - 1];
      }
    }
  }

  /** The rows in the query's order. */
  function SortDesc(s: seq<PostRow>): (r: seq<PostRow>)
    ensures SortedDesc(r)
    ensures multiset(r) == multiset(s)
    ensures |r| == |s|
  {
    if s == [] then []
    else
      assert s == [s[0]] + s[1..];
      Insert(s[0], SortDesc(s[1..]))
  }

  /** The `where` clauses: older than `now` minus three hours and, with a
      cursor, older than the cursor time. */
  predicate Passes(row: PostRow, now: Millis, before: Option<Millis>)
  {
    row.indexedAt < now - Delay && (before.None? || row.indexedAt < before.value)
  }

  function Eligible(rows: seq<PostRow>, now: Millis, before: Option<Millis>): (r: seq<PostRow>)
    ensures forall x :: x in r <==> x in rows && Passes(x, now, before)
    ensures multiset(r) <= multiset(rows)
  {
    if rows == [] then []
    else
      assert rows == [rows[0]] + rows[1..];
      (if Passes(rows[0], now, before) then [rows[0]] else []) + Eligible(rows[1..], now, before)
  }

  function Min(a: int, b: int): int
  {
    if a <= b then a else b
  }

  /** The rows the query returns. */
  function Select(rows: seq<PostRow>, now: Millis, limit: nat, before: Option<Millis>): seq<PostRow>
  {
    var s := SortDesc(Eligible(rows, now, before));
    s[..Min(limit, |s|)]
  }

  /** The query's result: at most `limit` rows, in order, each a stored row
      that passes the filter. */
  lemma SelectSound(rows: seq<PostRow>, now: Millis, limit: nat, before: Option<Millis>)
    ensures var r := Select(rows, now, limit, before);
      && |r| <= limit
      && SortedDesc(r)
      && multiset(r) <= multiset(rows)
      && (forall x :: x in r ==> x in rows && Passes(x, now, before))
  {
    var e := Eligible(rows, now, before);
    var s := SortDesc(e);
    var r := Select(rows, now, limit, before);
    PrefixOf(s, |r|);
    assert multiset(r) <= multiset(e);
    forall x | x in r ensures x in e {
      assert x in multiset(r);
    }
  }

  /** A prefix of an ordered list is ordered, and its rows are among the list's. */
  lemma PrefixOf(s: seq<PostRow>, n: nat)
    requires SortedDesc(s) && n <= |s|
    ensures SortedDesc(s[..n])
    ensures multiset(s[..n]) <= multiset(s)
  {
    assert s == s[..n] + s[n..];
    assert multiset(s) == multiset(s[..n]) + multiset(s[n..]);
  }

  /** A passing row is left out only when the page is full and the page's
      last row comes before it or ties with it. */
  lemma SelectComplete(rows: seq<PostRow>, now: Millis, limit: nat, before: Option<Millis>, x: PostRow)
    requires x in rows && Passes(x, now, before)
    ensures var r := Select(rows, now, limit, before);
      x !in r ==> |r| == limit && (|r| > 0 ==> Ordered(r[|r| - 1], x))
  {
    var s := SortDesc(Eligible(rows, now, before));
    var r := Select(rows, now, limit, before);
    if x !in r {
      assert x in multiset(s);
      var k :| 0 <= k < |s| && s[k] == x;
      assert forall i :: 0 <= i < |r| ==> r[i] == s[i] && r[i] in r;
      if |r| > 0 {
        assert r[|r| - 1] == s[|r| - 1];
      }
    }
  }

  // ---------------------------------------------------------------------
  // The page
  // ---------------------------------------------------------------------

  /** `if (params.cursor)`: a missing and an empty cursor are both falsy. */
  predicate HasCursor(params: QueryParams)
  {
    params.cursor.Some? && params.cursor.value != ""
  }

  /** `new Date(parseInt(cursor, 10)).toISOString()`: the cursor time, or
      the RangeError of a cursor that is not a number or out of range. */
  function CursorTime(params: QueryParams): Result<Option<Millis>>
  {
    if !HasCursor(params) then Ok(None)
    else
      var t := Decimal.ParseInt(params.cursor.value);
      if ValidTime(t) then Ok(Some(t.value)) else Err(InvalidTimeValue)
  }

  /** The uris of the rows other than the pinned post, in order. */
  function UrisExcept(res: seq<PostRow>, uri: string): (r: seq<string>)
    ensures uri !in r
    ensures |r| <= |res|
    ensures forall u :: u in r <==> u != uri && exists x :: x in res && x.uri == u
  {
    if res == [] then []
    else
      assert forall x :: x in res ==> x == res[0] || x in res[1..];
      (if res[0].uri != uri then [res[0].uri] else []) + UrisExcept(res[1..], uri)
  }

  /** The page for a table listed as `rows`, at time `now`. */
  function Page(rows: seq<PostRow>, now: Millis, params: QueryParams): Result<Skeleton>
  {
    match CursorTime(params)
    case Err(e) => Err(e)
    case Ok(before) =>
      Ok(PageOf(Select(rows, now, params.limit, before), HasCursor(params)))
  }

  /** The page made of the query's rows: the pinned post first unless there
      is a cursor, then the other rows' uris; the last row's time as the
      cursor. */
  function PageOf(res: seq<PostRow>, hasCursor: bool): Skeleton
  {
    Skeleton(
      if res == [] then None else Some(Decimal.IntToString(res[|res| - 1].indexedAt)),
      (if hasCursor then [] else [PinnedPostUri]) + UrisExcept(res, PinnedPostUri))
  }

  /** `rows` lists the post table: each stored row once. */
  predicate Listing(t: PostTable, rows: seq<PostRow>)
  {
    && (forall i :: 0 <= i < |rows| ==> rows[i].uri in t && t[rows[i].uri] == rows[i])
    && (forall u :: u in t ==> t[u] in rows)
    && (forall i, j :: 0 <= i < j < |rows| ==> rows[i].uri != rows[j].uri)
  }

  /** `handler`: the query (narrowed by the cursor when there is one), the
      pinned post first on a page without a cursor, the uris of the rows
      without the pinned post, and the cursor of the last row. `rows` is
      the table in storage order, `now` is `Date.now()`. */
  method Handler(db: Database, rows: seq<PostRow>, now: Millis, params: QueryParams) returns (r: Result<Skeleton>)
    requires Listing(db.post, rows)
    ensures r == Page(rows, now, params)
  {
    var before: Option<Millis> := None;
    if HasCursor(params) {
      var t := Decimal.ParseInt(params.cursor.value);
      if !ValidTime(t) {
        return Err(InvalidTimeValue);
      }
      before := Some(t.value);
    }
    var res := Select(rows, now, params.limit, before);
    var feed: seq<string> := [];
    if !HasCursor(params) {
      feed := feed + [PinnedPostUri];
    }
    feed := feed + UrisExcept(res, PinnedPostUri);
    var cursor: Option<string> := None;
    if |res| > 0 {
      cursor := Some(Decimal.IntToString(res[|res| - 1].indexedAt));
    }
    assert Skeleton(cursor, feed) == PageOf(res, HasCursor(params));
    assert CursorTime(params) == Ok(before);
    return Ok(Skeleton(cursor, feed));
  }

  /** Only a cursor that is not a number, or is out of the Date range,
      makes the handler fail. */
  lemma PageFails(rows: seq<PostRow>, now: Millis, params: QueryParams)
    ensures Page(rows, now, params).Err?
        <==> HasCursor(params) && !ValidTime(Decimal.ParseInt(params.cursor.value))
  {
  }

  /** A first page (no cursor) starts with the pinned post, holds it only
      there, and has at most `limit + 1` entries; a page with a cursor
      never holds it and has at most `limit` entries. Every other entry is
      the uri of a row that passes the filter. */
  lemma PagePinned(rows: seq<PostRow>, now: Millis, params: QueryParams)
    requires Page(rows, now, params).Ok?
    ensures var p := Page(rows, now, params).value;
      && (!HasCursor(params) ==>
            |p.feed| <= params.limit + 1 && p.feed[0] == PinnedPostUri && PinnedPostUri !in p.feed[1..])
      && (HasCursor(params) ==> |p.feed| <= params.limit && PinnedPostUri !in p.feed)
      && (forall u :: u in p.feed && u != PinnedPostUri ==>
            exists x :: x in rows && x.uri == u && Passes(x, now, CursorTime(params).value))
  {
    var before := CursorTime(params).value;
    var res := Select(rows, now, params.limit, before);
    SelectSound(rows, now, params.limit, before);
    var tail := UrisExcept(res, PinnedPostUri);
    var p := Page(rows, now, params).value;
    if !HasCursor(params) {
      assert p.feed == [PinnedPostUri] + tail;
      assert p.feed[1..] == tail;
    } else {
      assert p.feed == tail;
    }
  }

  /** The cursor is present exactly when the query returned rows; it is the
      last row's time in decimal, so it reads back as that time. */
  lemma PageCursor(rows: seq<PostRow>, now: Millis, params: QueryParams)
    requires Page(rows, now, params).Ok?
    ensures var res := Select(rows, now, params.limit, CursorTime(params).value);
      var p := Page(rows, now, params).value;
      && (p.cursor.Some? <==> res != [])
      && (p.cursor.Some? ==> Decimal.ParseInt(p.cursor.value) == Some(res[|res| - 1].indexedAt))
  {
    var before := CursorTime(params).value;
    var res := Select(rows, now, params.limit, before);
    PageIs(rows, now, params, before);
    CursorReadsBack(res, HasCursor(params), Page(rows, now, params).value);
  }

  /** The cursor of the page of `res` is there exactly when `res` has
      rows, and it parses back to the last row's time. */
  lemma CursorReadsBack(res: seq<PostRow>, hasCursor: bool, p: Skeleton)
    requires p == PageOf(res, hasCursor)
    ensures p.cursor.Some? <==> res != []
    ensures p.cursor.Some? ==> Decimal.ParseInt(p.cursor.value) == Some(res[|res| - 1].indexedAt)
  {
    PageOfCursor(res, hasCursor);
    if res != [] {
      Decimal.ParseIntToString(res[|res| - 1].indexedAt);
    }
  }

  /** Following the cursor of a page resumes the query strictly before
      that page's last row: the next page is the page of the rows older
      than the last row's time, without the pinned post. Stored times are
      valid Date times, as `toISOString` wrote them. */
  lemma CursorResumes(rows: seq<PostRow>, now: Millis, params: QueryParams,
                      rows': seq<PostRow>, now': Millis, limit': nat)
    requires forall x :: x in rows ==> ValidTime(Some(x.indexedAt))
    requires Page(rows, now, params).Ok? && Page(rows, now, params).value.cursor.Some?
    ensures var res := Select(rows, now, params.limit, CursorTime(params).value);
      var last := res[|res| - 1];
      var next := QueryParams(limit', Page(rows, now, params).value.cursor);
      && CursorTime(next) == Ok(Some(last.indexedAt))
      && Page(rows', now', next) == Ok(PageOf(Select(rows', now', limit', Some(last.indexedAt)), true))
  {
    var before := CursorTime(params).value;
    var res := Select(rows, now, params.limit, before);
    PageIs(rows, now, params, before);
    PageOfCursor(res, HasCursor(params));
    SelectValid(rows, now, params.limit, before, |res| - 1);
    NextPage(res, HasCursor(params), rows', now', limit');
  }

  /** The page after the one made of `res`. */
  lemma NextPage(res: seq<PostRow>, hasCursor: bool, rows': seq<PostRow>, now': Millis, limit': nat)
    requires res != [] && ValidTime(Some(res[|res| - 1].indexedAt))
    ensures var last := res[|res| - 1];
      var next := QueryParams(limit', PageOf(res, hasCursor).cursor);
      && CursorTime(next) == Ok(Some(last.indexedAt))
      && Page(rows', now', next) == Ok(PageOf(Select(rows', now', limit', Some(last.indexedAt)), true))
  {
    var last := res[|res| - 1];
    PageOfCursor(res, hasCursor);
    CursorTimeOf(limit', last.indexedAt);
    PageIs(rows', now', QueryParams(limit', PageOf(res, hasCursor).cursor), Some(last.indexedAt));
  }

  /** The page's cursor is the last row's time, when there is a row. */
  lemma PageOfCursor(res: seq<PostRow>, hasCursor: bool)
    ensures PageOf(res, hasCursor).cursor.Some? <==> res != []
    ensures res != [] ==> PageOf(res, hasCursor).cursor == Some(Decimal.IntToString(res[|res| - 1].indexedAt))
  {
  }

  /** The rows of the query are stored rows, so their times are valid. */
  lemma SelectValid(rows: seq<PostRow>, now: Millis, limit: nat, before: Option<Millis>, i: int)
    requires forall x :: x in rows ==> ValidTime(Some(x.indexedAt))
    requires 0 <= i < |Select(rows, now, limit, before)|
    ensures ValidTime(Some(Select(rows, now, limit, before)[i].indexedAt))
  {
    SelectSound(rows, now, limit, before);
    assert Select(rows, now, limit, before)[i] in Select(rows, now, limit, before);
  }

  /** The page, once the cursor is known to read as `before`. */
  lemma PageIs(rows: seq<PostRow>, now: Millis, params: QueryParams, before: Option<Millis>)
    requires CursorTime(params) == Ok(before)
    ensures Page(rows, now, params) == Ok(PageOf(Select(rows, now, params.limit, before), HasCursor(params)))
  {
  }

  /** A cursor written from a valid time reads back as that time. */
  lemma CursorTimeOf(limit: nat, t: Millis)
    requires ValidTime(Some(t))
    ensures HasCursor(QueryParams(limit, Some(Decimal.IntToString(t))))
    ensures CursorTime(QueryParams(limit, Some(Decimal.IntToString(t)))) == Ok(Some(t))
  {
    Decimal.ParseIntToString(t);
  }

  /** The rows after a cursor and the rows of the page it came from are
      apart: the page's rows are no older than its last row, the next
      query's rows are strictly older, so no row comes twice and rows
      sharing the last row's time are skipped. */
  lemma PagesDisjoint(res: seq<PostRow>, rows': seq<PostRow>, now': Millis, limit': nat)
    requires SortedDesc(res) && res != []
    ensures var last := res[|res| - 1];
      && (forall x :: x in Select(rows', now', limit', Some(last.indexedAt)) ==> x.indexedAt < last.indexedAt)
      && (forall x :: x in res ==> x.indexedAt >= last.indexedAt)
      && (forall x :: x in res ==> x !in Select(rows', now', limit', Some(last.indexedAt)))
  {
    SelectSound(rows', now', limit', Some(res[|res| - 1].indexedAt));
    LastIsOldest(res);
  }

  /** The last row of an ordered list is its oldest. */
  lemma LastIsOldest(s: seq<PostRow>)
    requires SortedDesc(s) && s != []
    ensures forall x :: x in s ==> x.indexedAt >= s[|s| - 1].indexedAt
  {
    assert forall i :: 0 <= i < |s| - 1 ==> Ordered(s[i], s[|s| - 1]);
  }
}
