/**
 * Keyset ("cursor") pagination shared by the thread, subthread and university
 * listings: rows are ordered by (key, id) descending, a page fetches
 * Limit+1 rows at or below the cursor position, returns the first Limit and
 * encodes the extra row as the next cursor "<key>_<id>".
 *
 * Keys are integers: a timestamp for recency listings (written in decimal,
 * standing in for its RFC 3339 text) or a trending score held in
 * hundredths (written with `%.2f`).
 */
module Pagination {
  import opened Wrappers
  import opened GoStrings
  import opened Common
  import Decimal
  import Util

  /** Lexicographic order on ids, by code point. */
  predicate IdLt(a: string, b: string)
    decreases |a|
  {
    if |a| == 0 then |b| > 0
    else |b| > 0 && (a[0] < b[0] || (a[0] == b[0] && IdLt(a[1..], b[1..])))
  }

  lemma {:induction false} IdLtIrreflexive(a: string)
    ensures !IdLt(a, a)
    decreases |a|
  {
    if |a| > 0 {
      IdLtIrreflexive(a[1..]);
    }
  }

  lemma {:induction false} IdLtAsymmetric(a: string, b: string)
    requires IdLt(a, b)
    ensures !IdLt(b, a)
    decreases |a|
  {
    if |a| > 0 && a[0] == b[0] {
      IdLtAsymmetric(a[1..], b[1..]);
    }
  }

  lemma {:induction false} IdLtTotal(a: string, b: string)
    requires a != b
    ensures IdLt(a, b) || IdLt(b, a)
    decreases |a|
  {
    if |a| > 0 && |b| > 0 && a[0] == b[0] {
      assert a == [a[0]] + a[1..] && b == [b[0]] + b[1..];
      IdLtTotal(a[1..], b[1..]);
    }
  }

  /** Where a row sits in the (key, id) order. */
  datatype Position = Position(key: int, id: string)

  predicate PosLt(p: Position, q: Position)
  {
    p.key < q.key || (p.key == q.key && IdLt(p.id, q.id))
  }

  /** SQL's row comparison `(key, id) <= (ck, cid)`. */
  predicate PosLe(p: Position, q: Position)
  {
    PosLt(p, q) || p == q
  }

  lemma PosLtNotLe(p: Position, q: Position)
    requires PosLt(p, q)
    ensures !PosLe(q, p)
  {
    if p.key == q.key {
      IdLtAsymmetric(p.id, q.id);
      IdLtIrreflexive(p.id);
    }
  }

  datatype Row<T> = Row(key: int, id: string, item: T)

  function Pos<T>(r: Row<T>): Position
  {
    Position(r.key, r.id)
  }

  /** The order every listing query asks the database for: (key, id) strictly descending. */
  predicate SortedDesc<T>(rows: seq<Row<T>>)
  {
    forall i, j :: 0 <= i < j < |rows| ==> PosLt(Pos(rows[j]), Pos(rows[i]))
  }

  /** Ids as produced by uuid generation never contain the cursor separator. */
  predicate IdsFree<T>(rows: seq<Row<T>>)
  {
    forall i :: 0 <= i < |rows| ==> '_' !in rows[i].id
  }

  /** How a listing renders its key. */
  datatype Mode = Recency | Trending

  /**
   * How the cursor position filters rows: on the pair (key, id), or on the
   * key alone.
   */
  datatype SeekRule = PairSeek | KeySeek

  function KeyText(mode: Mode, k: int): string
  {
    match mode
    case Recency => Decimal.Itoa(k)
    case Trending => Decimal.FormatHundredths(k)
  }

  /** How the database reads the key text back; None when it cannot. */
  function ParseKey(mode: Mode, s: string): Option<int>
  {
    match mode
    case Recency => Decimal.ParseDecimal(s)
    case Trending => Decimal.ParseHundredths(s)
  }

  lemma {:induction false} NoUnderscoreInDigits(s: string)
    requires Decimal.AllDigits(s)
    ensures '_' !in s
  {
    forall i | 0 <= i < |s|
      ensures s[i] != '_'
    {
      assert Decimal.IsDigit(s[i]);
    }
  }

  lemma {:induction false} KeyTextFree(mode: Mode, k: int)
    ensures '_' !in KeyText(mode, k)
    ensures ParseKey(mode, KeyText(mode, k)) == Some(k)
  {
    match mode
    case Recency =>
      var m := if k < 0 then -k else k;
      NoUnderscoreInDigits(Decimal.Digits(m));
      Decimal.ParseItoa(k);
    case Trending =>
      var m := if k < 0 then -k else k;
      NoUnderscoreInDigits(Decimal.Digits(m / 100));
      NoUnderscoreInDigits(Decimal.TwoDigits(m % 100));
      Decimal.ParseFormatHundredths(k);
  }

  /** The next cursor a page hands out for its extra row. */
  function EncodeCursor<T>(mode: Mode, r: Row<T>): (c: string)
    ensures '_' in c
  {
    var c := KeyText(mode, r.key) + "_" + r.id;
    assert c[|KeyText(mode, r.key)|] == '_';
    c
  }

  /** Reads a cursor back with `GetCursorData`; None when its key is not readable. */
  function DecodeCursor(mode: Mode, cursor: string): Option<Position>
    requires '_' in cursor
  {
    var (keyText, id) := Util.GetCursorData(cursor);
    match ParseKey(mode, keyText)
    case None => None
    case Some(k) => Some(Position(k, id))
  }

  /** A cursor handed out for a row leads back to exactly that row's position. */
  lemma {:induction false} DecodeEncode<T>(mode: Mode, r: Row<T>)
    requires '_' !in r.id
    ensures DecodeCursor(mode, EncodeCursor(mode, r)) == Some(Pos(r))
  {
    KeyTextFree(mode, r.key);
    Util.CursorRoundTrip(KeyText(mode, r.key), r.id);
  }

  predicate Admits<T>(rule: SeekRule, r: Row<T>, c: Position)
  {
    match rule
    case PairSeek => PosLe(Pos(r), c)
    case KeySeek => r.key <= c.key
  }

  /** The rows the cursor condition keeps, in table order. */
  function Seek<T>(rows: seq<Row<T>>, rule: SeekRule, c: Position): (r: seq<Row<T>>)
    ensures |r| <= |rows|
  {
    if |rows| == 0 then []
    else (if Admits(rule, rows[0], c) then [rows[0]] else []) + Seek(rows[1..], rule, c)
  }

  /** Every row the seek keeps comes from the table and passes the cursor condition. */
  lemma {:induction false} SeekSound<T>(rows: seq<Row<T>>, rule: SeekRule, c: Position)
    ensures forall x :: x in Seek(rows, rule, c) ==> x in rows && Admits(rule, x, c)
    decreases |rows|
  {
    if |rows| > 0 {
      SeekSound(rows[1..], rule, c);
    }
  }

  /** The query: the cursor condition when there is a cursor, then LIMIT limit+1. */
  function Fetch<T>(rows: seq<Row<T>>, rule: SeekRule, seek: Option<Position>, limit: nat): (r: seq<Row<T>>)
    ensures |r| <= limit + 1
  {
    var kept := if seek.Some? then Seek(rows, rule, seek.value) else rows;
    if |kept| <= limit + 1 then kept else kept[..limit + 1]
  }

  /** One page of results and the cursors that go with it. */
  datatype ListPage<T> = ListPage(rows: seq<Row<T>>, pagination: Pagination)

  /**
   * The post-processing every GetList performs on what the query returns:
   * when the query produced Limit+1 rows, the last one becomes the next
   * cursor and is cut off; the request cursor is echoed back.
   */
  function Trim<T>(fetched: seq<Row<T>>, mode: Mode, limit: nat, cursor: string): (p: ListPage<T>)
    ensures p.pagination.nextCursor != "" ==> '_' in p.pagination.nextCursor
  {
    if |fetched| > limit then
      ListPage(fetched[..limit], Pagination(cursor, EncodeCursor(mode, fetched[|fetched| - 1])))
    else
      ListPage(fetched, Pagination(cursor, ""))
  }

  /**
   * A GetList query and its post-processing. None stands for a cursor whose
   * key the database cannot read, which fails the query.
   */
  function Page<T>(rows: seq<Row<T>>, mode: Mode, rule: SeekRule, limit: nat, cursor: string): (r: Option<ListPage<T>>)
    requires cursor == "" || '_' in cursor
    ensures r.Some? && r.value.pagination.nextCursor != "" ==> '_' in r.value.pagination.nextCursor
  {
    var seek := if cursor == "" then None else DecodeCursor(mode, cursor);
    if cursor != "" && seek.None? then None
    else Some(Trim(Fetch(rows, rule, seek, limit), mode, limit, cursor))
  }

  /**
   * What every page promises: failure only for a cursor whose key cannot be
   * read, the request cursor echoed back, and at most Limit rows taken from
   * the front of what the query fetched.
   */
  lemma {:induction false} PageContract<T>(rows: seq<Row<T>>, mode: Mode, rule: SeekRule, limit: nat, cursor: string)
    requires cursor == "" || '_' in cursor
    ensures var r := Page(rows, mode, rule, limit, cursor);
            var seek := if cursor == "" then None else DecodeCursor(mode, cursor);
            var fetched := Fetch(rows, rule, seek, limit);
            (r.None? <==> cursor != "" && seek.None?) &&
            (r.Some? ==>
              r.value.pagination.currentCursor == cursor &&
              |r.value.rows| <= limit &&
              |r.value.rows| <= |fetched| && r.value.rows == fetched[..|r.value.rows|])
  {
  }

  /**
   * The next cursor is non-empty exactly when the query produced Limit+1
   * rows, and then it encodes the dropped (Limit+1)-th row.
   */
  lemma {:induction false} PageNextCursor<T>(rows: seq<Row<T>>, mode: Mode, rule: SeekRule, limit: nat, cursor: string)
    requires cursor == "" || '_' in cursor
    ensures var r := Page(rows, mode, rule, limit, cursor);
            var seek := if cursor == "" then None else DecodeCursor(mode, cursor);
            var fetched := Fetch(rows, rule, seek, limit);
            r.Some? ==>
              (r.value.pagination.nextCursor != "" <==> |fetched| == limit + 1) &&
              (r.value.pagination.nextCursor != "" ==>
                 |r.value.rows| == limit && r.value.pagination.nextCursor == EncodeCursor(mode, fetched[limit]))
  {
    if cursor != "" && DecodeCursor(mode, cursor).Some? {
      PageAtPosition(rows, mode, rule, limit, cursor, DecodeCursor(mode, cursor).value);
    }
  }

  /** With a cursor and the pair seek, every returned row is at or below the cursor position. */
  lemma {:induction false} PageBelowCursor<T>(rows: seq<Row<T>>, mode: Mode, limit: nat, cursor: string)
    requires '_' in cursor
    ensures var r := Page(rows, mode, PairSeek, limit, cursor);
            r.Some? ==> forall x :: x in r.value.rows ==> PosLe(Pos(x), DecodeCursor(mode, cursor).value)
  {
    var seek := DecodeCursor(mode, cursor);
    if seek.Some? {
      var kept := Seek(rows, PairSeek, seek.value);
      var fetched := Fetch(rows, PairSeek, seek, limit);
      SeekSound(rows, PairSeek, seek.value);
      assert forall x :: x in fetched ==> x in kept;
      var r := Page(rows, mode, PairSeek, limit, cursor).value.rows;
      assert r == fetched || r == fetched[..limit];
      assert forall x :: x in r ==> x in fetched;
    }
  }

  lemma {:induction false} SeekAppend<T>(a: seq<Row<T>>, b: seq<Row<T>>, rule: SeekRule, c: Position)
    ensures Seek(a + b, rule, c) == Seek(a, rule, c) + Seek(b, rule, c)
    decreases |a|
  {
    if |a| == 0 {
      assert a + b == b;
    } else {
      assert (a + b)[1..] == a[1..] + b;
      SeekAppend(a[1..], b, rule, c);
    }
  }

  lemma {:induction false} SeekAll<T>(rows: seq<Row<T>>, rule: SeekRule, c: Position)
    requires forall i :: 0 <= i < |rows| ==> Admits(rule, rows[i], c)
    ensures Seek(rows, rule, c) == rows
    decreases |rows|
  {
    if |rows| > 0 {
      SeekAll(rows[1..], rule, c);
      assert rows == [rows[0]] + rows[1..];
    }
  }

  lemma {:induction false} SeekNone<T>(rows: seq<Row<T>>, rule: SeekRule, c: Position)
    requires forall i :: 0 <= i < |rows| ==> !Admits(rule, rows[i], c)
    ensures Seek(rows, rule, c) == []
    decreases |rows|
  {
    if |rows| > 0 {
      SeekNone(rows[1..], rule, c);
    }
  }

  /** In a strictly sorted table, seeking to a row's own position keeps that row and everything after it. */
  lemma {:induction false} SeekFromRow<T>(rows: seq<Row<T>>, j: nat)
    requires SortedDesc(rows) && j < |rows|
    ensures Seek(rows, PairSeek, Pos(rows[j])) == rows[j..]
  {
    var c := Pos(rows[j]);
    forall i | 0 <= i < j
      ensures !Admits(PairSeek, rows[..j][i], c)
    {
      PosLtNotLe(c, Pos(rows[i]));
    }
    SeekNone(rows[..j], PairSeek, c);
    SeekAll(rows[j..], PairSeek, c);
    assert rows == rows[..j] + rows[j..];
    SeekAppend(rows[..j], rows[j..], PairSeek, c);
  }

  /** A readable cursor pages what the seek to its position fetches. */
  lemma {:induction false} PageAtPosition<T>(rows: seq<Row<T>>, mode: Mode, rule: SeekRule, limit: nat, cursor: string, p: Position)
    requires '_' in cursor && DecodeCursor(mode, cursor) == Some(p)
    ensures Page(rows, mode, rule, limit, cursor) == Some(Trim(Fetch(rows, rule, Some(p), limit), mode, limit, cursor))
  {
  }

  /** A cursor whose key cannot be read fails the query. */
  lemma {:induction false} PageUnreadable<T>(rows: seq<Row<T>>, mode: Mode, rule: SeekRule, limit: nat, cursor: string)
    requires '_' in cursor && DecodeCursor(mode, cursor).None?
    ensures Page(rows, mode, rule, limit, cursor).None?
  {
  }

  /** What the query fetches when its seek keeps row j and everything after it. */
  lemma {:induction false} FetchFromRow<T>(rows: seq<Row<T>>, limit: nat, j: nat)
    requires j < |rows|
    requires Seek(rows, PairSeek, Pos(rows[j])) == rows[j..]
    ensures var f := Fetch(rows, PairSeek, Some(Pos(rows[j])), limit);
            (j + limit < |rows| ==> |f| == limit + 1 && f[..limit] == rows[j..j + limit] && f[|f| - 1] == rows[j + limit]) &&
            (j + limit >= |rows| ==> f == rows[j..] && |f| <= limit)
  {
    var f := Fetch(rows, PairSeek, Some(Pos(rows[j])), limit);
    if j + limit < |rows| {
      assert f == rows[j..][..limit + 1];
    }
  }

  /** The page fetched with the cursor of row j starts at row j. */
  lemma {:induction false} PageFromRow<T>(rows: seq<Row<T>>, mode: Mode, limit: nat, j: nat)
    requires j < |rows| && '_' !in rows[j].id
    requires Seek(rows, PairSeek, Pos(rows[j])) == rows[j..]
    ensures var cur := EncodeCursor(mode, rows[j]); var p := Page(rows, mode, PairSeek, limit, cur);
            (j + limit < |rows| ==>
               p == Some(ListPage(rows[j..j + limit], Pagination(cur, EncodeCursor(mode, rows[j + limit]))))) &&
            (j + limit >= |rows| ==> p == Some(ListPage(rows[j..], Pagination(cur, ""))))
  {
    var cur := EncodeCursor(mode, rows[j]);
    DecodeEncode(mode, rows[j]);
    PageAtPosition(rows, mode, PairSeek, limit, cur, Pos(rows[j]));
    FetchFromRow(rows, limit, j);
  }

  /** Without a cursor, the page is cut from what the unfiltered query fetches. */
  lemma {:induction false} PageNoCursor<T>(rows: seq<Row<T>>, mode: Mode, rule: SeekRule, limit: nat)
    ensures Page(rows, mode, rule, limit, "") == Some(Trim(Fetch(rows, rule, None, limit), mode, limit, ""))
  {
  }

  /** What the query fetches without a cursor: the top Limit+1 rows. */
  lemma {:induction false} FetchTop<T>(rows: seq<Row<T>>, rule: SeekRule, limit: nat)
    ensures var f := Fetch(rows, rule, None, limit);
            (limit < |rows| ==> |f| == limit + 1 && f[..limit] == rows[..limit] && f[|f| - 1] == rows[limit]) &&
            (limit >= |rows| ==> f == rows)
  {
    if limit < |rows| {
      assert rows[..limit + 1][..limit] == rows[..limit];
    }
  }

  /** The first page, without a cursor, starts at the top of the table. */
  lemma {:induction false} FirstPage<T>(rows: seq<Row<T>>, mode: Mode, rule: SeekRule, limit: nat)
    ensures var p := Page(rows, mode, rule, limit, "");
            p.Some? &&
            (limit < |rows| ==> p.value.rows == rows[..limit] &&
                                p.value.pagination.nextCursor == EncodeCursor(mode, rows[limit])) &&
            (limit >= |rows| ==> p.value.rows == rows && p.value.pagination.nextCursor == "")
  {
    PageNoCursor(rows, mode, rule, limit);
    FetchTop(rows, rule, limit);
  }

  /** A listing endpoint seen from the client: the page (or failure) each cursor gets. */
  function Pager<T>(rows: seq<Row<T>>, mode: Mode, rule: SeekRule, limit: nat): string -> Option<ListPage<T>>
  {
    c => if c == "" || '_' in c then Page(rows, mode, rule, limit, c) else None
  }

  /**
   * A client that feeds each next cursor back until it is empty, with at most
   * `fuel` requests; None when a request fails or the fuel runs out.
   */
  function Follow<T>(pager: string -> Option<ListPage<T>>, cursor: string, fuel: nat): Option<seq<Row<T>>>
    decreases fuel
  {
    if fuel == 0 then None
    else
      match pager(cursor)
      case None => None
      case Some(p) =>
        if p.pagination.nextCursor == "" then Some(p.rows)
        else
          match Follow(pager, p.pagination.nextCursor, fuel - 1)
          case None => None
          case Some(more) => Some(p.rows + more)
  }

  /** Walking a listing from its first page. */
  function Walk<T>(rows: seq<Row<T>>, mode: Mode, rule: SeekRule, limit: nat, fuel: nat): Option<seq<Row<T>>>
  {
    Follow(Pager(rows, mode, rule, limit), "", fuel)
  }

  /**
   * The page a correct listing serves for the k-th row's cursor `curs[k]`:
   * rows k.. up to the limit, and the cursor of the first row it leaves out.
   */
  ghost predicate ServesFromRow<T>(pager: string -> Option<ListPage<T>>, rows: seq<Row<T>>, curs: seq<string>, limit: nat, k: nat)
    requires k < |rows| == |curs|
  {
    if k + limit < |rows| then
      pager(curs[k]) == Some(ListPage(rows[k..k + limit], Pagination(curs[k], curs[k + limit])))
    else
      pager(curs[k]) == Some(ListPage(rows[k..], Pagination(curs[k], "")))
  }

  lemma SliceJoin<T>(s: seq<T>, i: nat, j: nat)
    requires i <= j <= |s|
    ensures s[i..j] + s[j..] == s[i..]
  {
  }

  /** One request followed by the rest of the walk. */
  lemma {:induction false} FollowStep<T>(pager: string -> Option<ListPage<T>>, cursor: string, fuel: nat,
                                         page: seq<Row<T>>, next: string, more: seq<Row<T>>)
    requires next != ""
    requires pager(cursor) == Some(ListPage(page, Pagination(cursor, next)))
    requires Follow(pager, next, fuel) == Some(more)
    ensures Follow(pager, cursor, fuel + 1) == Some(page + more)
  {
  }

  lemma {:induction false} FollowFromRow<T>(pager: string -> Option<ListPage<T>>, rows: seq<Row<T>>, curs: seq<string>,
                                            limit: nat, j: nat, fuel: nat)
    requires limit > 0 && |curs| == |rows|
    requires forall k :: 0 <= k < |rows| ==> curs[k] != ""
    requires forall k {:trigger ServesFromRow(pager, rows, curs, limit, k)} :: 0 <= k < |rows| ==> ServesFromRow(pager, rows, curs, limit, k)
    requires j < |rows| && fuel >= |rows| - j
    ensures Follow(pager, curs[j], fuel) == Some(rows[j..])
    decreases |rows| - j
  {
    assert ServesFromRow(pager, rows, curs, limit, j);
    if j + limit < |rows| {
      FollowFromRow(pager, rows, curs, limit, j + limit, fuel - 1);
      FollowStep(pager, curs[j], fuel - 1, rows[j..j + limit], curs[j + limit], rows[j + limit..]);
      SliceJoin(rows, j, j + limit);
    }
  }

  /** The cursor each row of a table is handed out under. */
  function Cursors<T>(rows: seq<Row<T>>, mode: Mode): (curs: seq<string>)
    ensures |curs| == |rows|
    ensures forall k :: 0 <= k < |rows| ==> curs[k] == EncodeCursor(mode, rows[k])
  {
    seq(|rows|, k requires 0 <= k < |rows| => EncodeCursor(mode, rows[k]))
  }

  lemma {:induction false} PagerServesRow<T>(rows: seq<Row<T>>, mode: Mode, limit: nat, k: nat)
    requires SortedDesc(rows) && IdsFree(rows) && k < |rows|
    ensures ServesFromRow(Pager(rows, mode, PairSeek, limit), rows, Cursors(rows, mode), limit, k)
  {
    SeekFromRow(rows, k);
    PageFromRow(rows, mode, limit, k);
  }

  /** The first request, without a cursor, as the pager serves it. */
  lemma {:induction false} PagerFirst<T>(rows: seq<Row<T>>, mode: Mode, limit: nat)
    ensures var pager := Pager(rows, mode, PairSeek, limit);
            (limit < |rows| ==> pager("") == Some(ListPage(rows[..limit], Pagination("", Cursors(rows, mode)[limit])))) &&
            (limit >= |rows| ==> pager("") == Some(ListPage(rows, Pagination("", ""))))
  {
    FirstPage(rows, mode, PairSeek, limit);
  }

  /** A walk from the first page over a pager that serves every row's cursor correctly. */
  lemma {:induction false} FollowFromTop<T>(pager: string -> Option<ListPage<T>>, rows: seq<Row<T>>, curs: seq<string>, limit: nat)
    requires limit > 0 && |curs| == |rows|
    requires forall k :: 0 <= k < |rows| ==> curs[k] != ""
    requires forall k {:trigger ServesFromRow(pager, rows, curs, limit, k)} :: 0 <= k < |rows| ==> ServesFromRow(pager, rows, curs, limit, k)
    requires limit < |rows| ==> pager("") == Some(ListPage(rows[..limit], Pagination("", curs[limit])))
    requires limit >= |rows| ==> pager("") == Some(ListPage(rows, Pagination("", "")))
    ensures Follow(pager, "", |rows| + 1) == Some(rows)
  {
    if limit < |rows| {
      FollowFromRow(pager, rows, curs, limit, limit, |rows|);
      FollowStep(pager, "", |rows|, rows[..limit], curs[limit], rows[limit..]);
      SliceJoin(rows, 0, limit);
      assert rows[0..limit] == rows[..limit] && rows[0..] == rows;
    }
  }

  /**
   * Walking a strictly sorted table with the pair seek and a positive limit
   * returns every row exactly once, in order, within |rows|+1 requests.
   */
  lemma {:induction false} WalkVisitsEachRowOnce<T>(rows: seq<Row<T>>, mode: Mode, limit: nat)
    requires SortedDesc(rows) && IdsFree(rows) && limit > 0
    ensures Walk(rows, mode, PairSeek, limit, |rows| + 1) == Some(rows)
  {
    var pager := Pager(rows, mode, PairSeek, limit);
    var curs := Cursors(rows, mode);
    forall k | 0 <= k < |rows|
      ensures curs[k] != "" && ServesFromRow(pager, rows, curs, limit, k)
    {
      PagerServesRow(rows, mode, limit, k);
    }
    PagerFirst(rows, mode, limit);
    FollowFromTop(pager, rows, curs, limit);
  }

  /**
   * The tail every GetList shares: when the query produced Limit+1 rows,
   * encode the last one as the next cursor and trim the page to Limit rows.
   */
  method TrimPage<T>(fetched: seq<Row<T>>, mode: Mode, limit: nat, cursor: string) returns (page: ListPage<T>)
    ensures page == Trim(fetched, mode, limit, cursor)
    ensures |page.rows| <= limit && page.pagination.currentCursor == cursor
  {
    var rows := fetched;
    var nextCursor := "";
    if |fetched| > limit {
      var last := fetched[|fetched| - 1];
      nextCursor := EncodeCursor(mode, last);
      rows := fetched[..limit];
    }
    page := ListPage(rows, Pagination(cursor, nextCursor));
  }

  /**
   * A GetList: read the cursor, run the query, trim what it returned. The
   * result is the page `Page` describes.
   */
  method GetPage<T>(table: seq<Row<T>>, mode: Mode, rule: SeekRule, limit: nat, cursor: string)
    returns (res: Option<ListPage<T>>)
    requires cursor == "" || '_' in cursor
    ensures res == Page(table, mode, rule, limit, cursor)
    ensures res.Some? ==> |res.value.rows| <= limit && res.value.pagination.currentCursor == cursor
  {
    var seek: Option<Position> := None;
    if cursor != "" {
      seek := DecodeCursor(mode, cursor);
      if seek.None? {
        PageUnreadable(table, mode, rule, limit, cursor);
        return None;
      }
      PageAtPosition(table, mode, rule, limit, cursor, seek.value);
    } else {
      PageNoCursor(table, mode, rule, limit);
    }
    var fetched := Fetch(table, rule, seek, limit);
    var page := TrimPage(fetched, mode, limit, cursor);
    res := Some(page);
  }
}
