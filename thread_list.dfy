/**
 * The thread listing of internal/repository/thread.go (GetList): newest
 * first by (created_at, id), or by trending score, paged with a cursor.
 *
 * The table handed in is the thread table after the listing's filters
 * (followed subthreads, author, search) in the order the query sorts it.
 * As written, the trending order seeks on the score alone; the corrected
 * listing seeks on (score, id) like the recency order.
 */
module ThreadList {
  import opened Wrappers
  import opened Common
  import opened Pagination

  /** Which key the listing sorts and seeks on. */
  function ModeOf(isTrending: bool): (m: Mode)
    ensures m == Trending <==> isTrending
  {
    if isTrending then Trending else Recency
  }

  /** The cursor condition as written: `trending_score <= ?` for trending, `(created_at, id) <= (?, ?)` otherwise. */
  function SeekRuleAsWritten(isTrending: bool): (rule: SeekRule)
    ensures rule == KeySeek <==> isTrending
  {
    if isTrending then KeySeek else PairSeek
  }

  /** GetList as written: the trending order drops the id half of the cursor. */
  method GetListAsWritten<T>(table: seq<Row<T>>, isTrending: bool, limit: nat, cursor: string)
    returns (res: Option<ListPage<T>>)
    requires cursor == "" || '_' in cursor
    ensures res == Page(table, ModeOf(isTrending), SeekRuleAsWritten(isTrending), limit, cursor)
  {
    res := GetPage(table, ModeOf(isTrending), SeekRuleAsWritten(isTrending), limit, cursor);
  }

  /** GetList with the pair seek in both orders. */
  method GetList<T>(table: seq<Row<T>>, isTrending: bool, limit: nat, cursor: string)
    returns (res: Option<ListPage<T>>)
    requires cursor == "" || '_' in cursor
    ensures res == Page(table, ModeOf(isTrending), PairSeek, limit, cursor)
  {
    res := GetPage(table, ModeOf(isTrending), PairSeek, limit, cursor);
  }

  /**
   * With the pair seek, a client that follows the next cursors of either
   * listing gets every thread exactly once, in order.
   */
  lemma {:induction false} GetListWalk<T>(table: seq<Row<T>>, isTrending: bool, limit: nat)
    requires SortedDesc(table) && IdsFree(table) && limit > 0
    ensures Walk(table, ModeOf(isTrending), PairSeek, limit, |table| + 1) == Some(table)
  {
    WalkVisitsEachRowOnce(table, ModeOf(isTrending), limit);
  }

  /** A page that hands back its own cursor loops for ever. */
  lemma {:induction false} FollowRepeats<T>(pager: string -> Option<ListPage<T>>, c: string, rows: seq<Row<T>>, fuel: nat)
    requires c != "" && pager(c) == Some(ListPage(rows, Pagination(c, c)))
    ensures Follow(pager, c, fuel) == None
    decreases fuel
  {
    if fuel > 0 {
      FollowRepeats(pager, c, rows, fuel - 1);
    }
  }

  /** A first page whose next cursor then repeats itself: following never ends. */
  lemma {:induction false} FirstCursorRepeats<T>(pager: string -> Option<ListPage<T>>, c: string,
                                                top: seq<Row<T>>, rows: seq<Row<T>>, fuel: nat)
    requires c != "" && pager("") == Some(ListPage(top, Pagination("", c)))
    requires pager(c) == Some(ListPage(rows, Pagination(c, c)))
    ensures Follow(pager, "", fuel) == None
  {
    if fuel > 0 {
      FollowRepeats(pager, c, rows, fuel - 1);
    }
  }

  /** Two threads with the same trending score, the bottom of any quiet listing (score 0.00). */
  function Tied(): seq<Row<string>>
  {
    [Row(0, "b", "older"), Row(0, "a", "newer")]
  }

  lemma {:induction false} TiedOrdered()
    ensures SortedDesc(Tied()) && IdsFree(Tied())
  {
    assert IdLt("a", "b") by {
      assert "a"[0] < "b"[0];
    }
  }

  /**
   * Two rows with the same trending score, listed in either order: the
   * database is free to return tied scores either way round.
   */
  predicate TiedPair(rows: seq<Row<string>>)
  {
    |rows| == 2 && rows[0].key == rows[1].key && '_' !in rows[0].id && '_' !in rows[1].id
  }

  /** The first page holds the first tied thread and the cursor of the second. */
  lemma {:induction false} TiedFirstPage(rows: seq<Row<string>>)
    requires TiedPair(rows)
    ensures Page(rows, Trending, KeySeek, 1, "") ==
              Some(ListPage([rows[0]], Pagination("", EncodeCursor(Trending, rows[1]))))
  {
    PageNoCursor(rows, Trending, KeySeek, 1);
    assert Fetch(rows, KeySeek, None, 1) == rows;
    assert rows[..1] == [rows[0]];
  }

  /** The second thread's cursor serves the first thread again, with the same cursor. */
  lemma {:induction false} TiedCursorRepeats(rows: seq<Row<string>>)
    requires TiedPair(rows)
    ensures var c := EncodeCursor(Trending, rows[1]);
            Page(rows, Trending, KeySeek, 1, c) == Some(ListPage([rows[0]], Pagination(c, c)))
  {
    var c := EncodeCursor(Trending, rows[1]);
    DecodeEncode(Trending, rows[1]);
    SeekAll(rows, KeySeek, Pos(rows[1]));
    PageAtPosition(rows, Trending, KeySeek, 1, c, Pos(rows[1]));
    assert Fetch(rows, KeySeek, Some(Pos(rows[1])), 1) == rows;
    assert rows[..1] == [rows[0]];
  }

  /** Following the cursors from the first page never ends, whatever the number of requests allowed. */
  lemma {:induction false} TiedWalk(rows: seq<Row<string>>, fuel: nat)
    requires TiedPair(rows)
    ensures Walk(rows, Trending, KeySeek, 1, fuel) == None
  {
    var c := EncodeCursor(Trending, rows[1]);
    var pager := Pager(rows, Trending, KeySeek, 1);
    TiedFirstPage(rows);
    TiedCursorRepeats(rows);
    assert pager("") == Some(ListPage([rows[0]], Pagination("", c)));
    assert pager(c) == Some(ListPage([rows[0]], Pagination(c, c)));
    FirstCursorRepeats(pager, c, [rows[0]], [rows[0]], fuel);
  }

  /**
   * As written, the trending listing with limit 1 over two tied threads
   * serves the first thread again for the cursor of the second, handing the
   * same cursor back: a client following the cursors never finishes and
   * never sees the second thread. The same happens when the database hands
   * the tied threads back the other way round. The table is strictly sorted
   * by (score, id), so the corrected listing walks it (GetListWalk).
   */
  lemma {:induction false} TrendingWalkStalls()
    ensures SortedDesc(Tied()) && IdsFree(Tied())
    ensures var c := EncodeCursor(Trending, Tied()[1]);
            Page(Tied(), Trending, KeySeek, 1, "") == Some(ListPage([Tied()[0]], Pagination("", c))) &&
            Page(Tied(), Trending, KeySeek, 1, c) == Some(ListPage([Tied()[0]], Pagination(c, c)))
    ensures forall fuel: nat :: Walk(Tied(), Trending, KeySeek, 1, fuel) == None
    ensures forall fuel: nat :: Walk([Tied()[1], Tied()[0]], Trending, KeySeek, 1, fuel) == None
  {
    TiedOrdered();
    TiedFirstPage(Tied());
    TiedCursorRepeats(Tied());
    var swapped := [Tied()[1], Tied()[0]];
    forall fuel: nat
      ensures Walk(Tied(), Trending, KeySeek, 1, fuel) == None
      ensures Walk(swapped, Trending, KeySeek, 1, fuel) == None
    {
      TiedWalk(Tied(), fuel);
      TiedWalk(swapped, fuel);
    }
  }
}
