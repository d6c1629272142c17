/** Windows, counts and the Content-Range header of a select response. */
module Pages {
  import opened Text
  import opened Filters
  import opened FileDriver
  import opened Range

  /** The pages a client collects when it asks for `limit` rows at a time. */
  function Collected(rows: seq<Row>, offset: nat, limit: nat): seq<Row>
    requires limit > 0
    decreases |rows| - offset
  {
    if offset >= |rows| then [] else Page(rows, offset, limit) + Collected(rows, offset + limit, limit)
  }

  lemma {:induction false} CollectedFrom(rows: seq<Row>, offset: nat, limit: nat)
    requires limit > 0 && offset <= |rows|
    ensures Collected(rows, offset, limit) == rows[offset..]
    decreases |rows| - offset
  {
    if offset + limit < |rows| {
      CollectedFrom(rows, offset + limit, limit);
      assert Page(rows, offset, limit) == rows[offset..offset + limit];
    } else if offset < |rows| {
      assert Page(rows, offset, limit) == rows[offset..];
    }
  }

  /** The windows at offsets 0, limit, 2 * limit, ... put together are the whole result, each row once, in order. */
  lemma PagesTileTheResult(rows: seq<Row>, limit: nat)
    requires limit > 0
    ensures Collected(rows, 0, limit) == rows
  {
    CollectedFrom(rows, 0, limit);
  }

  /** Two's complement wrap-around of a 64-bit addition. */
  function Wrap(n: int): Int64 {
    (n - MIN_INT64) % 0x1_0000_0000_0000_0000 + MIN_INT64
  }

  lemma WrapInRange(n: Int64)
    ensures Wrap(n) == n
  {
  }

  datatype Mode = Many | Single | MaybeSingle

  datatype Body = Rows(rows: seq<Row>) | One(row: Row) | Null

  datatype Response = NotFound | MultipleRows | Sent(range: Option<string>, body: Body)

  /** The end of the emitted range. */
  function RangeEnd(offset: Int64, count: nat): Int64 {
    var end := Wrap(offset + count - 1);
    if count == 0 || end < offset then offset else end
  }

  /** writeSelectResult; `total` is negative when the caller has not counted. */
  method WriteSelectResult(rows: seq<Row>, mode: Mode, countExact: bool, offset: Int64,
                           total: Int64) returns (r: Response)
    requires |rows| <= MAX_INT64
    ensures r.NotFound? <==> mode.Single? && |rows| == 0
    ensures r.MultipleRows? <==> !mode.Many? && |rows| > 1
    ensures r.Sent? ==> r.range == if countExact then
              Some(ContentRange(offset, RangeEnd(offset, |rows|), if total < 0 then |rows| else total)) else None
    ensures r.Sent? && countExact && rows == [] ==>
              r.range == Some(ContentRange(offset, offset, if total < 0 then 0 else total))
    ensures r.Sent? ==> r.body == if mode.Many? then Rows(rows) else if rows == [] then Null else One(rows[0])
  {
    match mode {
      case Single =>
        if |rows| == 0 {
          return NotFound;
        }
        if |rows| > 1 {
          return MultipleRows;
        }
      case MaybeSingle =>
        if |rows| > 1 {
          return MultipleRows;
        }
      case Many =>
    }
    var header := None;
    if countExact {
      var all := total;
      if all < 0 {
        all := |rows|;
      }
      var end := Wrap(offset + |rows| - 1);
      if |rows| == 0 {
        end := offset;
      }
      if end < offset {
        end := offset;
      }
      var text := FormatContentRange(offset, end, all);
      header := Some(text);
    }
    if !mode.Many? {
      if mode.MaybeSingle? && |rows| == 0 {
        return Sent(header, Null);
      }
      return Sent(header, One(rows[0]));
    }
    return Sent(header, Rows(rows));
  }

  /** The fallback count: the length of the same selection without window or projection. */
  function FallbackCount(rows: seq<Row>, fs: seq<Filter>, groups: seq<seq<Filter>>): nat {
    |Page(ProjectedRows(Filtered(rows, fs, groups), []), 0, 0)|
  }

  /** For every page with rows, the emitted range covers exactly its rows and lies below the fallback count. */
  lemma RangeDescribesPage(rows: seq<Row>, fs: seq<Filter>, groups: seq<seq<Filter>>, select: seq<string>,
                           offset: Int64, limit: Int64)
    requires 0 <= offset && |rows| <= MAX_INT64
    requires Page(ProjectedRows(Filtered(rows, fs, groups), select), offset, limit) != []
    ensures var page := Page(ProjectedRows(Filtered(rows, fs, groups), select), offset, limit);
            && offset <= RangeEnd(offset, |page|) < FallbackCount(rows, fs, groups)
            && RangeEnd(offset, |page|) - offset + 1 == |page|
  {
    hide Filtered, Wrap, Projected;
    FilteredIsNoLonger(rows, fs, groups);
    WrapInRange(offset + |Page(ProjectedRows(Filtered(rows, fs, groups), select), offset, limit)| - 1);
  }

  lemma {:induction false} FilteredIsNoLonger(rows: seq<Row>, fs: seq<Filter>, groups: seq<seq<Filter>>)
    ensures |Filtered(rows, fs, groups)| <= |rows|
  {
    if rows != [] {
      FilteredIsNoLonger(rows[..|rows| - 1], fs, groups);
    }
  }

  /** The header tells the client the range and the total, and nothing else gives the same header. */
  lemma HeaderDeterminesPage(offset1: Int64, count1: nat, total1: Int64, offset2: Int64, count2: nat, total2: Int64)
    requires 0 <= offset1 && 0 < count1 && offset1 + count1 <= MAX_INT64
    requires 0 <= offset2 && 0 < count2 && offset2 + count2 <= MAX_INT64
    requires ContentRange(offset1, RangeEnd(offset1, count1), total1)
             == ContentRange(offset2, RangeEnd(offset2, count2), total2)
    ensures offset1 == offset2 && count1 == count2 && total1 == total2
  {
    hide ContentRange;
    ContentRangeInjective(offset1, RangeEnd(offset1, count1), total1, offset2, RangeEnd(offset2, count2), total2);
  }

  /** The last index sent: of the last row, but the offset itself without rows and where the addition wraps around. */
  lemma RangeEndIs(offset: Int64, count: nat)
    requires count <= MAX_INT64
    ensures RangeEnd(offset, count)
            == if 0 < count && offset + count - 1 <= MAX_INT64 then offset + count - 1 else offset
  {
    if 0 < count && offset + count - 1 <= MAX_INT64 {
      WrapInRange(offset + count - 1);
    } else if 0 < count {
      WrappedIsLess(offset + count - 1, offset);
    }
  }

  lemma WrappedIsLess(n: int, offset: Int64)
    requires MAX_INT64 < n < offset + 0x1_0000_0000_0000_0000
    ensures Wrap(n) < offset
  {
  }

  /** Any window: from the offset, which counts from zero if negative, at most `limit` rows if that is positive. */
  lemma PageIs(rows: seq<Row>, offset: int, limit: int)
    ensures var from := if offset < 0 then 0 else if offset > |rows| then |rows| else offset;
            var end := if limit > 0 && from + limit < |rows| then from + limit else |rows|;
            Page(rows, offset, limit) == rows[from..end]
  {
  }
}
