/** The `getQueue` handler (backend/main.go:153-233) over an in-memory table: normalise the
    pagination, count the rows under the status filter, sort them, cut out one page and group
    that page into the three buckets. */
module QueueQuery {
  import opened Wrappers
  import opened Videos
  import opened Ordering
  import opened Pagination

  /** The rows with status `status`, in table order. */
  function WithStatus(rows: seq<Video>, status: string): (r: seq<Video>)
    ensures |r| <= |rows|
    ensures forall i :: 0 <= i < |r| ==> r[i].status == status
    decreases |rows|
  {
    if |rows| == 0 then []
    else
      var last := rows[|rows| - 1];
      WithStatus(rows[..|rows| - 1], status) + (if last.status == status then [last] else [])
  }

  /** The rows whose status is none of the three bucket statuses, in table order. */
  function Unbucketed(rows: seq<Video>): (r: seq<Video>)
    ensures |r| <= |rows|
    ensures forall i :: 0 <= i < |r| ==> !IsBucketStatus(r[i].status)
    decreases |rows|
  {
    if |rows| == 0 then []
    else
      var last := rows[|rows| - 1];
      Unbucketed(rows[..|rows| - 1]) + (if !IsBucketStatus(last.status) then [last] else [])
  }

  /** The status filter keeps each row with that status as often as it occurs, and no other. */
  lemma {:induction false} WithStatusCount(rows: seq<Video>, status: string, v: Video)
    ensures multiset(WithStatus(rows, status))[v] == if v.status == status then multiset(rows)[v] else 0
    decreases |rows|
  {
    if |rows| > 0 {
      assert rows == rows[..|rows| - 1] + [rows[|rows| - 1]];
      WithStatusCount(rows[..|rows| - 1], status, v);
    }
  }

  lemma {:induction false} UnbucketedCount(rows: seq<Video>, v: Video)
    ensures multiset(Unbucketed(rows))[v] == if IsBucketStatus(v.status) then 0 else multiset(rows)[v]
    decreases |rows|
  {
    if |rows| > 0 {
      assert rows == rows[..|rows| - 1] + [rows[|rows| - 1]];
      UnbucketedCount(rows[..|rows| - 1], v);
    }
  }

  /** Filtering distributes over concatenation, so it keeps the rows' relative order. */
  lemma {:induction false} WithStatusAppend(a: seq<Video>, b: seq<Video>, status: string)
    ensures WithStatus(a + b, status) == WithStatus(a, status) + WithStatus(b, status)
    decreases |b|
  {
    if |b| > 0 {
      var b', last := b[..|b| - 1], b[|b| - 1];
      var tail := if last.status == status then [last] else [];
      assert (a + b)[..|a + b| - 1] == a + b';
      assert (a + b)[|a + b| - 1] == last;
      WithStatusAppend(a, b', status);
      calc {
        WithStatus(a + b, status);
        WithStatus(a + b', status) + tail;
        (WithStatus(a, status) + WithStatus(b', status)) + tail;
        WithStatus(a, status) + (WithStatus(b', status) + tail);
        WithStatus(a, status) + WithStatus(b, status);
      }
    } else {
      assert a + b == a;
    }
  }

  /** The rows the `WHERE` clause selects: all rows for the empty filter, otherwise the rows
      whose status equals it. */
  function Matching(t: seq<Video>, status: string): (r: seq<Video>)
    ensures status != "" ==> forall i :: 0 <= i < |r| ==> r[i].status == status
  {
    if status == "" then t else WithStatus(t, status)
  }

  lemma MatchingCount(t: seq<Video>, status: string, v: Video)
    ensures multiset(Matching(t, status))[v]
         == if status == "" || v.status == status then multiset(t)[v] else 0
  {
    if status != "" {
      WithStatusCount(t, status, v);
    }
  }

  function Min(a: int, b: int): int {
    if a <= b then a else b
  }

  /** `LIMIT size OFFSET offset`. */
  function Window(rows: seq<Video>, offset: nat, size: nat): (w: seq<Video>)
    ensures |w| <= size
    ensures offset >= |rows| ==> w == []
    ensures forall k :: 0 <= k < |w| ==> offset + k < |rows| && w[k] == rows[offset + k]
    ensures offset < |rows| ==> |w| == Min(size, |rows| - offset)
  {
    if offset >= |rows| then [] else rows[offset..Min(offset + size, |rows|)]
  }

  /** The rows of page `p`: the filtered rows in query order, from `Offset(p)` on, at most
      `p.pageSize` of them. */
  function PageRows(t: seq<Video>, p: Params, status: string): (r: seq<Video>)
    requires Normalized(p)
    ensures |r| <= p.pageSize
    ensures Sorted(r)
    ensures Offset(p) >= |Matching(t, status)| ==> r == []
    ensures forall k :: 0 <= k < |r| ==> r[k] in Matching(t, status)
  {
    var ordered := Sort(Matching(t, status));
    var r := Window(ordered, Offset(p), p.pageSize);
    assert |ordered| == |multiset(ordered)| == |Matching(t, status)|;
    forall k | 0 <= k < |r| ensures r[k] in Matching(t, status) {
      assert r[k] in multiset(ordered);
    }
    r
  }

  /** The switch of lines 213-222: each row goes to the bucket its status names, rows with
      any other status are dropped. */
  function Group(rows: seq<Video>, total: nat): Buckets {
    Buckets(WithStatus(rows, Pending), WithStatus(rows, Processing), WithStatus(rows, Completed), total)
  }

  /** A successful `GET /api/queue?page=&pageSize=&status=` against table `t`: the page of
      the sorted filtered rows, grouped by status, with the filtered count and page count. */
  function GetQueue(t: seq<Video>, page: int, pageSize: int, status: string): (r: QueueResponse)
    ensures r.pagination.page >= 1 && 1 <= r.pagination.pageSize <= MaxPageSize
    ensures page >= 1 ==> r.pagination.page == page
    ensures 1 <= pageSize <= MaxPageSize ==> r.pagination.pageSize == pageSize
    ensures r.queue.total == r.pagination.total == |Matching(t, status)|
    ensures r.pagination.pages * r.pagination.pageSize >= r.pagination.total
    ensures r.pagination.total > 0 ==> (r.pagination.pages - 1) * r.pagination.pageSize < r.pagination.total
    ensures r.pagination.total == 0 ==> r.pagination.pages == 0
    ensures forall i :: 0 <= i < |r.queue.pending| ==> r.queue.pending[i].status == Pending
    ensures forall i :: 0 <= i < |r.queue.processing| ==> r.queue.processing[i].status == Processing
    ensures forall i :: 0 <= i < |r.queue.completed| ==> r.queue.completed[i].status == Completed
    ensures |r.queue.pending| + |r.queue.processing| + |r.queue.completed| <= r.pagination.pageSize
    ensures var rows := PageRows(t, Normalize(page, pageSize), status);
      && r.queue.pending == WithStatus(rows, Pending)
      && r.queue.processing == WithStatus(rows, Processing)
      && r.queue.completed == WithStatus(rows, Completed)
      && multiset(r.queue.pending) + multiset(r.queue.processing) + multiset(r.queue.completed)
         + multiset(Unbucketed(rows)) == multiset(rows)
  {
    var p := Normalize(page, pageSize);
    var total := |Matching(t, status)|;
    var rows := PageRows(t, p, status);
    var q := Group(rows, total);
    GroupPartitionsRows(rows, total);
    QueueResponse(q, PageInfo(p.page, p.pageSize, total, PageCount(total, p.pageSize)))
  }

  lemma GroupPartitionsRows(rows: seq<Video>, total: nat)
    ensures var q := Group(rows, total);
      && multiset(q.pending) + multiset(q.processing) + multiset(q.completed) + multiset(Unbucketed(rows)) == multiset(rows)
      && |q.pending| + |q.processing| + |q.completed| <= |rows|
  {
    BucketsPartitionRows(rows);
  }

  lemma BucketCountsAddUp(rows: seq<Video>)
    ensures multiset(WithStatus(rows, Pending)) + multiset(WithStatus(rows, Processing))
          + multiset(WithStatus(rows, Completed)) + multiset(Unbucketed(rows)) == multiset(rows)
  {
    var a, b, c, d := WithStatus(rows, Pending), WithStatus(rows, Processing), WithStatus(rows, Completed), Unbucketed(rows);
    forall v ensures (multiset(a) + multiset(b) + multiset(c) + multiset(d))[v] == multiset(rows)[v] {
      WithStatusCount(rows, Pending, v);
      WithStatusCount(rows, Processing, v);
      WithStatusCount(rows, Completed, v);
      UnbucketedCount(rows, v);
    }
  }

  lemma NothingUnbucketed(rows: seq<Video>)
    ensures Unbucketed(rows) == [] <==> forall i :: 0 <= i < |rows| ==> IsBucketStatus(rows[i].status)
  {
    var d := Unbucketed(rows);
    if d == [] {
      forall i | 0 <= i < |rows| ensures IsBucketStatus(rows[i].status) {
        UnbucketedCount(rows, rows[i]);
        assert rows[i] in multiset(rows);
      }
    } else {
      assert d[0] in multiset(d);
      UnbucketedCount(rows, d[0]);
      assert d[0] in multiset(rows);
      var i :| 0 <= i < |rows| && rows[i] == d[0];
      assert !IsBucketStatus(rows[i].status);
    }
  }

  /** Grouping partitions a page: the three buckets and the dropped rows together hold each
      row exactly as often as the page does, so the buckets hold at most the page's rows and
      exactly them when every status is a bucket status. */
  lemma BucketsPartitionRows(rows: seq<Video>)
    ensures multiset(WithStatus(rows, Pending)) + multiset(WithStatus(rows, Processing))
          + multiset(WithStatus(rows, Completed)) + multiset(Unbucketed(rows)) == multiset(rows)
    ensures |WithStatus(rows, Pending)| + |WithStatus(rows, Processing)| + |WithStatus(rows, Completed)|
          + |Unbucketed(rows)| == |rows|
    ensures Unbucketed(rows) == [] <==> forall i :: 0 <= i < |rows| ==> IsBucketStatus(rows[i].status)
  {
    BucketCountsAddUp(rows);
    var a, b, c, d := WithStatus(rows, Pending), WithStatus(rows, Processing), WithStatus(rows, Completed), Unbucketed(rows);
    assert |multiset(a) + multiset(b) + multiset(c) + multiset(d)| == |rows|;
    NothingUnbucketed(rows);
  }

  /** The loop of lines 213-222, appending each row to its bucket. */
  method GroupRows(rows: seq<Video>, total: nat) returns (q: Buckets)
    ensures q == Group(rows, total)
  {
    q := Buckets([], [], [], total);
    var i := 0;
    while i < |rows|
      invariant 0 <= i <= |rows|
      invariant q.total == total
      invariant q.pending == WithStatus(rows[..i], Pending)
      invariant q.processing == WithStatus(rows[..i], Processing)
      invariant q.completed == WithStatus(rows[..i], Completed)
    {
      var v := rows[i];
      assert rows[..i + 1][..i] == rows[..i];
      if v.status == Pending {
        q := q.(pending := q.pending + [v]);
      } else if v.status == Processing {
        q := q.(processing := q.processing + [v]);
      } else if v.status == Completed {
        q := q.(completed := q.completed + [v]);
      }
      i := i + 1;
    }
    assert rows[..i] == rows;
  }

  /** Under the primary key, the filtered rows never hold two different rows with one id. */
  lemma MatchingHasUniqueIds(t: seq<Video>, status: string)
    requires UniqueIds(t)
    ensures SameIdSameRow(multiset(Matching(t, status)))
  {
    var m := multiset(Matching(t, status));
    forall v, w | v in m && w in m && v.id == w.id ensures v == w {
      MatchingCount(t, status, v);
      MatchingCount(t, status, w);
      assert v in multiset(t) && w in multiset(t);
      var i :| 0 <= i < |t| && t[i] == v;
      var j :| 0 <= j < |t| && t[j] == w;
      assert i == j;
    }
  }

  /** The page is the stretch `[Offset(p), Offset(p) + p.pageSize)` of ANY arrangement of the
      filtered rows sorted by (rank, path, id): the result does not depend on how the query
      is evaluated. */
  lemma PageIsWindowOfSortedRows(t: seq<Video>, p: Params, status: string, ordered: seq<Video>)
    requires UniqueIds(t) && Normalized(p)
    requires Sorted(ordered) && multiset(ordered) == multiset(Matching(t, status))
    ensures Offset(p) >= |ordered| ==> PageRows(t, p, status) == []
    ensures Offset(p) < |ordered| ==>
      PageRows(t, p, status) == ordered[Offset(p)..Min(Offset(p) + p.pageSize, |ordered|)]
  {
    MatchingHasUniqueIds(t, status);
    SortedArrangementIsUnique(Sort(Matching(t, status)), ordered);
  }

  /** Row `i` of the sorted filtered rows is row `i % pageSize` of page `i / pageSize + 1`, and
      that page is within `pages`: paging visits every row once, in order. */
  lemma RowOnItsPage(t: seq<Video>, status: string, pageSize: int, i: int)
    requires 1 <= pageSize <= MaxPageSize
    requires 0 <= i < |Matching(t, status)|
    ensures Normalized(Params(i / pageSize + 1, pageSize))
    ensures i / pageSize + 1 <= PageCount(|Matching(t, status)|, pageSize)
    ensures i % pageSize < |PageRows(t, Params(i / pageSize + 1, pageSize), status)|
    ensures PageRows(t, Params(i / pageSize + 1, pageSize), status)[i % pageSize]
         == Sort(Matching(t, status))[i]
  {
    PageOfRow(i, |Matching(t, status)|, pageSize);
  }

  /** A page past the last one is empty (the buckets too), and `total` is still reported. */
  lemma PageBeyondLastIsEmpty(t: seq<Video>, page: int, pageSize: int, status: string)
    ensures var r := GetQueue(t, page, pageSize, status);
      r.pagination.page > r.pagination.pages ==>
        && PageRows(t, Normalize(page, pageSize), status) == []
        && r.queue.pending == [] && r.queue.processing == [] && r.queue.completed == []
        && r.queue.total == |Matching(t, status)|
  {
    var p := Normalize(page, pageSize);
    var total := |Matching(t, status)|;
    if p.page > PageCount(total, p.pageSize) {
      OffsetPastLastPage(p, total);
    }
  }

  lemma {:induction false} WithStatusOfUniform(rows: seq<Video>, status: string, other: string)
    requires forall i :: 0 <= i < |rows| ==> rows[i].status == status
    ensures WithStatus(rows, status) == rows
    ensures other != status ==> WithStatus(rows, other) == []
    decreases |rows|
  {
    if |rows| > 0 {
      WithStatusOfUniform(rows[..|rows| - 1], status, other);
      assert rows == rows[..|rows| - 1] + [rows[|rows| - 1]];
    }
  }

  lemma PageRowsHaveFilterStatus(t: seq<Video>, p: Params, status: string)
    requires Normalized(p) && status != ""
    ensures forall i :: 0 <= i < |PageRows(t, p, status)| ==> PageRows(t, p, status)[i].status == status
  {
    var rows, m := PageRows(t, p, status), Matching(t, status);
    forall i | 0 <= i < |rows| ensures rows[i].status == status {
      var k :| 0 <= k < |m| && m[k] == rows[i];
    }
  }

  lemma BucketStatusesDiffer()
    ensures Pending != Processing && Pending != Completed && Processing != Completed
    ensures Pending != "" && Processing != "" && Completed != ""
  {
  }

  /** Rows that all have one bucket status fill that bucket, in order, and nothing else. */
  lemma UniformRowsFillOneBucket(rows: seq<Video>, status: string)
    requires IsBucketStatus(status)
    requires forall i :: 0 <= i < |rows| ==> rows[i].status == status
    ensures WithStatus(rows, Pending) + WithStatus(rows, Processing) + WithStatus(rows, Completed) == rows
    ensures WithStatus(rows, status) == rows
  {
    BucketStatusesDiffer();
    WithStatusOfUniform(rows, status, Pending);
    WithStatusOfUniform(rows, status, Processing);
    WithStatusOfUniform(rows, status, Completed);
  }

  /** Under a status filter every page row has that status: its bucket is the whole page and
      the other buckets are empty; a filter naming no bucket status (such as "failed") gives
      empty buckets although `total` counts the matching rows. */
  lemma FilterSelectsOneBucket(t: seq<Video>, page: int, pageSize: int, status: string)
    requires status != ""
    ensures var r := GetQueue(t, page, pageSize, status);
      var rows := PageRows(t, Normalize(page, pageSize), status);
      && (IsBucketStatus(status) ==> r.queue.pending + r.queue.processing + r.queue.completed == rows)
      && (status == Pending ==> r.queue.pending == rows && r.queue.processing == [] && r.queue.completed == [])
      && (status == Processing ==> r.queue.processing == rows && r.queue.pending == [] && r.queue.completed == [])
      && (status == Completed ==> r.queue.completed == rows && r.queue.pending == [] && r.queue.processing == [])
      && (!IsBucketStatus(status) ==> r.queue.pending == [] && r.queue.processing == [] && r.queue.completed == [])
      && r.queue.total == |WithStatus(t, status)|
  {
    var rows := PageRows(t, Normalize(page, pageSize), status);
    PageRowsHaveFilterStatus(t, Normalize(page, pageSize), status);
    BucketStatusesDiffer();
    if IsBucketStatus(status) {
      UniformRowsFillOneBucket(rows, status);
    }
    WithStatusOfUniform(rows, status, Pending);
    WithStatusOfUniform(rows, status, Processing);
    WithStatusOfUniform(rows, status, Completed);
  }

  /** The query reads the table only through its id-to-row view: two tables holding the same
      rows, in whatever order, give the same response. */
  lemma QueueDependsOnlyOnRows(t1: seq<Video>, t2: seq<Video>, page: int, pageSize: int, status: string)
    requires UniqueIds(t1) && UniqueIds(t2)
    requires forall id :: Find(t1, id) == Find(t2, id)
    ensures GetQueue(t1, page, pageSize, status) == GetQueue(t2, page, pageSize, status)
  {
    forall v ensures multiset(t1)[v] == multiset(t2)[v] {
      RowCountFromFind(t1, v);
      RowCountFromFind(t2, v);
    }
    assert multiset(t1) == multiset(t2);
    var m1, m2 := Matching(t1, status), Matching(t2, status);
    forall v ensures multiset(m1)[v] == multiset(m2)[v] {
      MatchingCount(t1, status, v);
      MatchingCount(t2, status, v);
    }
    assert multiset(m1) == multiset(m2);
    assert |m1| == |multiset(m1)| == |multiset(m2)| == |m2|;
    MatchingHasUniqueIds(t1, status);
    SortDependsOnlyOnRows(m1, m2);
  }

  /** Twenty-five matching rows, ten per page: page 2 holds sorted rows 11 to 20 and there are
      three pages. */
  lemma SecondPageOfTwentyFive(t: seq<Video>)
    requires |Matching(t, "")| == 25
    ensures var r := GetQueue(t, 2, 10, "");
      && r.pagination.pages == 3 && r.pagination.total == 25
      && PageRows(t, Params(2, 10), "") == Sort(t)[10..20]
      && r.queue == Group(Sort(t)[10..20], 25)
  {
  }

  /** Errors the database reports for a query the handler builds. */
  datatype DbError = NegativeOffset

  /** The page as the handler really computes it: the offset is 64-bit `int` arithmetic and
      PostgreSQL refuses a negative `OFFSET`. */
  function PageRowsAsWritten(t: seq<Video>, p: Params, status: string): (r: Result<seq<Video>, DbError>)
    requires Normalized(p) && IsInt64(p.page)
    ensures r.Ok? ==> |r.value| <= p.pageSize
    ensures IsInt64(Offset(p)) ==> r == Ok(PageRows(t, p, status))
  {
    var o := OffsetAsWritten(p);
    if o < 0 then Err(NegativeOffset)
    else Ok(Window(Sort(Matching(t, status)), o, p.pageSize))
  }

  /** `?page=4611686018427387905&pageSize=4` on any non-empty table: the wrapped offset is 0,
      so the handler returns the first rows, although the page is far past the last one and
      the overflow-free query returns nothing. */
  lemma HugePageWrapsToFirstPage(t: seq<Video>)
    requires 0 < |t| < TwoTo64
    ensures var p := Params(0x4000_0000_0000_0001, 4);
      && Normalized(p) && IsInt64(p.page)
      && PageRowsAsWritten(t, p, "") == Ok(Sort(t)[..Min(4, |t|)])
      && PageRowsAsWritten(t, p, "").value != []
      && PageRows(t, p, "") == []
  {
    OffsetWrapsOnHugePage();
  }
}
