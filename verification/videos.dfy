/** The `videos` table of the queue backend and the JSON shapes the console pages read. */
module Videos {
  import opened Wrappers

  /** One row of the `videos` table (`id` is the primary key), and the `Video` object both
      console pages exchange with the backend. `resolution` and `bitrate` are "" when unset. */
  datatype Video = Video(
    id: string,
    path: string,
    resolution: string,
    bitrate: string,
    status: string,
    originalSize: int)

  const Unprocessed: string := "unprocessed"
  const Pending: string := "pending"
  const Processing: string := "processing"
  const Completed: string := "completed"

  /** The three statuses the queue view groups into buckets. */
  predicate IsBucketStatus(status: string) {
    status == Pending || status == Processing || status == Completed
  }

  /** The `CASE status ... END` sort rank: processing first, then pending, then completed,
      then every other status. */
  function Rank(status: string): (r: nat)
    ensures 1 <= r <= 4
    ensures r == 1 <==> status == Processing
    ensures r == 2 <==> status == Pending
    ensures r == 3 <==> status == Completed
    ensures r == 4 <==> !IsBucketStatus(status)
  {
    if status == Processing then 1
    else if status == Pending then 2
    else if status == Completed then 3
    else 4
  }

  /** The `VideoQueue` object: one page of rows grouped by status, and the filtered total. */
  datatype Buckets = Buckets(
    pending: seq<Video>,
    processing: seq<Video>,
    completed: seq<Video>,
    total: nat)

  /** The `pagination` object of a queue response. */
  datatype PageInfo = PageInfo(page: int, pageSize: int, total: nat, pages: nat)

  /** The body of a successful `GET /api/queue`. */
  datatype QueueResponse = QueueResponse(queue: Buckets, pagination: PageInfo)

  /** The primary-key constraint: no two rows share an id. */
  ghost predicate UniqueIds(t: seq<Video>) {
    forall i, j :: 0 <= i < j < |t| ==> t[i].id != t[j].id
  }

  /** The table viewed as a map from id to row: the row with that id, if any. */
  function Find(t: seq<Video>, id: string): (r: Option<Video>)
    ensures r.Some? ==> r.value in t && r.value.id == id
    ensures r.None? <==> forall i :: 0 <= i < |t| ==> t[i].id != id
    decreases |t|
  {
    if |t| == 0 then None
    else if t[0].id == id then Some(t[0])
    else
      var r := Find(t[1..], id);
      assert forall i :: 1 <= i < |t| ==> t[i] == t[1..][i - 1];
      r
  }

  /** Under the primary key, `Find` returns exactly the row that carries the id. */
  lemma {:induction false} FindReturnsTheRow(t: seq<Video>, i: int)
    requires UniqueIds(t)
    requires 0 <= i < |t|
    ensures Find(t, t[i].id) == Some(t[i])
    decreases |t|
  {
    if i > 0 {
      assert t[0].id != t[i].id;
      assert UniqueIds(t[1..]) by {
        forall a, b | 0 <= a < b < |t[1..]| ensures t[1..][a].id != t[1..][b].id {
          assert t[1..][a] == t[a + 1] && t[1..][b] == t[b + 1];
        }
      }
      FindReturnsTheRow(t[1..], i - 1);
    }
  }

  /** Under the primary key a table is determined, up to order, by its id-to-row view: a row
      occurs once when `Find` returns it and not at all otherwise. */
  lemma {:induction false} RowCountFromFind(t: seq<Video>, v: Video)
    requires UniqueIds(t)
    ensures multiset(t)[v] == if Find(t, v.id) == Some(v) then 1 else 0
    decreases |t|
  {
    if |t| > 0 {
      var rest := t[1..];
      assert t == [t[0]] + rest;
      assert UniqueIds(rest) by {
        forall a, b | 0 <= a < b < |rest| ensures rest[a].id != rest[b].id {
          assert rest[a] == t[a + 1] && rest[b] == t[b + 1];
        }
      }
      RowCountFromFind(rest, v);
      if t[0].id == v.id {
        assert forall k :: 0 <= k < |rest| ==> rest[k] == t[k + 1];
        assert Find(rest, v.id).None?;
      }
    }
  }
}
