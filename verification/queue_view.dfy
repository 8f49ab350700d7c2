/** The queue page (app/queue/page.tsx): what it requests and what it shows of the answer. */
module QueueView {
  import opened Videos
  import opened Pagination
  import opened Ordering
  import opened QueueQuery

  /** The four status cards, in display order. */
  datatype Card = AllCard | PendingCard | ProcessingCard | CompletedCard

  /** The card titles of lines 130-135. */
  function Label(card: Card): string {
    match card
    case AllCard => "All"
    case PendingCard => "Pending"
    case ProcessingCard => "Processing"
    case CompletedCard => "Completed"
  }

  function LowerChar(ch: char): char {
    if 'A' <= ch <= 'Z' then (ch as int + 32) as char else ch
  }

  /** `toLowerCase` on the ASCII letters, the only ones the card titles use: no capital is
      left, each capital becomes the same letter in lower case, and every other character is
      kept. */
  function ToLower(s: string): (r: string)
    ensures |r| == |s|
    ensures forall i :: 0 <= i < |r| ==> !('A' <= r[i] <= 'Z')
    ensures forall i :: 0 <= i < |s| && !('A' <= s[i] <= 'Z') ==> r[i] == s[i]
    ensures forall i :: 0 <= i < |s| && 'A' <= s[i] <= 'Z' ==> r[i] as int - 'a' as int == s[i] as int - 'A' as int
  {
    seq(|s|, i requires 0 <= i < |s| => LowerChar(s[i]))
  }

  /** The page's `selectedStatus` and `currentPage`. */
  datatype View = View(selected: string, page: int)

  const All: string := "all"

  /** The page size the console always asks for. */
  const RequestedPageSize: int := 10

  /** The state on first render. */
  function InitialView(): View {
    View(All, 1)
  }

  /** Pressing a card (lines 144-147): select its lower-cased title, back to page 1. */
  function PressCard(v: View, card: Card): View {
    View(ToLower(Label(card)), 1)
  }

  /** The pager's `onChange` (line 208). */
  function ChangePage(v: View, page: int): View {
    v.(page := page)
  }

  /** The card drawn with a border (lines 139-143). */
  predicate Highlighted(v: View, card: Card) {
    v.selected == ToLower(Label(card))
  }

  /** The `status` query parameter (line 64): "" for "all", the selection otherwise. */
  function StatusFilter(selected: string): (f: string)
    ensures f == "" <==> selected == All || selected == ""
    ensures f != "" ==> f == selected
  {
    if selected == All then "" else selected
  }

  /** What the filter asks the backend for: every row under "all", otherwise the rows whose
      status is the selection. */
  lemma StatusFilterSelects(t: seq<Video>, selected: string)
    ensures selected == All ==> Matching(t, StatusFilter(selected)) == t
    ensures selected != All && selected != "" ==> Matching(t, StatusFilter(selected)) == WithStatus(t, selected)
  {
  }

  /** The query of lines 65-67. */
  datatype Request = Request(page: int, pageSize: int, status: string)

  function RequestFor(v: View): Request {
    Request(v.page, RequestedPageSize, StatusFilter(v.selected))
  }

  /** The backend's answer to a request. */
  function Answer(t: seq<Video>, req: Request): QueueResponse {
    GetQueue(t, req.page, req.pageSize, req.status)
  }

  /** The numbers on the cards (lines 93-98). */
  datatype Counts = Counts(all: nat, pending: nat, processing: nat, completed: nat)

  function StatusCounts(q: Buckets): Counts {
    Counts(q.total, |q.pending|, |q.processing|, |q.completed|)
  }

  /** The table rows (line 113): the buckets one after another, pending first. */
  function AllVideos(q: Buckets): seq<Video> {
    q.pending + q.processing + q.completed
  }

  /** The "No videos in queue" card (line 115). */
  predicate ShowsEmptyState(q: Buckets) {
    |AllVideos(q)| == 0
  }

  /** What the page draws once loaded: the "No videos in queue" card alone (lines 115-125),
      or the four status cards, the table and the pager (lines 127-215). */
  datatype Screen = NoVideosCard | Dashboard(cards: Counts, rows: seq<Video>, pages: nat)

  function Render(r: QueueResponse): (screen: Screen)
    ensures screen.NoVideosCard? <==> ShowsEmptyState(r.queue)
    ensures screen.Dashboard? ==> |screen.rows| > 0
  {
    if ShowsEmptyState(r.queue) then NoVideosCard
    else Dashboard(StatusCounts(r.queue), AllVideos(r.queue), r.pagination.pages)
  }

  /** The chip and count colour of a status (lines 80-91). */
  function StatusColor(status: string): (color: string)
    ensures color == "warning" <==> status == Pending
    ensures color == "primary" <==> status == Processing
    ensures color == "success" <==> status == Completed
    ensures color == "default" <==> !IsBucketStatus(status)
  {
    if status == Pending then "warning"
    else if status == Processing then "primary"
    else if status == Completed then "success"
    else "default"
  }

  /** Each card selects its own status, goes back to page 1, is the only card highlighted
      afterwards, and asks the backend for its status, or for every status from "All". */
  lemma PressCardSelectsItsStatus(v: View, card: Card)
    ensures var n := PressCard(v, card);
      && n.page == 1
      && n.selected == (match card
                        case AllCard => All
                        case PendingCard => Pending
                        case ProcessingCard => Processing
                        case CompletedCard => Completed)
      && RequestFor(n) == Request(1, RequestedPageSize, if card == AllCard then "" else n.selected)
      && forall other :: Highlighted(n, other) <==> other == card
  {
    assert ToLower("All") == All;
    assert ToLower("Pending") == Pending;
    assert ToLower("Processing") == Processing;
    assert ToLower("Completed") == Completed;
  }

  /** Turning the page keeps the selection, and the next request asks for that page under
      the same filter. */
  lemma ChangePageKeepsFilter(v: View, page: int)
    ensures var n := ChangePage(v, page);
      && RequestFor(n) == Request(page, RequestedPageSize, StatusFilter(v.selected))
      && forall card :: Highlighted(n, card) <==> Highlighted(v, card)
  {
  }

  /** The table shows the buckets in the order pending, processing, completed, whatever order
      the server sent; the empty state is shown exactly when all three are empty. */
  lemma DisplayedRowsAreTheBuckets(q: Buckets)
    ensures |AllVideos(q)| == |q.pending| + |q.processing| + |q.completed|
    ensures multiset(AllVideos(q)) == multiset(q.pending) + multiset(q.processing) + multiset(q.completed)
    ensures forall i :: 0 <= i < |q.pending| ==> AllVideos(q)[i] == q.pending[i]
    ensures forall i :: 0 <= i < |q.processing| ==> AllVideos(q)[|q.pending| + i] == q.processing[i]
    ensures forall i :: 0 <= i < |q.completed| ==> AllVideos(q)[|q.pending| + |q.processing| + i] == q.completed[i]
    ensures ShowsEmptyState(q) <==> q.pending == [] && q.processing == [] && q.completed == []
  {
  }

  /** What one fetch gives: `statusCounts.all` is every matching row, the bucket counts are
      only this page's rows (together at most 10), and the table holds the page's rows except
      those with a status outside the buckets. The cards show these counts only when the page
      is not in the empty state. */
  lemma ShownPage(t: seq<Video>, v: View)
    ensures var req := RequestFor(v);
      var q := Answer(t, req).queue;
      var rows := PageRows(t, Normalize(req.page, req.pageSize), req.status);
      var c := StatusCounts(q);
      && c.all == |Matching(t, StatusFilter(v.selected))|
      && c.pending + c.processing + c.completed <= RequestedPageSize
      && multiset(AllVideos(q)) + multiset(Unbucketed(rows)) == multiset(rows)
      && (Render(Answer(t, req)).Dashboard? ==>
            Render(Answer(t, req)).cards == c && Render(Answer(t, req)).rows == AllVideos(q))
  {
    var req := RequestFor(v);
    var rows := PageRows(t, Normalize(req.page, req.pageSize), req.status);
    BucketsPartitionRows(rows);
  }

  /** A row in a bucket gets that bucket's colour, so no displayed row is drawn "default". */
  lemma BucketRowsShowBucketColor(t: seq<Video>, req: Request)
    ensures var q := Answer(t, req).queue;
      && (forall i :: 0 <= i < |q.pending| ==> StatusColor(q.pending[i].status) == "warning")
      && (forall i :: 0 <= i < |q.processing| ==> StatusColor(q.processing[i].status) == "primary")
      && (forall i :: 0 <= i < |q.completed| ==> StatusColor(q.completed[i].status) == "success")
      && (forall i :: 0 <= i < |AllVideos(q)| ==> StatusColor(AllVideos(q)[i].status) != "default")
  {
    var q := Answer(t, req).queue;
    forall i | 0 <= i < |AllVideos(q)| ensures StatusColor(AllVideos(q)[i].status) != "default" {
      if i < |q.pending| {
        assert AllVideos(q)[i] == q.pending[i];
      } else if i < |q.pending| + |q.processing| {
        assert AllVideos(q)[i] == q.processing[i - |q.pending|];
      } else {
        assert AllVideos(q)[i] == q.completed[i - |q.pending| - |q.processing|];
      }
    }
  }

  lemma BucketFilterShowsPage(t: seq<Video>, page: int, status: string)
    requires IsBucketStatus(status)
    ensures var q := GetQueue(t, page, RequestedPageSize, status).queue;
      && AllVideos(q) == PageRows(t, Normalize(page, RequestedPageSize), status)
      && q.total == |WithStatus(t, status)|
  {
    BucketStatusesDiffer();
    FilterSelectsOneBucket(t, page, RequestedPageSize, status);
  }

  /** After pressing a bucket card the table is exactly the first page of rows with that
      status, and "All" shows the number of rows with that status. */
  lemma PressedBucketShowsOnlyIt(t: seq<Video>, v: View, card: Card)
    requires card != AllCard
    ensures var n := PressCard(v, card);
      var q := Answer(t, RequestFor(n)).queue;
      && AllVideos(q) == PageRows(t, Params(1, RequestedPageSize), n.selected)
      && StatusCounts(q).all == |WithStatus(t, n.selected)|
  {
    PressCardSelectsItsStatus(v, card);
    var n := PressCard(v, card);
    assert IsBucketStatus(n.selected);
    assert RequestFor(n) == Request(1, RequestedPageSize, n.selected);
    BucketFilterShowsPage(t, 1, n.selected);
  }

  /** Rows of any other status are counted but never shown: for a table whose only row is
      "failed", `statusCounts.all` is 1 under "All", yet the page draws only the "No videos in
      queue" card, so no count is on screen. */
  lemma CountedButNotShown(v: Video)
    requires v.status == "failed"
    ensures var q := Answer([v], RequestFor(InitialView())).queue;
      && ShowsEmptyState(q) && StatusCounts(q).all == 1
      && Render(Answer([v], RequestFor(InitialView()))) == NoVideosCard
  {
    var rows := PageRows([v], Params(1, RequestedPageSize), "");
    assert Sort([v]) == [v];
    assert rows == [v];
    assert WithStatus(rows, Pending) == WithStatus([], Pending);
    assert WithStatus(rows, Processing) == WithStatus([], Processing);
    assert WithStatus(rows, Completed) == WithStatus([], Completed);
  }
  /** Pressing a bucket card whose status has no rows leads to the "No videos in queue" card
      alone: the status cards and the pager are gone, so no press or page change is offered
      until the page is loaded again. */
  lemma EmptyBucketHidesControls(t: seq<Video>, v: View, card: Card)
    requires card != AllCard
    requires forall i :: 0 <= i < |t| ==> t[i].status != ToLower(Label(card))
    ensures Render(Answer(t, RequestFor(PressCard(v, card)))) == NoVideosCard
  {
    PressedBucketShowsOnlyIt(t, v, card);
    var n := PressCard(v, card);
    assert WithStatus(t, n.selected) == [] by {
      forall w ensures multiset(WithStatus(t, n.selected))[w] == 0 {
        WithStatusCount(t, n.selected, w);
      }
    }
  }


  lemma SortPendingProcessing(a: Video, b: Video)
    requires a.status == Pending && b.status == Processing
    ensures Sort([a, b]) == [b, a]
  {
    assert Rank(b.status) < Rank(a.status);
    assert [a, b][..1] == [a];
    assert Sort([a]) == [a];
  }

  lemma GroupProcessingPending(a: Video, b: Video)
    requires a.status == Pending && b.status == Processing
    ensures Group([b, a], 2) == Buckets([a], [b], [], 2)
  {
    BucketStatusesDiffer();
    assert [b, a][..1] == [b];
    assert [b][..0] == [];
    assert WithStatus([b], Pending) == [];
    assert WithStatus([b], Processing) == [b];
    assert WithStatus([b], Completed) == [];
  }

  /** The server sends processing rows first; the table lists pending rows first. */
  lemma DisplayOrderDiffersFromServerOrder(a: Video, b: Video)
    requires a.status == Pending && b.status == Processing
    ensures PageRows([a, b], Params(1, RequestedPageSize), "") == [b, a]
    ensures AllVideos(Answer([a, b], RequestFor(InitialView())).queue) == [a, b]
  {
    SortPendingProcessing(a, b);
    var p := Params(1, RequestedPageSize);
    assert RequestFor(InitialView()) == Request(1, RequestedPageSize, "");
    assert Normalize(1, RequestedPageSize) == p;
    assert Offset(p) == 0;
    assert Matching([a, b], "") == [a, b];
    assert PageRows([a, b], p, "") == [b, a][0..2] == [b, a];
    GroupProcessingPending(a, b);
    assert Answer([a, b], RequestFor(InitialView())).queue == Group([b, a], 2);
  }
}
