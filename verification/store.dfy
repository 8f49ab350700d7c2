/** The mutating handlers of the backend and the processed-paths cache
    (backend/main.go:89-143, 249-292), as steps on an in-memory table. */
module Store {
  import opened Wrappers
  import opened Videos
  import opened GoPath

  /** Backend state: the `videos` table and the `processedPaths` cache. */
  datatype Server = Server(table: seq<Video>, cache: set<string>)

  /** The paths of all rows: what `SELECT path FROM videos` fills the cache with. */
  function PathsOf(t: seq<Video>): (paths: set<string>)
    ensures forall p :: p in paths <==> exists i :: 0 <= i < |t| && t[i].path == p
  {
    set i | 0 <= i < |t| :: t[i].path
  }

  /** The cache is exactly the set of paths in the table, and the primary key holds. */
  ghost predicate Consistent(s: Server) {
    UniqueIds(s.table) && s.cache == PathsOf(s.table)
  }

  /** `refreshProcessedPathsCache`: rebuild the cache from the table. */
  function RefreshCache(s: Server): (r: Server)
    ensures r.table == s.table
    ensures forall p :: p in r.cache <==> exists i :: 0 <= i < |s.table| && s.table[i].path == p
  {
    s.(cache := PathsOf(s.table))
  }

  /** The scan loop of lines 98-105, adding each row's path. */
  method LoadPaths(rows: seq<Video>) returns (cache: set<string>)
    ensures cache == PathsOf(rows)
  {
    cache := {};
    var i := 0;
    while i < |rows|
      invariant 0 <= i <= |rows|
      invariant cache == PathsOf(rows[..i])
    {
      assert forall k :: 0 <= k < i ==> rows[..i + 1][k] == rows[..i][k];
      cache := cache + {rows[i].path};
      i := i + 1;
    }
    assert rows[..i] == rows;
  }

  lemma {:induction false} FindAfterAppend(t: seq<Video>, x: Video, id: string)
    ensures Find(t + [x], id) == if Find(t, id).Some? then Find(t, id) else if x.id == id then Some(x) else None
    decreases |t|
  {
    if |t| > 0 {
      assert (t + [x])[1..] == t[1..] + [x];
      FindAfterAppend(t[1..], x, id);
    }
  }

  datatype InsertError = DuplicateKey

  /** The outcome of `POST /api/videos/process`: the new state and the response body. */
  datatype AddReply = AddReply(server: Server, body: Result<Video, InsertError>)

  /** The row the handler inserts: the request's fields, with status "pending". */
  function Queued(v: Video): Video {
    v.(status := Pending)
  }

  /** `addToQueue`: insert the request as a pending row and mark its path processed; an id
      already in the table violates the primary key and changes nothing. On success the
      response echoes the request body as it was sent. */
  function AddToQueue(s: Server, v: Video): (r: AddReply)
    ensures r.body.Err? <==> exists i :: 0 <= i < |s.table| && s.table[i].id == v.id
    ensures r.body.Err? ==> r.server == s
    ensures r.body.Ok? ==> r.body.value == v
    ensures r.body.Ok? ==> multiset(r.server.table) == multiset(s.table) + multiset{Queued(v)}
    ensures r.body.Ok? ==> r.server.cache == s.cache + {v.path}
    ensures r.body.Ok? ==> forall id :: Find(r.server.table, id) == if id == v.id then Some(Queued(v)) else Find(s.table, id)
  {
    if Find(s.table, v.id).Some? then AddReply(s, Err(DuplicateKey))
    else
      var t := s.table + [Queued(v)];
      forall id ensures Find(t, id) == if id == v.id then Some(Queued(v)) else Find(s.table, id) {
        FindAfterAppend(s.table, Queued(v), id);
      }
      AddReply(Server(t, s.cache + {v.path}), Ok(v))
  }

  /** `UPDATE videos SET status = ... WHERE id = ...` on the table. */
  function SetStatus(t: seq<Video>, id: string, status: string): (r: seq<Video>)
    ensures |r| == |t|
    ensures forall i :: 0 <= i < |t| ==> r[i] == t[i].(status := r[i].status)
    decreases |t|
  {
    if |t| == 0 then []
    else [if t[0].id == id then t[0].(status := status) else t[0]] + SetStatus(t[1..], id, status)
  }

  lemma {:induction false} SetStatusView(t: seq<Video>, id: string, status: string, k: string)
    ensures Find(SetStatus(t, id, status), k)
         == if k == id && Find(t, k).Some? then Some(Find(t, k).value.(status := status)) else Find(t, k)
    ensures Find(t, id).None? ==> SetStatus(t, id, status) == t
    decreases |t|
  {
    if |t| > 0 {
      SetStatusView(t[1..], id, status, k);
      assert SetStatus(t, id, status)[1..] == SetStatus(t[1..], id, status);
      if t[0].id != id {
        assert Find(t, id) == Find(t[1..], id);
      }
    }
  }

  /** `updateVideoStatus`: the row with that id, if there is one, takes the new status, and
      nothing else changes. Any status string is accepted and an unknown id is not an error. */
  function UpdateVideoStatus(s: Server, id: string, status: string): (r: Server)
    ensures r.cache == s.cache
    ensures |r.table| == |s.table|
    ensures forall i :: 0 <= i < |s.table| ==> r.table[i] == s.table[i].(status := r.table[i].status)
    ensures forall k :: Find(r.table, k) == (if k == id && Find(s.table, k).Some?
                                             then Some(Find(s.table, k).value.(status := status))
                                             else Find(s.table, k))
    ensures Find(s.table, id).None? ==> r == s
  {
    SetStatusView(s.table, id, status, id);
    forall k ensures Find(SetStatus(s.table, id, status), k)
      == if k == id && Find(s.table, k).Some? then Some(Find(s.table, k).value.(status := status)) else Find(s.table, k)
    {
      SetStatusView(s.table, id, status, k);
    }
    s.(table := SetStatus(s.table, id, status))
  }

  /** Rebuilding the cache makes the state consistent. */
  lemma RefreshMakesConsistent(s: Server)
    requires UniqueIds(s.table)
    ensures Consistent(RefreshCache(s))
  {
  }

  /** Every handler keeps the table's primary key and the cache in step with the table. */
  lemma HandlersKeepConsistency(s: Server, v: Video, id: string, status: string)
    requires Consistent(s)
    ensures Consistent(AddToQueue(s, v).server)
    ensures Consistent(UpdateVideoStatus(s, id, status))
  {
    var r := AddToQueue(s, v);
    if r.body.Ok? {
      var t := r.server.table;
      assert t == s.table + [Queued(v)];
      forall i, j | 0 <= i < j < |t| ensures t[i].id != t[j].id {
        if j == |s.table| {
          assert t[i] == s.table[i];
        }
      }
      forall p ensures p in r.server.cache <==> p in PathsOf(t) {
        if p in PathsOf(s.table) {
          var i :| 0 <= i < |s.table| && s.table[i].path == p;
          assert t[i].path == p;
        }
        if p in PathsOf(t) {
          var i :| 0 <= i < |t| && t[i].path == p;
          if i < |s.table| {
            assert s.table[i].path == p;
          }
        }
      }
    }
    var u := UpdateVideoStatus(s, id, status);
    assert forall i :: 0 <= i < |s.table| ==> u.table[i].id == s.table[i].id && u.table[i].path == s.table[i].path;
    assert PathsOf(u.table) == PathsOf(s.table);
  }

  /** One node visited by the directory walk. */
  datatype Entry = Entry(path: string, isDir: bool)

  /** The walk callback of line 118: a file whose extension is ".mp4". */
  predicate IsVideoFile(e: Entry) {
    !e.isDir && Ext(e.path) == ".mp4"
  }

  /** The `.mp4` paths the walk collects, in walk order. */
  function VideoPaths(entries: seq<Entry>): (paths: seq<string>)
    ensures |paths| <= |entries|
    decreases |entries|
  {
    if |entries| == 0 then []
    else
      var last := entries[|entries| - 1];
      VideoPaths(entries[..|entries| - 1]) + (if IsVideoFile(last) then [last.path] else [])
  }

  /** A path is collected exactly when some walked file with that path ends in ".mp4". */
  lemma {:induction false} VideoPathsExactly(entries: seq<Entry>, p: string)
    ensures p in VideoPaths(entries)
      <==> exists i :: 0 <= i < |entries| && entries[i].path == p && !entries[i].isDir && EndsWith(p, ".mp4")
    decreases |entries|
  {
    if |entries| > 0 {
      var init, last := entries[..|entries| - 1], entries[|entries| - 1];
      VideoPathsExactly(init, p);
      ExtIsMp4Exactly(last.path);
      assert forall i :: 0 <= i < |init| ==> init[i] == entries[i];
      if p in VideoPaths(entries) && p !in VideoPaths(init) {
        assert entries[|entries| - 1].path == p;
      }
    }
  }

  /** The entry listed for an unprocessed file: id is the file name, size from `os.Stat`
      (0 when that fails), no parameters yet. */
  function AsUnprocessed(path: string, stat: string -> Option<int>): Video {
    Video(Base(path), path, "", "", Unprocessed, stat(path).GetOr(0))
  }

  /** The filter of lines 130-140: the paths missing from the cache, in order. */
  function Unlisted(paths: seq<string>, cache: set<string>, stat: string -> Option<int>): (r: seq<Video>)
    ensures |r| <= |paths|
    ensures forall i :: 0 <= i < |r| ==>
      r[i] == AsUnprocessed(r[i].path, stat) && r[i].path !in cache && r[i].path in paths
    decreases |paths|
  {
    if |paths| == 0 then []
    else
      var last := paths[|paths| - 1];
      Unlisted(paths[..|paths| - 1], cache, stat) + (if last in cache then [] else [AsUnprocessed(last, stat)])
  }

  /** The filter distributes over concatenation: it keeps discovery order. */
  lemma {:induction false} UnlistedAppend(a: seq<string>, b: seq<string>, cache: set<string>, stat: string -> Option<int>)
    ensures Unlisted(a + b, cache, stat) == Unlisted(a, cache, stat) + Unlisted(b, cache, stat)
    decreases |b|
  {
    if |b| == 0 {
      assert a + b == a;
    } else {
      var b' := b[..|b| - 1];
      assert (a + b)[..|a + b| - 1] == a + b';
      assert (a + b)[|a + b| - 1] == b[|b| - 1];
      UnlistedAppend(a, b', cache, stat);
    }
  }

  /** Some entry of `vs` has path `p`. */
  predicate Lists(vs: seq<Video>, p: string) {
    exists i :: 0 <= i < |vs| && vs[i].path == p
  }

  lemma ListsAppend(a: seq<Video>, b: seq<Video>, p: string)
    ensures Lists(a + b, p) <==> Lists(a, p) || Lists(b, p)
  {
    if Lists(a + b, p) {
      var i :| 0 <= i < |a + b| && (a + b)[i].path == p;
      if i >= |a| {
        assert b[i - |a|].path == p;
      }
    }
    if Lists(a, p) {
      var i :| 0 <= i < |a| && a[i].path == p;
      assert (a + b)[i].path == p;
    }
    if Lists(b, p) {
      var i :| 0 <= i < |b| && b[i].path == p;
      assert (a + b)[|a| + i].path == p;
    }
  }

  /** A path is listed exactly when it was discovered and is not cached. */
  lemma {:induction false} UnlistedExactlyUncached(paths: seq<string>, cache: set<string>, stat: string -> Option<int>, p: string)
    ensures Lists(Unlisted(paths, cache, stat), p) <==> p in paths && p !in cache
    decreases |paths|
  {
    if |paths| > 0 {
      var init, last := paths[..|paths| - 1], paths[|paths| - 1];
      UnlistedExactlyUncached(init, cache, stat, p);
      var tail := if last in cache then [] else [AsUnprocessed(last, stat)];
      ListsAppend(Unlisted(init, cache, stat), tail, p);
      if tail != [] {
        assert tail[0].path == last;
      }
      assert Lists(tail, p) <==> last !in cache && last == p;
      assert paths == init + [last];
      assert p in paths <==> p in init || p == last;
    }
  }

  /** The loop of lines 130-140. */
  method FilterUnprocessed(paths: seq<string>, cache: set<string>, stat: string -> Option<int>) returns (videos: seq<Video>)
    ensures videos == Unlisted(paths, cache, stat)
  {
    videos := [];
    var i := 0;
    while i < |paths|
      invariant 0 <= i <= |paths|
      invariant videos == Unlisted(paths[..i], cache, stat)
    {
      assert paths[..i + 1][..i] == paths[..i];
      if paths[i] !in cache {
        videos := videos + [AsUnprocessed(paths[i], stat)];
      }
      i := i + 1;
    }
    assert paths[..i] == paths;
  }

  /** `getUnprocessedVideos`: a failed walk is an error; otherwise the `.mp4` files whose path
      is not in the cache, in walk order. */
  function GetUnprocessedVideos(walk: Result<seq<Entry>, string>, cache: set<string>, stat: string -> Option<int>): (r: Result<seq<Video>, string>)
    ensures walk.Err? <==> r.Err?
    ensures r.Ok? ==> forall i :: 0 <= i < |r.value| ==>
      && r.value[i].status == Unprocessed
      && r.value[i].id == Base(r.value[i].path)
      && r.value[i].path !in cache
      && EndsWith(r.value[i].path, ".mp4")
  {
    match walk
    case Err(e) => Err(e)
    case Ok(entries) =>
      var vs := Unlisted(VideoPaths(entries), cache, stat);
      forall i | 0 <= i < |vs| ensures EndsWith(vs[i].path, ".mp4") {
        VideoPathsExactly(entries, vs[i].path);
      }
      Ok(vs)
  }

  /** With a consistent cache, a discovered video is listed exactly when no row has its path. */
  lemma ListedIffNotInTable(s: Server, entries: seq<Entry>, stat: string -> Option<int>, p: string)
    requires Consistent(s)
    ensures Lists(GetUnprocessedVideos(Ok(entries), s.cache, stat).value, p)
      <==> (p in VideoPaths(entries) && forall j :: 0 <= j < |s.table| ==> s.table[j].path != p)
  {
    UnlistedExactlyUncached(VideoPaths(entries), s.cache, stat, p);
  }
}
