/** End-to-end steps: the moderation page posting to the backend, and what the lists show
    afterwards. */
module Flows {
  import opened Wrappers
  import opened Videos
  import opened GoPath
  import opened QueueQuery
  import opened Store
  import opened Moderation

  /** Processing a video the table does not hold yet queues it with the chosen parameters,
      keeps the backend consistent, takes its path off the unprocessed list and adds one row
      to the pending count. */
  lemma ProcessedVideoIsQueued(s: Server, c: Console, httpStatus: int, entries: seq<Entry>, stat: string -> Option<int>)
    requires Consistent(s) && CanProcess(c)
    requires Find(s.table, c.current.value.id).None?
    ensures var cur := c.current.value;
      var r := AddToQueue(s, Process(c, Resolved(httpStatus)).request.value);
      && r.body.Ok?
      && Find(r.server.table, cur.id) == Some(cur.(resolution := c.resolution, bitrate := c.bitrate, status := Pending))
      && Consistent(r.server)
      && !Lists(GetUnprocessedVideos(Ok(entries), r.server.cache, stat).value, cur.path)
      && |WithStatus(r.server.table, Pending)| == |WithStatus(s.table, Pending)| + 1
  {
    var cur := c.current.value;
    var body := Process(c, Resolved(httpStatus)).request.value;
    assert body == cur.(resolution := c.resolution, bitrate := c.bitrate, status := Pending);
    var r := AddToQueue(s, body);
    HandlersKeepConsistency(s, body, "", "");
    UnlistedExactlyUncached(VideoPaths(entries), r.server.cache, stat, cur.path);
    assert r.server.table == s.table + [Queued(body)];
    WithStatusAppend(s.table, [Queued(body)], Pending);
    assert [Queued(body)][..0] == [];
  }

  /** A video whose id is already in the table is rejected and nothing changes on the
      backend, yet the page drops it all the same; if its path was not cached it is listed
      again on the next load. */
  lemma RejectedVideoIsDroppedAnyway(s: Server, c: Console, httpStatus: int, entries: seq<Entry>, stat: string -> Option<int>)
    requires CanProcess(c)
    requires Find(s.table, c.current.value.id).Some?
    ensures var cur := c.current.value;
      var step := Process(c, Resolved(httpStatus));
      var r := AddToQueue(s, step.request.value);
      && r.body == Err(DuplicateKey) && r.server == s
      && (forall i :: 0 <= i < |step.next.videos| ==> step.next.videos[i].id != cur.id)
      && (cur.path in VideoPaths(entries) && cur.path !in s.cache ==>
            Lists(GetUnprocessedVideos(Ok(entries), r.server.cache, stat).value, cur.path))
  {
    var cur := c.current.value;
    UnlistedExactlyUncached(VideoPaths(entries), s.cache, stat, cur.path);
  }

  /** Two files with the same name in different directories get the same id. Queueing the
      first removes both from the page, the second is then refused as a duplicate key, and
      its path stays out of the cache, so it comes back on every load and can never be
      queued. */
  lemma SharedFileNameBlocksSecondVideo(
    s: Server, dir1: string, dir2: string, name: string, stat: string -> Option<int>,
    resolution: string, bitrate: string, httpStatus: int)
    requires |name| > 0 && Separator !in name && dir1 != dir2
    requires resolution != "" && bitrate != ""
    requires Find(s.table, name).None?
    requires dir2 + [Separator] + name !in s.cache
    ensures var v1, v2 := AsUnprocessed(dir1 + [Separator] + name, stat), AsUnprocessed(dir2 + [Separator] + name, stat);
      var step := Process(Console([v1, v2], Some(v1), resolution, bitrate), Resolved(httpStatus));
      var first := AddToQueue(s, step.request.value);
      var second := AddToQueue(first.server, v2.(resolution := resolution, bitrate := bitrate, status := Pending));
      && v1.id == name && v2.id == name && v1.path != v2.path
      && step.next.videos == []
      && first.body.Ok?
      && second.body == Err(DuplicateKey)
      && v2.path !in second.server.cache
  {
    var p1, p2 := dir1 + [Separator] + name, dir2 + [Separator] + name;
    SameNameSameId(dir1, dir2, name, stat);
    var v1, v2 := AsUnprocessed(p1, stat), AsUnprocessed(p2, stat);
    DropsBoth(v1, v2, resolution, bitrate, httpStatus);
    var step := Process(Console([v1, v2], Some(v1), resolution, bitrate), Resolved(httpStatus));
    var b2 := v2.(resolution := resolution, bitrate := bitrate, status := Pending);
    assert step.request.value.id == name && step.request.value.path == p1;
    SecondIsRefused(s, step.request.value, b2);
  }

  lemma SameNameSameId(dir1: string, dir2: string, name: string, stat: string -> Option<int>)
    requires |name| > 0 && Separator !in name && dir1 != dir2
    ensures var p1, p2 := dir1 + [Separator] + name, dir2 + [Separator] + name;
      AsUnprocessed(p1, stat).id == name && AsUnprocessed(p2, stat).id == name && p1 != p2
  {
    var p1, p2 := dir1 + [Separator] + name, dir2 + [Separator] + name;
    BaseOfFileName(dir1, name);
    BaseOfFileName(dir2, name);
    JoinIsInjective(dir1, dir2, name);
  }

  lemma JoinIsInjective(dir1: string, dir2: string, name: string)
    ensures dir1 != dir2 ==> dir1 + [Separator] + name != dir2 + [Separator] + name
  {
    var p1, p2 := dir1 + [Separator] + name, dir2 + [Separator] + name;
    if |dir1| == |dir2| && dir1 != dir2 {
      var k :| 0 <= k < |dir1| && dir1[k] != dir2[k];
      assert p1[k] == dir1[k] && p2[k] == dir2[k];
    }
  }

  lemma DropsBoth(v1: Video, v2: Video, resolution: string, bitrate: string, httpStatus: int)
    requires v1.id == v2.id && resolution != "" && bitrate != ""
    ensures Process(Console([v1, v2], Some(v1), resolution, bitrate), Resolved(httpStatus)).next.videos == []
  {
    assert [v1, v2][..1] == [v1];
    assert [v1][..0] == [];
    assert WithoutId([v1], v1.id) == [];
    assert WithoutId([v1, v2], v1.id) == WithoutId([v1], v1.id);
  }

  lemma SecondIsRefused(s: Server, b1: Video, b2: Video)
    requires b1.id == b2.id && Find(s.table, b1.id).None?
    requires b2.path !in s.cache && b2.path != b1.path
    ensures AddToQueue(s, b1).body.Ok?
    ensures AddToQueue(AddToQueue(s, b1).server, b2).body == Err(DuplicateKey)
    ensures b2.path !in AddToQueue(AddToQueue(s, b1).server, b2).server.cache
  {
    var first := AddToQueue(s, b1);
    assert Find(first.server.table, b1.id).Some?;
  }
}
