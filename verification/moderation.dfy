/** The moderation page (app/page.tsx): the list of unprocessed videos, the one being
    configured, and the two parameter selections. */
module Moderation {
  import opened Wrappers
  import opened Videos

  /** The tab value both selections start at and return to. */
  const Original: string := "Original"

  /** The page's state: `unprocessedVideos`, `currentVideo`, `selectedResolution`,
      `selectedBitrate`. */
  datatype Console = Console(videos: seq<Video>, current: Option<Video>, resolution: string, bitrate: string)

  /** The state on first render. */
  function Initial(): Console {
    Console([], None, Original, Original)
  }

  /** `fetchUnprocessedVideos`: on a response the list is replaced, and the first video is
      taken as current only when there is one and no video is current yet; when the fetch or
      the JSON decoding throws (`None`) nothing changes. */
  function OnFetched(c: Console, data: Option<seq<Video>>): (n: Console)
    ensures data.None? ==> n == c
    ensures data.Some? ==> n.videos == data.value
    ensures n.resolution == c.resolution && n.bitrate == c.bitrate
    ensures c.current.Some? ==> n.current == c.current
    ensures c.current.None? && data.Some? && |data.value| > 0 ==> n.current == Some(data.value[0])
    ensures c.current.None? && (data.None? || |data.value| == 0) ==> n.current.None?
  {
    match data
    case None => c
    case Some(vs) =>
      Console(vs, if |vs| > 0 && c.current.None? then Some(vs[0]) else c.current, c.resolution, c.bitrate)
  }

  /** The list without the entries whose id is `id`, in the same order. */
  function WithoutId(vs: seq<Video>, id: string): (r: seq<Video>)
    ensures |r| <= |vs|
    ensures forall i :: 0 <= i < |r| ==> r[i].id != id
    decreases |vs|
  {
    if |vs| == 0 then []
    else
      var last := vs[|vs| - 1];
      WithoutId(vs[..|vs| - 1], id) + (if last.id == id then [] else [last])
  }

  /** Removal keeps each entry with another id as often as it occurs and drops the rest. */
  lemma {:induction false} WithoutIdCount(vs: seq<Video>, id: string, v: Video)
    ensures multiset(WithoutId(vs, id))[v] == if v.id == id then 0 else multiset(vs)[v]
    decreases |vs|
  {
    if |vs| > 0 {
      assert vs == vs[..|vs| - 1] + [vs[|vs| - 1]];
      WithoutIdCount(vs[..|vs| - 1], id, v);
    }
  }

  /** Removal distributes over concatenation, so the remaining entries keep their order. */
  lemma {:induction false} WithoutIdAppend(a: seq<Video>, b: seq<Video>, id: string)
    ensures WithoutId(a + b, id) == WithoutId(a, id) + WithoutId(b, id)
    decreases |b|
  {
    if |b| == 0 {
      assert a + b == a;
    } else {
      var b' := b[..|b| - 1];
      assert (a + b)[..|a + b| - 1] == a + b';
      assert (a + b)[|a + b| - 1] == b[|b| - 1];
      WithoutIdAppend(a, b', id);
    }
  }

  /** The guard of line 60: a current video and two non-empty selections. */
  predicate CanProcess(c: Console) {
    c.current.Some? && c.resolution != "" && c.bitrate != ""
  }

  /** How the `POST` of `handleProcessVideo` ended: the promise resolved with some HTTP
      status, or it threw. */
  datatype FetchOutcome = Resolved(httpStatus: int) | Threw

  /** The body the page posted (if it posted one) and its next state. */
  datatype ProcessStep = ProcessStep(request: Option<Video>, next: Console)

  /** `handleProcessVideo`. */
  function Process(c: Console, outcome: FetchOutcome): (step: ProcessStep)
    ensures !CanProcess(c) ==> step.request.None? && step.next == c
    ensures CanProcess(c) ==> step.request.Some?
    ensures CanProcess(c) ==>
      var cur, body := c.current.value, step.request.value;
      && body.id == cur.id && body.path == cur.path && body.originalSize == cur.originalSize
      && body.resolution == c.resolution && body.bitrate == c.bitrate && body.status == Pending
    ensures outcome.Threw? ==> step.next == c
    ensures CanProcess(c) && outcome.Resolved? ==>
      && step.next.videos == WithoutId(c.videos, c.current.value.id)
      && step.next.current == (if |step.next.videos| > 0 then Some(step.next.videos[0]) else None)
      && step.next.resolution == Original && step.next.bitrate == Original
  {
    if !CanProcess(c) then ProcessStep(None, c)
    else
      var body := c.current.value.(resolution := c.resolution, bitrate := c.bitrate, status := Pending);
      match outcome
      case Threw => ProcessStep(Some(body), c)
      case Resolved(_) =>
        var rest := WithoutId(c.videos, c.current.value.id);
        ProcessStep(Some(body), Console(rest, if |rest| > 0 then Some(rest[0]) else None, Original, Original))
  }

  /** The next state does not depend on the server's answer: a rejected request (a duplicate
      id answered with 500) removes the video just like an accepted one. */
  lemma ProcessIgnoresResponseStatus(c: Console, s1: int, s2: int)
    ensures Process(c, Resolved(s1)) == Process(c, Resolved(s2))
  {
  }

  /** After processing, no entry with the processed id is left, the list shrinks by exactly
      the entries that had it, and the new current video is not the processed one. */
  lemma ProcessRemovesCurrent(c: Console, httpStatus: int)
    requires CanProcess(c)
    ensures var id, n := c.current.value.id, Process(c, Resolved(httpStatus)).next;
      && (forall i :: 0 <= i < |n.videos| ==> n.videos[i].id != id)
      && (forall v :: multiset(n.videos)[v] == if v.id == id then 0 else multiset(c.videos)[v])
      && (n.current.Some? ==> n.current.value.id != id && n.current.value in c.videos)
      && (c.current.value in c.videos ==> |n.videos| < |c.videos|)
  {
    var id, n := c.current.value.id, Process(c, Resolved(httpStatus)).next;
    forall v ensures multiset(n.videos)[v] == if v.id == id then 0 else multiset(c.videos)[v] {
      WithoutIdCount(c.videos, id, v);
    }
    if n.current.Some? {
      assert n.videos[0] in multiset(n.videos);
    }
    if c.current.value in c.videos {
      var cur := c.current.value;
      assert multiset(n.videos)[cur] == 0;
      assert multiset(n.videos) <= multiset(c.videos);
      var gone := multiset(c.videos) - multiset(n.videos);
      assert cur in gone;
      assert multiset(c.videos) == multiset(n.videos) + gone;
      assert |multiset(c.videos)| == |multiset(n.videos)| + |gone|;
    }
  }

  /** Once the list has been fetched and is non-empty, some video is current. */
  lemma FetchedListHasCurrent(c: Console, vs: seq<Video>)
    requires |vs| > 0
    ensures OnFetched(c, Some(vs)).current.Some?
    ensures c.current.None? ==> OnFetched(c, Some(vs)).current.value in vs
  {
  }
}
