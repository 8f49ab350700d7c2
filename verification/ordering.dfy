/** The row order of the queue query (backend/main.go:189-193): status rank, then path.
    Rows that agree on both are further ordered by id, so that the order is total on the
    rows of a table and the sorted result is unique. */
module Ordering {
  import opened Videos
  import opened Collation

  predicate PathBefore(a: string, b: string) {
    StrLe(a, b) && a != b
  }

  /** `a` may come before `b`: lower rank, or the same rank and an earlier path, or the same
      rank and path and a no later id. */
  predicate KeyLe(a: Video, b: Video) {
    Rank(a.status) < Rank(b.status)
    || (Rank(a.status) == Rank(b.status)
        && (PathBefore(a.path, b.path) || (a.path == b.path && StrLe(a.id, b.id))))
  }

  lemma KeyLeReflexive(a: Video)
    ensures KeyLe(a, a)
  {
    StrLeReflexive(a.id);
  }

  lemma KeyLeTotal(a: Video, b: Video)
    ensures KeyLe(a, b) || KeyLe(b, a)
  {
    StrLeTotal(a.path, b.path);
    StrLeTotal(a.id, b.id);
  }

  lemma KeyLeTransitive(a: Video, b: Video, c: Video)
    requires KeyLe(a, b) && KeyLe(b, c)
    ensures KeyLe(a, c)
  {
    if Rank(a.status) == Rank(b.status) == Rank(c.status) {
      if PathBefore(a.path, b.path) && PathBefore(b.path, c.path) {
        StrLeTransitive(a.path, b.path, c.path);
        if a.path == c.path {
          StrLeAntisymmetric(a.path, b.path);
        }
      } else if a.path == b.path && b.path == c.path {
        StrLeTransitive(a.id, b.id, c.id);
      }
    }
  }

  /** Two rows that each may precede the other have the same sort key, id included. */
  lemma KeyLeAntisymmetric(a: Video, b: Video)
    requires KeyLe(a, b) && KeyLe(b, a)
    ensures Rank(a.status) == Rank(b.status) && a.path == b.path && a.id == b.id
  {
    if a.path != b.path {
      StrLeAntisymmetric(a.path, b.path);
    }
    StrLeAntisymmetric(a.id, b.id);
  }

  /** The query's `ORDER BY` holds of every pair of positions. */
  ghost predicate Sorted(s: seq<Video>) {
    forall i, j :: 0 <= i < j < |s| ==> KeyLe(s[i], s[j])
  }

  /** Every row of a collection that shares an id with another is that same row. */
  ghost predicate SameIdSameRow(m: multiset<Video>) {
    forall v, w :: v in m && w in m && v.id == w.id ==> v == w
  }

  lemma LowerBoundOfInsert(a: Video, s: seq<Video>, x: Video, t: seq<Video>)
    requires forall k :: 0 <= k < |s| ==> KeyLe(a, s[k])
    requires KeyLe(a, x)
    requires multiset(t) == multiset(s) + multiset{x}
    ensures forall j :: 0 <= j < |t| ==> KeyLe(a, t[j])
  {
    forall j | 0 <= j < |t| ensures KeyLe(a, t[j]) {
      assert t[j] in multiset(t);
      if t[j] != x {
        assert t[j] in multiset(s);
        var k :| 0 <= k < |s| && s[k] == t[j];
      }
    }
  }

  /** A row that may precede every row of a sorted sequence can head it. */
  lemma SortedCons(a: Video, s: seq<Video>)
    requires Sorted(s)
    requires forall k :: 0 <= k < |s| ==> KeyLe(a, s[k])
    ensures Sorted([a] + s)
  {
    var r := [a] + s;
    forall i, j | 0 <= i < j < |r| ensures KeyLe(r[i], r[j]) {
      if i == 0 {
        assert r[j] == s[j - 1];
      } else {
        assert r[i] == s[i - 1] && r[j] == s[j - 1];
      }
    }
  }

  lemma SortedTail(s: seq<Video>)
    requires Sorted(s) && |s| > 0
    ensures Sorted(s[1..])
  {
    forall i, j | 0 <= i < j < |s[1..]| ensures KeyLe(s[1..][i], s[1..][j]) {
      assert s[1..][i] == s[i + 1] && s[1..][j] == s[j + 1];
    }
  }

  lemma HeadIsLowerBound(x: Video, s: seq<Video>)
    requires Sorted(s) && |s| > 0
    requires KeyLe(x, s[0])
    ensures forall k :: 0 <= k < |s| ==> KeyLe(x, s[k])
  {
    forall k | 0 < k < |s| ensures KeyLe(x, s[k]) {
      assert KeyLe(s[0], s[k]);
      KeyLeTransitive(x, s[0], s[k]);
    }
  }

  /** One insertion step: `x` goes before the first row it may precede. */
  function Insert(x: Video, s: seq<Video>): (r: seq<Video>)
    requires Sorted(s)
    ensures |r| == |s| + 1
    ensures Sorted(r)
    ensures multiset(r) == multiset(s) + multiset{x}
    decreases |s|
  {
    if |s| == 0 then [x]
    else if KeyLe(x, s[0]) then
      HeadIsLowerBound(x, s);
      SortedCons(x, s);
      [x] + s
    else
      SortedTail(s);
      var rest := Insert(x, s[1..]);
      KeyLeTotal(x, s[0]);
      assert forall k :: 0 <= k < |s[1..]| ==> KeyLe(s[0], s[1..][k]) by {
        forall k | 0 <= k < |s[1..]| ensures KeyLe(s[0], s[1..][k]) {
          assert s[1..][k] == s[k + 1];
        }
      }
      LowerBoundOfInsert(s[0], s[1..], x, rest);
      SortedCons(s[0], rest);
      assert s == [s[0]] + s[1..];
      [s[0]] + rest
  }

  /** The rows in query order, by insertion sort. */
  function Sort(s: seq<Video>): (r: seq<Video>)
    ensures |r| == |s|
    ensures Sorted(r)
    ensures multiset(r) == multiset(s)
    decreases |s|
  {
    if |s| == 0 then []
    else
      assert s == s[..|s| - 1] + [s[|s| - 1]];
      Insert(s[|s| - 1], Sort(s[..|s| - 1]))
  }

  lemma SortedHeadsAgree(a: seq<Video>, b: seq<Video>)
    requires Sorted(a) && Sorted(b)
    requires |a| > 0 && multiset(a) == multiset(b)
    requires SameIdSameRow(multiset(a))
    ensures |b| > 0 && a[0] == b[0]
  {
    assert |multiset(b)| == |multiset(a)| == |a|;
    assert a[0] in multiset(b);
    var m :| 0 <= m < |b| && b[m] == a[0];
    assert b[0] in multiset(a);
    var k :| 0 <= k < |a| && a[k] == b[0];
    if m != 0 && k != 0 {
      assert KeyLe(b[0], b[m]);
      assert KeyLe(a[0], a[k]);
      KeyLeAntisymmetric(a[0], b[0]);
    }
  }

  lemma TailsAgree(a: seq<Video>, b: seq<Video>)
    requires |a| > 0 && |b| > 0 && a[0] == b[0]
    requires multiset(a) == multiset(b)
    requires SameIdSameRow(multiset(a))
    ensures multiset(a[1..]) == multiset(b[1..])
    ensures SameIdSameRow(multiset(a[1..]))
  {
    assert a == [a[0]] + a[1..];
    assert b == [b[0]] + b[1..];
    assert multiset(a[1..]) <= multiset(a);
  }

  /** Sorting by the full key leaves no choice: two sorted arrangements of the same rows,
      in which an id picks out one row, are equal. */
  lemma {:induction false} SortedArrangementIsUnique(a: seq<Video>, b: seq<Video>)
    requires Sorted(a) && Sorted(b)
    requires multiset(a) == multiset(b)
    requires SameIdSameRow(multiset(a))
    ensures a == b
    decreases |a|
  {
    if |a| == 0 {
      assert |multiset(b)| == 0;
    } else {
      SortedHeadsAgree(a, b);
      TailsAgree(a, b);
      SortedTail(a);
      SortedTail(b);
      SortedArrangementIsUnique(a[1..], b[1..]);
    }
  }

  /** The query's result order depends only on which rows there are, not on the order the
      table holds them in. */
  lemma SortDependsOnlyOnRows(s: seq<Video>, t: seq<Video>)
    requires multiset(s) == multiset(t)
    requires SameIdSameRow(multiset(s))
    ensures Sort(s) == Sort(t)
  {
    SortedArrangementIsUnique(Sort(s), Sort(t));
  }

  /** A sorted sequence is ordered by status rank and, within a rank, by path. */
  lemma SortedByRankThenPath(s: seq<Video>, i: int, j: int)
    requires Sorted(s)
    requires 0 <= i < j < |s|
    ensures Rank(s[i].status) <= Rank(s[j].status)
    ensures Rank(s[i].status) == Rank(s[j].status) ==> StrLe(s[i].path, s[j].path)
  {
    assert KeyLe(s[i], s[j]);
    StrLeReflexive(s[i].path);
  }
}
