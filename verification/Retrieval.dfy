/**
 libs/core/service.py: vector search over several collections (`search_rag`) and the paged scan
 of `get_knowledge_points`.

 The vector store is an arbitrary input: `query(c)` is the ranked answer for collection c, and
 `scroll(c, offset)` one page with the offset of the next.  Payloads do not use the result keys
 "id", "collection" and "score".
 */
module Retrieval {
  import opened Wrappers
  import opened Sorting

  datatype Point = Point(id: int, score: real, createdAt: string, source: string)
  datatype Hit = Hit(collection: string, point: Point)

  function Tag(c: string, ps: seq<Point>): seq<Hit> {
    seq(|ps|, i requires 0 <= i < |ps| => Hit(c, ps[i]))
  }

  function Take<T>(xs: seq<T>, n: int): seq<T> {
    if n <= 0 then [] else if n <= |xs| then xs[..n] else xs
  }

  // ------------------------------------------------------------------ vector search

  predicate HigherScore(a: Hit, b: Hit) {
    a.point.score >= b.point.score
  }

  function Gather(targets: seq<string>, present: set<string>, query: string -> seq<Point>): seq<Hit> {
    if targets == [] then []
    else
      var here := if targets[0] in present then Tag(targets[0], query(targets[0])) else [];
      here + Gather(targets[1..], present, query)
  }

  lemma {:induction false} GatherStep(targets: seq<string>, n: nat, present: set<string>, query: string -> seq<Point>,
                                      before: seq<Hit>)
    requires n < |targets|
    ensures before + Gather(targets[n..], present, query) ==
            (if targets[n] in present then before + Tag(targets[n], query(targets[n])) else before)
            + Gather(targets[n + 1..], present, query)
  {
    assert targets[n..][0] == targets[n] && targets[n..][1..] == targets[n + 1..];
    var here := if targets[n] in present then Tag(targets[n], query(targets[n])) else [];
    Reassociate(before, here, Gather(targets[n + 1..], present, query));
    assert before + [] == before;
  }

  // The answers of all collections merged, the best first.
  function Search(targets: seq<string>, present: set<string>, query: string -> seq<Point>, limit: nat): seq<Hit> {
    Take(Sort(Gather(targets, present, query), HigherScore), limit)
  }

  method AppendHits(before: seq<Hit>, c: string, hits: seq<Point>) returns (results: seq<Hit>)
    ensures results == before + Tag(c, hits)
  {
    results := before;
    for i := 0 to |hits|
      invariant results == before + Tag(c, hits)[..i]
    {
      results := results + [Hit(c, hits[i])];
    }
    assert Tag(c, hits)[..|hits|] == Tag(c, hits);
  }

  method SearchVector(targets: seq<string>, present: set<string>, query: string -> seq<Point>, limit: nat)
    returns (results: seq<Hit>)
    ensures results == Search(targets, present, query, limit)
  {
    results := [];
    for n := 0 to |targets|
      invariant results + Gather(targets[n..], present, query) == Gather(targets, present, query)
    {
      var c := targets[n];
      GatherStep(targets, n, present, query, results);
      if c in present { results := AppendHits(results, c, query(c)); }
    }
    assert targets[|targets|..] == [] && results == Gather(targets, present, query);
    results := Take(Sort(results, HigherScore), limit);
  }

  // ------------------------------------------------------------------ paged scan

  type Pager = (string, Option<nat>) -> (seq<Point>, Option<nat>)

  // A pager over `stored`: each page is a stretch of it, a next offset means there is more and the
  // page was not empty, and no next offset means it was read to the end.
  ghost predicate PagesOf(page: (seq<Point>, Option<nat>), from: nat, stored: seq<Point>)
    requires from <= |stored|
  {
    && from + |page.0| <= |stored|
    && page.0 == stored[from..from + |page.0|]
    && (match page.1
        case None => from + |page.0| == |stored|
        case Some(next) => page.0 != [] && next == from + |page.0| < |stored|)
  }

  ghost predicate Pages(scroll: Pager, c: string, stored: seq<Point>) {
    && PagesOf(scroll(c, None), 0, stored)
    && forall from: nat :: from < |stored| ==> PagesOf(scroll(c, Some(from)), from, stored)
  }

  function Matching(ps: seq<Point>, matches: Point -> bool): seq<Point> {
    if ps == [] then [] else (if matches(ps[0]) then [ps[0]] else []) + Matching(ps[1..], matches)
  }

  // The flat scan: all matching points, collection by collection, in scroll order.
  function Flat(targets: seq<string>, present: set<string>, stored: string -> seq<Point>,
                matches: Point -> bool): seq<Hit>
    decreases targets
  {
    if targets == [] then []
    else (if targets[0] in present then Tag(targets[0], Matching(stored(targets[0]), matches)) else [])
         + Flat(targets[1..], present, stored, matches)
  }

  predicate Newer(a: Hit, b: Hit) {
    StrLe(b.point.createdAt, a.point.createdAt)
  }

  // Its beginning, newest first.
  function Scan(targets: seq<string>, present: set<string>, stored: string -> seq<Point>, matches: Point -> bool,
                limit: int): seq<Hit> {
    Sort(Take(Flat(targets, present, stored, matches), limit), Newer)
  }

  lemma {:induction false} MatchingConcat(a: seq<Point>, b: seq<Point>, matches: Point -> bool)
    ensures Matching(a + b, matches) == Matching(a, matches) + Matching(b, matches)
  {
    if a == [] {
      assert a + b == b;
    } else {
      var head := if matches(a[0]) then [a[0]] else [];
      assert (a + b)[0] == a[0] && (a + b)[1..] == a[1..] + b;
      MatchingConcat(a[1..], b, matches);
      Reassociate(head, Matching(a[1..], matches), Matching(b, matches));
    }
  }

  lemma TagConcat(c: string, a: seq<Point>, b: seq<Point>)
    ensures Tag(c, a + b) == Tag(c, a) + Tag(c, b)
  {
  }

  // What has been collected after i points of a page.
  function Collected(before: seq<Hit>, c: string, points: seq<Point>, matches: Point -> bool): seq<Hit> {
    before + Tag(c, Matching(points, matches))
  }

  lemma CollectMore(before: seq<Hit>, c: string, a: seq<Point>, b: seq<Point>, matches: Point -> bool)
    ensures Collected(before, c, a + b, matches) == Collected(before, c, a, matches) + Tag(c, Matching(b, matches))
  {
    MatchingConcat(a, b, matches);
    TagConcat(c, Matching(a, matches), Matching(b, matches));
    Reassociate(before, Tag(c, Matching(a, matches)), Tag(c, Matching(b, matches)));
  }

  lemma {:induction false} CollectOne(before: seq<Hit>, c: string, points: seq<Point>, i: nat, matches: Point -> bool)
    requires i < |points|
    ensures Collected(before, c, points[..i + 1], matches)
         == Collected(before, c, points[..i], matches) + (if matches(points[i]) then [Hit(c, points[i])] else [])
  {
    assert points[..i + 1] == points[..i] + [points[i]];
    CollectMore(before, c, points[..i], [points[i]], matches);
    assert [points[i]][1..] == [];
  }

  lemma {:induction false} CollectEnough(before: seq<Hit>, c: string, points: seq<Point>, i: nat,
                                         matches: Point -> bool)
    requires i <= |points|
    ensures Collected(before, c, points[..i], matches)
         == Take(Collected(before, c, points, matches), |Collected(before, c, points[..i], matches)|)
  {
    assert points == points[..i] + points[i..];
    CollectMore(before, c, points[..i], points[i..], matches);
  }

  // Appending the matching points of one page until the limit is reached.
  method ScanPage(before: seq<Hit>, c: string, points: seq<Point>, matches: Point -> bool, limit: int)
    returns (results: seq<Hit>)
    requires |before| < limit
    ensures results == Take(Collected(before, c, points, matches), limit)
  {
    results := before;
    for i := 0 to |points|
      invariant |results| < limit
      invariant results == Collected(before, c, points[..i], matches)
    {
      CollectOne(before, c, points, i, matches);
      if matches(points[i]) {
        results := results + [Hit(c, points[i])];
        if |results| >= limit {
          CollectEnough(before, c, points, i + 1, matches);
          return;
        }
      }
    }
    assert points[..|points|] == points;
  }

  lemma TakeTake<T>(a: seq<T>, b: seq<T>, n: int)
    ensures Take(Take(a, n) + b, n) == Take(a + b, n)
  {
  }

  // The results of the pages so far, extended by one page.
  lemma {:induction false} CollectPage(before: seq<Hit>, c: string, stored: seq<Point>, from: nat, points: seq<Point>,
                                       matches: Point -> bool, limit: int)
    requires from + |points| <= |stored| && points == stored[from..from + |points|]
    ensures Take(Collected(Take(Collected(before, c, stored[..from], matches), limit), c, points, matches), limit)
         == Take(Collected(before, c, stored[..from + |points|], matches), limit)
  {
    assert stored[..from + |points|] == stored[..from] + points;
    CollectMore(before, c, stored[..from], points, matches);
    TakeTake(Collected(before, c, stored[..from], matches), Tag(c, Matching(points, matches)), limit);
  }

  method ScanCollection(before: seq<Hit>, c: string, scroll: Pager, ghost stored: seq<Point>, matches: Point -> bool,
                        limit: int)
    returns (results: seq<Hit>)
    requires Pages(scroll, c, stored) && |before| <= limit
    ensures results == Take(Collected(before, c, stored, matches), limit)
  {
    results := before;
    var offset: Option<nat> := None;
    ghost var from := 0;
    while |results| < limit
      invariant 0 <= from <= |stored| && |results| <= limit
      invariant offset == (if from == 0 then None else Some(from)) && (from > 0 ==> from < |stored|)
      invariant results == Take(Collected(before, c, stored[..from], matches), limit)
      decreases |stored| - from
    {
      var (points, next) := scroll(c, offset);
      CollectPage(before, c, stored, from, points, matches, limit);
      results := ScanPage(results, c, points, matches, limit);
      from := from + |points|;
      offset := next;
      if offset.None? || points == [] {
        assert stored[..from] == stored;
        return;
      }
    }
    CollectEnough(before, c, stored, from, matches);
  }

  method GetKnowledgePoints(targets: seq<string>, present: set<string>, scroll: Pager,
                            ghost stored: string -> seq<Point>, matches: Point -> bool, limit: int)
    returns (results: seq<Hit>)
    requires forall c :: c in present ==> Pages(scroll, c, stored(c))
    ensures results == Scan(targets, present, stored, matches, limit)
  {
    results := [];
    ghost var all := Flat(targets, present, stored, matches);
    ghost var seen: seq<Hit> := [];
    for n := 0 to |targets|
      invariant seen + Flat(targets[n..], present, stored, matches) == all
      invariant results == Take(seen, limit)
    {
      assert targets[n..][1..] == targets[n + 1..];
      var c := targets[n];
      if c in present {
        ghost var here := Tag(c, Matching(stored(c), matches));
        if |results| < limit {
          TakeTake(seen, here, limit);
          results := ScanCollection(results, c, scroll, stored(c), matches, limit);
        }
        seen := seen + here;
      }
    }
    assert targets[|targets|..] == [] && seen == all;
    results := Sort(results, Newer);
  }
}
