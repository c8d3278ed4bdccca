/**
 Merging each collection's own best hits gives the best hits overall, and the paged scan returns
 each of the first matching points once.
 */
module RetrievalTheorems {
  import opened JsonSchema
  import opened Sorting
  import opened Retrieval

  // ------------------------------------------------------------------ top-k

  // A best-k selection: as many hits as there can be, and none left out that beats one taken.
  ghost predicate BestOf(all: multiset<Hit>, k: nat, taken: seq<Hit>) {
    && multiset(taken) <= all
    && |taken| == (if |all| <= k then |all| else k)
    && forall p, h :: p in all - multiset(taken) && h in taken ==> p.point.score <= h.point.score
  }

  function CountAtLeast(xs: seq<Hit>, s: real): nat {
    if xs == [] then 0 else (if xs[0].point.score >= s then 1 else 0) + CountAtLeast(xs[1..], s)
  }

  // Enough of a pool to select the best k from: every hit missing from it is matched or beaten by
  // k hits in it.
  ghost predicate Covers(all: multiset<Hit>, k: nat, pool: seq<Hit>) {
    && multiset(pool) <= all
    && forall p :: p in all - multiset(pool) ==> CountAtLeast(pool, p.point.score) >= k
  }

  lemma {:induction false} CountConcat(a: seq<Hit>, b: seq<Hit>, s: real)
    ensures CountAtLeast(a + b, s) == CountAtLeast(a, s) + CountAtLeast(b, s)
  {
    if a == [] {
      assert a + b == b;
    } else {
      assert (a + b)[1..] == a[1..] + b;
      CountConcat(a[1..], b, s);
    }
  }

  lemma {:induction false} CountAll(xs: seq<Hit>, s: real)
    requires forall i :: 0 <= i < |xs| ==> xs[i].point.score >= s
    ensures CountAtLeast(xs, s) == |xs|
  {
    if xs != [] { CountAll(xs[1..], s); }
  }

  lemma {:induction false} CountBound(xs: seq<Hit>, s: real)
    ensures CountAtLeast(xs, s) <= |xs|
  {
    if xs != [] { CountBound(xs[1..], s); }
  }

  lemma {:induction false} CountNone(xs: seq<Hit>, s: real)
    requires forall i :: 0 <= i < |xs| ==> xs[i].point.score < s
    ensures CountAtLeast(xs, s) == 0
  {
    if xs != [] { CountNone(xs[1..], s); }
  }

  lemma {:induction false} InsertCount(x: Hit, xs: seq<Hit>, s: real)
    ensures CountAtLeast(Insert(x, xs, HigherScore), s) == CountAtLeast(xs, s) + (if x.point.score >= s then 1 else 0)
  {
    if xs == [] {
      assert [x][1..] == [];
    } else if HigherScore(x, xs[0]) {
      assert ([x] + xs)[1..] == xs;
    } else {
      InsertCount(x, xs[1..], s);
      assert ([xs[0]] + Insert(x, xs[1..], HigherScore))[1..] == Insert(x, xs[1..], HigherScore);
    }
  }

  lemma {:induction false} SortCount(xs: seq<Hit>, s: real)
    ensures CountAtLeast(Sort(xs, HigherScore), s) == CountAtLeast(xs, s)
  {
    if xs != [] {
      SortCount(xs[1..], s);
      InsertCount(xs[0], Sort(xs[1..], HigherScore), s);
    }
  }

  lemma {:induction false} BestCovers(all: multiset<Hit>, k: nat, taken: seq<Hit>)
    requires BestOf(all, k, taken)
    ensures Covers(all, k, taken)
  {
    forall p | p in all - multiset(taken) ensures CountAtLeast(taken, p.point.score) >= k {
      assert |all - multiset(taken)| == |all| - |taken|;
      CountAll(taken, p.point.score);
    }
  }

  lemma {:induction false} CoversUnion(a: multiset<Hit>, b: multiset<Hit>, k: nat, xs: seq<Hit>, ys: seq<Hit>)
    requires Covers(a, k, xs) && Covers(b, k, ys)
    ensures Covers(a + b, k, xs + ys)
  {
    forall p | p in (a + b) - multiset(xs + ys) ensures CountAtLeast(xs + ys, p.point.score) >= k {
      assert multiset(xs + ys) == multiset(xs) + multiset(ys);
      assert p in a - multiset(xs) || p in b - multiset(ys);
      CountConcat(xs, ys, p.point.score);
    }
  }

  // In a descending list, if k elements reach a score then the first k do.
  lemma {:induction false} DescendingPrefix(xs: seq<Hit>, s: real, i: nat)
    requires SortedBy(xs, HigherScore) && i < |xs| && i < CountAtLeast(xs, s)
    ensures xs[i].point.score >= s
  {
    if xs[i].point.score < s {
      forall j | 0 <= j < |xs[i..]| ensures xs[i..][j].point.score < s {
        assert j == 0 || HigherScore(xs[i], xs[i + j]);
      }
      CountNone(xs[i..], s);
      CountBound(xs[..i], s);
      assert xs == xs[..i] + xs[i..];
      CountConcat(xs[..i], xs[i..], s);
    }
  }

  lemma ScoresAreOrdered()
    ensures TotalPreorder(HigherScore)
  {
  }

  lemma {:induction false} MissingFromPrefix(all: multiset<Hit>, a: seq<Hit>, b: seq<Hit>, p: Hit)
    requires p in all - multiset(a) && p !in b
    ensures p in all - multiset(a + b)
  {
    assert multiset(a + b) == multiset(a) + multiset(b);
    assert p !in multiset(b);
  }

  // Nothing missing from the first k of a descending covering list beats one of them.
  lemma {:induction false} PrefixDominates(all: multiset<Hit>, k: nat, taken: seq<Hit>, left: seq<Hit>, p: Hit, i: nat)
    requires Covers(all, k, taken + left) && SortedBy(taken + left, HigherScore)
    requires i < k && i < |taken| && p in all - multiset(taken)
    ensures p.point.score <= taken[i].point.score
  {
    var sorted := taken + left;
    if p in left {
      var j :| 0 <= j < |left| && left[j] == p;
      assert sorted[|taken| + j] == p && HigherScore(sorted[i], sorted[|taken| + j]);
    } else {
      MissingFromPrefix(all, taken, left, p);
      DescendingPrefix(sorted, p.point.score, i);
    }
  }

  lemma {:induction false} CoversSorted(all: multiset<Hit>, k: nat, pool: seq<Hit>)
    requires Covers(all, k, pool)
    ensures Covers(all, k, Sort(pool, HigherScore)) && SortedBy(Sort(pool, HigherScore), HigherScore)
  {
    ScoresAreOrdered();
    SortSorts(pool, HigherScore);
    forall p | p in all - multiset(pool) ensures CountAtLeast(Sort(pool, HigherScore), p.point.score) >= k {
      SortCount(pool, p.point.score);
    }
  }

  // The best k of a covering pool, sorted and cut, are the best k of everything it covers.
  lemma {:induction false} CutIsBest(all: multiset<Hit>, k: nat, pool: seq<Hit>)
    requires Covers(all, k, pool)
    ensures BestOf(all, k, Take(Sort(pool, HigherScore), k))
    ensures SortedBy(Take(Sort(pool, HigherScore), k), HigherScore)
  {
    CoversSorted(all, k, pool);
    SortedCutIsBest(all, k, Sort(pool, HigherScore));
  }

  lemma {:induction false} SortedCutIsBest(all: multiset<Hit>, k: nat, sorted: seq<Hit>)
    requires Covers(all, k, sorted) && SortedBy(sorted, HigherScore)
    ensures BestOf(all, k, Take(sorted, k)) && SortedBy(Take(sorted, k), HigherScore)
  {
    var taken := Take(sorted, k);
    var left := sorted[|taken|..];
    assert sorted == taken + left;
    CutDominates(all, k, taken, left);
    assert multiset(taken) <= all by { assert multiset(taken + left) == multiset(taken) + multiset(left); }
    PoolSize(all, k, sorted);
  }

  lemma {:induction false} CutDominates(all: multiset<Hit>, k: nat, taken: seq<Hit>, left: seq<Hit>)
    requires Covers(all, k, taken + left) && SortedBy(taken + left, HigherScore) && |taken| <= k
    ensures forall p, h :: p in all - multiset(taken) && h in taken ==> p.point.score <= h.point.score
  {
    forall p, h | p in all - multiset(taken) && h in taken ensures p.point.score <= h.point.score {
      var i :| 0 <= i < |taken| && taken[i] == h;
      PrefixDominates(all, k, taken, left, p, i);
    }
  }

  lemma {:induction false} PoolSize(all: multiset<Hit>, k: nat, pool: seq<Hit>)
    requires Covers(all, k, pool)
    ensures |pool| < k ==> |pool| == |all|
    ensures |pool| <= |all|
  {
    assert |all - multiset(pool)| == |all| - |pool|;
    if |pool| < k && |pool| != |all| {
      var p :| p in all - multiset(pool);
      CountBound(pool, p.point.score);
    }
  }

  // Everything stored in the target collections that are present.
  function Everything(targets: seq<string>, present: set<string>, stored: string -> seq<Point>): multiset<Hit> {
    if targets == [] then multiset{}
    else (if targets[0] in present then multiset(Tag(targets[0], stored(targets[0]))) else multiset{})
         + Everything(targets[1..], present, stored)
  }

  lemma {:induction false} GatherCovers(targets: seq<string>, present: set<string>, stored: string -> seq<Point>,
                                        query: string -> seq<Point>, k: nat)
    requires forall c :: c in present ==> BestOf(multiset(Tag(c, stored(c))), k, Tag(c, query(c)))
    ensures Covers(Everything(targets, present, stored), k, Gather(targets, present, query))
    decreases targets
  {
    if targets != [] {
      var c := targets[0];
      GatherCovers(targets[1..], present, stored, query, k);
      var rest, more := Everything(targets[1..], present, stored), Gather(targets[1..], present, query);
      if c in present {
        BestCovers(multiset(Tag(c, stored(c))), k, Tag(c, query(c)));
        CoversUnion(multiset(Tag(c, stored(c))), rest, k, Tag(c, query(c)), more);
      } else {
        assert multiset{} + rest == rest && [] + more == more;
      }
    }
  }

  // If each collection answers with its own best `limit`, the merged, sorted and cut result is a
  // best-`limit` selection over all points of all target collections.
  lemma {:induction false} FederatedTopK(targets: seq<string>, present: set<string>, stored: string -> seq<Point>,
                                         query: string -> seq<Point>, limit: nat)
    requires forall c :: c in present ==> BestOf(multiset(Tag(c, stored(c))), limit, Tag(c, query(c)))
    ensures var results := Search(targets, present, query, limit);
            BestOf(Everything(targets, present, stored), limit, results) && SortedBy(results, HigherScore)
  {
    GatherCovers(targets, present, stored, query, limit);
    CutIsBest(Everything(targets, present, stored), limit, Gather(targets, present, query));
  }

  // ------------------------------------------------------------------ paged scan

  lemma NewerIsOrdered()
    ensures TotalPreorder(Newer)
  {
    forall a: Hit, b: Hit ensures Newer(a, b) || Newer(b, a) { StrLeTotal(a.point.createdAt, b.point.createdAt); }
    forall a: Hit, b: Hit, c: Hit | Newer(a, b) && Newer(b, c) ensures Newer(a, c) {
      StrLeTransitive(c.point.createdAt, b.point.createdAt, a.point.createdAt);
    }
  }

  lemma {:induction false} MatchingDistinct(ps: seq<Point>, matches: Point -> bool)
    requires Distinct(ps)
    ensures Distinct(Matching(ps, matches)) && forall p :: p in Matching(ps, matches) ==> p in ps
  {
    if ps != [] {
      assert forall j :: 0 <= j < |ps[1..]| ==> ps[1..][j] == ps[j + 1];
      MatchingDistinct(ps[1..], matches);
      assert ps[0] !in ps[1..];
    }
  }

  lemma {:induction false} FlatDistinct(targets: seq<string>, present: set<string>, stored: string -> seq<Point>,
                                        matches: Point -> bool)
    requires Distinct(targets) && forall c :: c in present ==> Distinct(stored(c))
    ensures var flat := Flat(targets, present, stored, matches);
            Distinct(flat) && forall h :: h in flat ==> h.collection in targets
    decreases targets
  {
    if targets != [] {
      assert forall j :: 0 <= j < |targets[1..]| ==> targets[1..][j] == targets[j + 1];
      assert targets[0] !in targets[1..];
      FlatDistinct(targets[1..], present, stored, matches);
      if targets[0] in present {
        MatchingDistinct(stored(targets[0]), matches);
        var here := Tag(targets[0], Matching(stored(targets[0]), matches));
        assert forall h :: h in here ==> h.collection == targets[0];
      }
    }
  }

  lemma {:induction false} MatchingMembers(ps: seq<Point>, matches: Point -> bool)
    ensures forall p :: p in Matching(ps, matches) <==> p in ps && matches(p)
  {
    if ps != [] { MatchingMembers(ps[1..], matches); }
  }

  // The flat scan holds the matching points of the target collections that are present.
  lemma {:induction false} FlatMembers(targets: seq<string>, present: set<string>, stored: string -> seq<Point>,
                                       matches: Point -> bool, h: Hit)
    ensures h in Flat(targets, present, stored, matches) <==>
            h.collection in targets && h.collection in present && h.point in stored(h.collection) && matches(h.point)
    decreases targets
  {
    if targets != [] {
      var c := targets[0];
      FlatMembers(targets[1..], present, stored, matches, h);
      MatchingMembers(stored(c), matches);
      var ps := Matching(stored(c), matches);
      assert h in Tag(c, ps) <==> h.collection == c && h.point in ps by {
        if h.collection == c && h.point in ps {
          var i :| 0 <= i < |ps| && ps[i] == h.point;
          assert Tag(c, ps)[i] == h;
        }
      }
    }
  }

  // The result of the scan: the first `limit` matching points of the flat scan, newest first, and none
  // of them twice.
  lemma {:induction false} PagedScanSpec(targets: seq<string>, present: set<string>, stored: string -> seq<Point>,
                                         matches: Point -> bool, limit: nat)
    requires Distinct(targets) && forall c :: c in present ==> Distinct(stored(c))
    ensures var flat := Flat(targets, present, stored, matches);
            var results := Scan(targets, present, stored, matches, limit);
            && |results| == (if |flat| <= limit then |flat| else limit)
            && multiset(results) == multiset(flat[..|results|])
            && (forall i, j :: 0 <= i < j < |results| ==>
                  StrLe(results[j].point.createdAt, results[i].point.createdAt))
            && forall h :: multiset(results)[h] <= 1
  {
    var flat := Flat(targets, present, stored, matches);
    NewerIsOrdered();
    SortSorts(Take(flat, limit), Newer);
    FlatDistinct(targets, present, stored, matches);
    assert flat[..|flat|] == flat;
    forall h ensures multiset(Take(flat, limit))[h] <= 1 { OnceAtMost(Take(flat, limit), h); }
    var results := Sort(Take(flat, limit), Newer);
    assert forall i, j :: 0 <= i < j < |results| ==> Newer(results[i], results[j]);
  }

  lemma {:induction false} OnceAtMost(xs: seq<Hit>, h: Hit)
    requires Distinct(xs)
    ensures multiset(xs)[h] <= 1 && (multiset(xs)[h] == 1 ==> h in xs)
  {
    if xs != [] {
      assert xs == [xs[0]] + xs[1..];
      assert forall j :: 0 <= j < |xs[1..]| ==> xs[1..][j] == xs[j + 1];
      OnceAtMost(xs[1..], h);
    }
  }
}
