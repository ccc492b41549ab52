/** Conditional pattern bases: what walking a header chain collects, the local weights of the items in
    it, and its paths cut to the items that reach the threshold. */
module PatternBases {
  import opened Huim
  import opened TwuFilter
  import opened WeightedPaths
  import opened PrefixTrees
  import opened ConditionalTrees

  ghost predicate MatchIn(paths: Paths, lo: nat, hi: nat, a: ItemId, Y: ItemSet)
    requires hi <= |paths|
  {
    exists i :: lo <= i < hi && NodeMatches(paths[i], a, Y)
  }

  /** The path of some node of a, without a. */
  ghost predicate AboveNode(paths: Paths, a: ItemId, path: seq<ItemId>) {
    exists i :: 0 <= i < |paths| && EndsIn(paths[i], a) && path == paths[i][..|paths[i]| - 1]
  }

  ghost function RangeSum(paths: Paths, weights: seq<int>, lo: nat, hi: nat, a: ItemId, Y: ItemSet): int
    requires lo <= |paths| && hi <= |paths| == |weights|
  {
    NodeSum(paths, weights, hi, a, Y) - NodeSum(paths, weights, lo, a, Y)
  }

  /** cpb was collected from the nodes of a at positions lo .. hi - 1. */
  ghost predicate Gathered(paths: Paths, weights: seq<int>, a: ItemId, lo: nat, hi: nat, cpb: seq<Cond>) {
    && lo <= hi <= |paths| == |weights|
    && Weighted(cpb) && Total(cpb, {}) <= RangeSum(paths, weights, lo, hi, a, {})
    && (forall Y: ItemSet | Y != {} :: Total(cpb, Y) == RangeSum(paths, weights, lo, hi, a, Y))
    && (forall Y: ItemSet | Y != {} :: Occurs(cpb, Y) <==> MatchIn(paths, lo, hi, a, Y))
    && (forall k | 0 <= k < |cpb| :: AboveNode(paths, a, cpb[k].path))
    && |cpb| <= RangeSum(paths, Ones(|paths|), lo, hi, a, {})
  }

  lemma GatherStart(paths: Paths, weights: seq<int>, a: ItemId, at: nat)
    requires at <= |paths| == |weights|
    ensures Gathered(paths, weights, a, at, at, [])
  {
  }

  lemma {:induction false} SumGap(paths: Paths, weights: seq<int>, a: ItemId, Y: ItemSet, n: nat, m: nat)
    requires n <= m <= |paths| == |weights| && forall j | n <= j < m :: !EndsIn(paths[j], a)
    ensures NodeSum(paths, weights, m, a, Y) == NodeSum(paths, weights, n, a, Y)
  {
    if n < m { SumGap(paths, weights, a, Y, n, m - 1); }
  }

  /** Positions without a node of a add nothing. */
  lemma GatherGap(paths: Paths, weights: seq<int>, a: ItemId, lo: nat, hi: nat, cpb: seq<Cond>, lo': nat, hi': nat)
    requires Gathered(paths, weights, a, lo, hi, cpb) && lo' <= lo && hi <= hi' <= |paths|
    requires forall j | lo' <= j < lo || hi <= j < hi' :: !EndsIn(paths[j], a)
    ensures Gathered(paths, weights, a, lo', hi', cpb)
    ensures RangeSum(paths, weights, lo', hi', a, {}) == RangeSum(paths, weights, lo, hi, a, {})
  {
    hide NodeSum, Total, Occurs;
    SumGap(paths, weights, a, {}, lo', lo);
    SumGap(paths, weights, a, {}, hi, hi');
    SumGap(paths, Ones(|paths|), a, {}, lo', lo);
    SumGap(paths, Ones(|paths|), a, {}, hi, hi');
    forall Y: ItemSet | Y != {}
      ensures RangeSum(paths, weights, lo', hi', a, Y) == RangeSum(paths, weights, lo, hi, a, Y)
      ensures MatchIn(paths, lo', hi', a, Y) <==> MatchIn(paths, lo, hi, a, Y)
    {
      SumGap(paths, weights, a, Y, lo', lo);
      SumGap(paths, weights, a, Y, hi, hi');
      if MatchIn(paths, lo', hi', a, Y) {
        var i :| lo' <= i < hi' && NodeMatches(paths[i], a, Y);
        assert EndsIn(paths[i], a);
        assert lo <= i < hi;
      }
      if MatchIn(paths, lo, hi, a, Y) {
        var i :| lo <= i < hi && NodeMatches(paths[i], a, Y);
        assert lo' <= i < hi';
      }
    }
  }

  /** The path of one more node, unless it is empty. */
  ghost function WithNode(paths: Paths, weights: seq<int>, k: nat, cpb: seq<Cond>): seq<Cond>
    requires k < |paths| == |weights| && paths[k] != []
  {
    var path := paths[k][..|paths[k]| - 1];
    if path == [] then cpb else cpb + [Cond(path, weights[k])]
  }

  lemma WithNodeTotals(paths: Paths, weights: seq<int>, a: ItemId, k: nat, cpb: seq<Cond>, Y: ItemSet)
    requires k < |paths| == |weights| && EndsIn(paths[k], a) && weights[k] >= 0
    ensures Y != {} ==>
              Total(WithNode(paths, weights, k, cpb), Y) == Total(cpb, Y) + (if NodeMatches(paths[k], a, Y) then weights[k] else 0)
    ensures Y != {} ==> (Occurs(WithNode(paths, weights, k, cpb), Y) <==> Occurs(cpb, Y) || NodeMatches(paths[k], a, Y))
    ensures Total(WithNode(paths, weights, k, cpb), {}) <= Total(cpb, {}) + weights[k]
  {
    hide Total, Occurs;
    var path := paths[k][..|paths[k]| - 1];
    CondSnoc(cpb, Cond(path, weights[k]), Y);
    CondSnoc(cpb, Cond(path, weights[k]), {});
    if path == [] && Y != {} {
      var y :| y in Y;
      assert y !in Elems(path);
    }
  }

  lemma RangeStep(paths: Paths, weights: seq<int>, a: ItemId, lo: nat, hi: nat, k: nat, Y: ItemSet)
    requires lo <= hi <= |paths| == |weights| && k < |paths| && (k == hi || k + 1 == lo)
    ensures var lo', hi' := if k == hi then lo else k, if k == hi then k + 1 else hi;
            && RangeSum(paths, weights, lo', hi', a, Y) ==
               RangeSum(paths, weights, lo, hi, a, Y) + (if NodeMatches(paths[k], a, Y) then weights[k] else 0)
            && (MatchIn(paths, lo', hi', a, Y) <==> MatchIn(paths, lo, hi, a, Y) || NodeMatches(paths[k], a, Y))
  {
    hide NodeMatches;
    var lo', hi' := if k == hi then lo else k, if k == hi then k + 1 else hi;
    if MatchIn(paths, lo', hi', a, Y) {
      var i :| lo' <= i < hi' && NodeMatches(paths[i], a, Y);
      if i != k { assert lo <= i < hi; }
    }
    if MatchIn(paths, lo, hi, a, Y) {
      var i :| lo <= i < hi && NodeMatches(paths[i], a, Y);
      assert lo' <= i < hi';
    }
    if NodeMatches(paths[k], a, Y) { assert lo' <= k < hi'; }
  }

  /** One more node of a, at either end of the range. */
  lemma GatherNode(paths: Paths, weights: seq<int>, a: ItemId, lo: nat, hi: nat, cpb: seq<Cond>, k: nat)
    requires Gathered(paths, weights, a, lo, hi, cpb) && k < |paths| && (k == hi || k + 1 == lo)
    requires EndsIn(paths[k], a) && weights[k] >= 0 && Distinct(paths[k])
    ensures var lo', hi' := if k == hi then lo else k, if k == hi then k + 1 else hi;
            && Gathered(paths, weights, a, lo', hi', WithNode(paths, weights, k, cpb))
            && RangeSum(paths, weights, lo', hi', a, {}) == RangeSum(paths, weights, lo, hi, a, {}) + weights[k]
  {
    hide Total, Occurs, RangeSum, MatchIn;
    var lo', hi' := if k == hi then lo else k, if k == hi then k + 1 else hi;
    var more := WithNode(paths, weights, k, cpb);
    WithNodeTotals(paths, weights, a, k, cpb, {});
    RangeStep(paths, weights, a, lo, hi, k, {});
    RangeStep(paths, Ones(|paths|), a, lo, hi, k, {});
    assert NodeMatches(paths[k], a, {});
    forall Y: ItemSet | Y != {}
      ensures Total(more, Y) == RangeSum(paths, weights, lo', hi', a, Y)
      ensures Occurs(more, Y) <==> MatchIn(paths, lo', hi', a, Y)
    {
      WithNodeTotals(paths, weights, a, k, cpb, Y);
      RangeStep(paths, weights, a, lo, hi, k, Y);
    }
    forall i | 0 <= i < |more| ensures AboveNode(paths, a, more[i].path) && more[i].w >= 0 && Distinct(more[i].path) {
      if i < |cpb| { assert more[i] == cpb[i]; }
    }
  }

  /** Nodes of a tree: weights are never negative and no path repeats an item. */
  lemma TrieNode(paths: Paths, weights: seq<int>, L: seq<WPath>, k: nat)
    requires TrieOf(paths, weights, L) && 0 < k < |paths|
    ensures weights[k] >= 0 && paths[k] != [] && Distinct(paths[k])
  {
    WeightBounded(L, paths[k]);
    var j :| 0 <= j < |L| && paths[k] <= L[j].items;
    assert WellFormed(L[j]);
  }

  /** A whole header chain yields the pattern base of its item. */
  lemma GatherDone(paths: Paths, weights: seq<int>, L: seq<WPath>, key: TwuMap, E: ItemSet, a: ItemId, cpb: seq<Cond>)
    requires TrieOf(paths, weights, L) && Gathered(paths, weights, a, 0, |paths|, cpb)
    requires forall k | 0 <= k < |L| :: SortedPath(key, L[k].items) && Elems(L[k].items) <= E
    ensures Based(L, key, E, a, cpb) && RangeSum(paths, weights, 0, |paths|, a, {}) == CondWeight(L, a, {})
  {
    hide Total, Occurs, CondWeight, Weight, NodeMatches;
    forall Y: ItemSet
      ensures RangeSum(paths, weights, 0, |paths|, a, Y) == CondWeight(L, a, Y)
      ensures MatchIn(paths, 0, |paths|, a, Y) <==> Passed(L, a, Y)
    {
      ChainSum(paths, weights, L, a, Y);
      ChainExists(paths, weights, L, a, Y);
    }
    forall k, y | 0 <= k < |cpb| && y in cpb[k].path ensures y in E && Before(key, y, a) {
      AboveSorted(paths, weights, L, key, E, a, cpb[k].path);
    }
  }

  /** It has at most one path per path of the tree, and shorter ones. */
  lemma BaseWithin(paths: Paths, weights: seq<int>, L: seq<WPath>, a: ItemId, cpb: seq<Cond>, n: nat, m: nat)
    requires TrieOf(paths, weights, L) && Gathered(paths, weights, a, 0, |paths|, cpb) && Within(L, n, m)
    ensures CondsWithin(cpb, n, if m == 0 then 0 else m - 1)
  {
    hide Total, Occurs, Weight, MatchIn;
    ChainCount(paths, weights, L, a);
    assert NodeSum(paths, Ones(|paths|), 0, a, {}) == 0;
    forall k | 0 <= k < |cpb| ensures |cpb[k].path| < m {
      AboveShorter(paths, weights, L, a, cpb[k].path, n, m);
    }
  }

  lemma AboveShorter(paths: Paths, weights: seq<int>, L: seq<WPath>, a: ItemId, path: seq<ItemId>, n: nat, m: nat)
    requires TrieOf(paths, weights, L) && AboveNode(paths, a, path) && Within(L, n, m)
    ensures |path| < m
  {
    hide Weight, WellWeighted;
    var i :| 0 <= i < |paths| && EndsIn(paths[i], a) && path == paths[i][..|paths[i]| - 1];
    var j :| 0 <= j < |L| && paths[i] <= L[j].items;
  }

  lemma AboveSorted(paths: Paths, weights: seq<int>, L: seq<WPath>, key: TwuMap, E: ItemSet, a: ItemId, path: seq<ItemId>)
    requires TrieOf(paths, weights, L) && AboveNode(paths, a, path)
    requires forall k | 0 <= k < |L| :: SortedPath(key, L[k].items) && Elems(L[k].items) <= E
    ensures SortedPath(key, path) && Elems(path) <= E && forall y | y in path :: Before(key, y, a)
  {
    hide Weight, WellWeighted, Before;
    var i :| 0 <= i < |paths| && EndsIn(paths[i], a) && path == paths[i][..|paths[i]| - 1];
    var j :| 0 <= j < |L| && paths[i] <= L[j].items;
    var s := L[j].items;
    assert forall m | 0 <= m < |path| :: path[m] == s[m];
    assert s[|path|] == a;
    forall y | y in path ensures y in E && Before(key, y, a) {
      var m :| 0 <= m < |path| && path[m] == y;
      assert s[m] in Elems(s);
    }
  }

  // ----- local weights

  ghost predicate LocalSoFar(cpb: seq<Cond>, n: nat, done: ItemSet, w: int, local: map<ItemId, int>)
    requires n <= |cpb|
  {
    && (forall x :: x in local <==> Occurs(cpb[..n], {x}) || x in done)
    && (forall x | x in local :: local[x] == Total(cpb[..n], {x}) + (if x in done then w else 0))
  }

  lemma LocalEntry(cpb: seq<Cond>, n: nat, k: nat, local: map<ItemId, int>)
    requires n < |cpb| && k < |cpb[n].path| && Weighted(cpb)
    requires LocalSoFar(cpb, n, Elems(cpb[n].path[..k]), cpb[n].w, local)
    ensures var x := cpb[n].path[k];
            LocalSoFar(cpb, n, Elems(cpb[n].path[..k + 1]), cpb[n].w, local[x := (if x in local then local[x] else 0) + cpb[n].w])
  {
    hide Total;
    var path, x := cpb[n].path, cpb[n].path[k];
    assert path[..k + 1] == path[..k] + [x];
    assert Elems(path[..k + 1]) == Elems(path[..k]) + {x};
    assert x !in path[..k];
    if x !in local { TotalAbsent(cpb[..n], {x}); }
  }

  lemma LocalNext(cpb: seq<Cond>, n: nat, local: map<ItemId, int>)
    requires n < |cpb| && LocalSoFar(cpb, n, Elems(cpb[n].path), cpb[n].w, local)
    ensures LocalSoFar(cpb, n + 1, {}, 0, local)
  {
    hide Total, Occurs;
    assert cpb[..n + 1] == cpb[..n] + [cpb[n]];
    forall x
      ensures Occurs(cpb[..n + 1], {x}) <==> Occurs(cpb[..n], {x}) || x in Elems(cpb[n].path)
      ensures Total(cpb[..n + 1], {x}) == Total(cpb[..n], {x}) + (if x in Elems(cpb[n].path) then cpb[n].w else 0)
    {
      CondSnoc(cpb[..n], cpb[n], {x});
    }
  }

  /** The total weight of every item of the pattern base. */
  method LocalTwu(cpb: seq<Cond>) returns (local: map<ItemId, int>)
    requires Weighted(cpb)
    ensures forall x :: x in local <==> Occurs(cpb, {x})
    ensures forall x | x in local :: local[x] == Total(cpb, {x})
  {
    hide Total, Occurs;
    local := map[];
    LocalStart(cpb);
    for n := 0 to |cpb|
      invariant LocalSoFar(cpb, n, {}, 0, local)
    {
      var path := cpb[n].path;
      assert path[..0] == [] && Elems(path[..0]) == {};
      for k := 0 to |path|
        invariant LocalSoFar(cpb, n, Elems(path[..k]), cpb[n].w, local)
      {
        LocalEntry(cpb, n, k, local);
        local := local[path[k] := (if path[k] in local then local[path[k]] else 0) + cpb[n].w];
      }
      assert path[..|path|] == path;
      LocalNext(cpb, n, local);
    }
    assert cpb[..|cpb|] == cpb;
  }

  lemma LocalStart(cpb: seq<Cond>)
    ensures LocalSoFar(cpb, 0, {}, 0, map[])
  {
  }

  function LocallyKept(local: map<ItemId, int>, min: int): ItemSet {
    set x | x in local && local[x] >= min
  }

  // ----- cut paths

  /** The items of a path that are kept, in path order. */
  function FilterPath(path: seq<ItemId>, keep: ItemSet): seq<ItemId> {
    if path == [] then []
    else FilterPath(path[..|path| - 1], keep) + (if path[|path| - 1] in keep then [path[|path| - 1]] else [])
  }

  lemma {:induction false} FilterPathIs(key: TwuMap, path: seq<ItemId>, keep: ItemSet)
    ensures Elems(FilterPath(path, keep)) == Elems(path) * keep
    ensures SortedPath(key, path) ==> SortedPath(key, FilterPath(path, keep))
    ensures Distinct(path) ==> Distinct(FilterPath(path, keep))
  {
    if path != [] {
      var n := |path| - 1;
      FilterPathIs(key, path[..n], keep);
      assert path == path[..n] + [path[n]];
      var r := FilterPath(path[..n], keep);
      assert forall k | 0 <= k < |r| :: r[k] in Elems(path[..n]) * keep;
      assert Elems(path) == Elems(path[..n]) + {path[n]};
      assert Elems(r + [path[n]]) == Elems(r) + {path[n]};
      if SortedPath(key, path) {
        forall k | 0 <= k < |r| ensures Before(key, r[k], path[n]) {
          var i :| 0 <= i < n && path[i] == r[k];
        }
      }
    }
  }

  lemma {:induction false} FilterPathShort(path: seq<ItemId>, keep: ItemSet)
    ensures |FilterPath(path, keep)| <= |path|
  {
    if path != [] { FilterPathShort(path[..|path| - 1], keep); }
  }

  lemma CutWithin(cpb: seq<Cond>, n: nat, keep: ItemSet, key: TwuMap, cut: seq<Cond>, m: nat)
    requires n <= |cpb| && CutBase(cpb, n, keep, key, cut) && forall k | 0 <= k < |cut| :: |cut[k].path| <= m
    ensures Within(Uniforms(cut), n, m)
  {
    UniformsWithin(cut, n, m);
  }

  /** The cut base: what the conditional tree is built from. */
  ghost predicate CutBase(cpb: seq<Cond>, n: nat, keep: ItemSet, key: TwuMap, cut: seq<Cond>)
    requires n <= |cpb|
  {
    && Cuts(cpb[..n], keep, cut) && Weighted(cut) && AllSorted(key, cut) && Total(cut, {}) <= Total(cpb[..n], {})
    && (forall k | 0 <= k < |cut| :: Elems(cut[k].path) <= keep)
    && |cut| <= n
  }

  lemma CutBaseStart(cpb: seq<Cond>, keep: ItemSet, key: TwuMap)
    ensures CutBase(cpb, 0, keep, key, [])
  {
  }

  lemma CutBaseStep(cpb: seq<Cond>, n: nat, keep: ItemSet, key: TwuMap, cut: seq<Cond>, path: seq<ItemId>)
    requires n < |cpb| && CutBase(cpb, n, keep, key, cut) && cpb[n].w >= 0
    requires Elems(path) == Elems(cpb[n].path) * keep && SortedPath(key, path)
    ensures CutBase(cpb, n + 1, keep, key, if path == [] then cut else cut + [Cond(path, cpb[n].w)])
    ensures Total(cut + [Cond(path, cpb[n].w)], {}) <= Total(cpb[..n + 1], {}) && Distinct(path)
  {
    hide Total, Occurs, WeightedPaths.Cuts;
    var cut' := if path == [] then cut else cut + [Cond(path, cpb[n].w)];
    assert cpb[..n + 1] == cpb[..n] + [cpb[n]];
    CutSnoc(cpb[..n], keep, cut, cpb[n], path);
    CondSnoc(cpb[..n], cpb[n], {});
    CondSnoc(cut, Cond(path, cpb[n].w), {});
    SortedDistinct(key, path);
    forall k | 0 <= k < |cut'| ensures cut'[k].w >= 0 && Distinct(cut'[k].path) && SortedPath(key, cut'[k].path) && Elems(cut'[k].path) <= keep {
      if k < |cut| { assert cut'[k] == cut[k]; }
    }
  }

  /** Prefixes weigh no more than the whole. */
  lemma {:induction false} TotalPrefix(cpb: seq<Cond>, n: nat, Y: ItemSet)
    requires Weighted(cpb) && n <= |cpb|
    ensures Total(cpb[..n], Y) <= Total(cpb, Y)
    decreases |cpb| - n
  {
    if n == |cpb| {
      assert cpb[..n] == cpb;
    } else {
      assert cpb[..n + 1] == cpb[..n] + [cpb[n]];
      CondSnoc(cpb[..n], cpb[n], Y);
      TotalPrefix(cpb, n + 1, Y);
    }
  }

  lemma BaseFacts(L: seq<WPath>, key: TwuMap, E: ItemSet, a: ItemId, cpb: seq<Cond>)
    requires WellWeighted(L) && Load(L) <= I64_MAX && Based(L, key, E, a, cpb)
    ensures Weighted(cpb) && Total(cpb, {}) <= I64_MAX
  {
    CondWeightMonotone(L, a, {}, {});
  }

  lemma KeptIs(cpb: seq<Cond>, local: map<ItemId, int>, min: int)
    requires forall x :: x in local <==> Occurs(cpb, {x})
    requires forall x | x in local :: local[x] == Total(cpb, {x})
    ensures KeptLocally(cpb, min, LocallyKept(local, min))
  {
    hide Occurs, Total;
  }

  /** Room for one more path: the cut base never weighs more than the whole one. */
  lemma UniformsSnoc(cpb: seq<Cond>, n: nat, keep: ItemSet, key: TwuMap, cut: seq<Cond>, c: Cond)
    requires n < |cpb| && CutBase(cpb, n, keep, key, cut) && Weighted(cpb) && Total(cpb, {}) <= I64_MAX
    requires Total(cut + [c], {}) <= Total(cpb[..n + 1], {})
    ensures Uniforms(cut + [c]) == Uniforms(cut) + [Uniform(c)] && WellWeighted(Uniforms(cut))
    ensures Load(Uniforms(cut)) + c.w <= I64_MAX
  {
    UniformsFormed(cut);
    UniformLoad(cut, |cut|);
    assert Uniforms(cut)[..|cut|] == Uniforms(cut) && cut[..|cut|] == cut;
    CondSnoc(cut, c, {});
    TotalPrefix(cpb, n + 1, {});
  }

  lemma BaseSorted(paths: Paths, weights: seq<int>, L: seq<WPath>, key: TwuMap, E: ItemSet, a: ItemId, cpb: seq<Cond>)
    requires TrieOf(paths, weights, L) && Gathered(paths, weights, a, 0, |paths|, cpb)
    requires forall k | 0 <= k < |L| :: SortedPath(key, L[k].items) && Elems(L[k].items) <= E
    ensures WellWeighted(L) && forall k | 0 <= k < |cpb| :: SortedPath(key, cpb[k].path)
  {
    forall k | 0 <= k < |cpb| ensures SortedPath(key, cpb[k].path) {
      AboveSorted(paths, weights, L, key, E, a, cpb[k].path);
    }
  }

  lemma RangeEmpty(paths: Paths, weights: seq<int>, at: nat, a: ItemId)
    requires at <= |paths| == |weights|
    ensures RangeSum(paths, weights, at, at, a, {}) == 0
  {
  }
}
