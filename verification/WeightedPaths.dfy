/** The mathematics behind the prefix-tree engines: weighted paths, the trie of their prefixes, and the
    conditional paths of an item. */
module WeightedPaths {
  import opened Huim
  import opened TwuFilter

  /** A path with one weight for every node along it, none above cap. */
  datatype WPath = WPath(items: seq<ItemId>, ws: seq<int>, cap: int)

  /** A path with a single weight, as kept in a conditional pattern base. */
  datatype Cond = Cond(path: seq<ItemId>, w: int)

  /** Tree order: descending key, ties broken by item id. */
  predicate Before(key: TwuMap, x: ItemId, y: ItemId) {
    Key(key, x) > Key(key, y) || (Key(key, x) == Key(key, y) && x < y)
  }

  ghost predicate SortedPath(key: TwuMap, s: seq<ItemId>) {
    forall i, j | 0 <= i < j < |s| :: Before(key, s[i], s[j])
  }

  function Pos(s: seq<ItemId>, a: ItemId): (k: nat)
    ensures k <= |s| && (forall j | 0 <= j < k :: s[j] != a) && (k < |s| ==> s[k] == a)
    ensures k < |s| <==> a in s
  {
    if s == [] then 0
    else if s[0] == a then 0
    else 1 + Pos(s[1..], a)
  }

  lemma PosUnique(s: seq<ItemId>, k: nat)
    requires Distinct(s) && k < |s|
    ensures Pos(s, s[k]) == k
  {
    var p := Pos(s, s[k]);
    assert s[k] in s;
    assert s[p] == s[k];
  }

  // ----- lists of conditional paths

  ghost function Total(l: seq<Cond>, Y: ItemSet): int {
    if l == [] then 0
    else Total(l[..|l| - 1], Y) + (if Y <= Elems(l[|l| - 1].path) then l[|l| - 1].w else 0)
  }

  ghost predicate Occurs(l: seq<Cond>, Y: ItemSet) {
    exists k :: 0 <= k < |l| && Y <= Elems(l[k].path)
  }

  ghost predicate Weighted(l: seq<Cond>) {
    forall k | 0 <= k < |l| :: l[k].w >= 0 && Distinct(l[k].path)
  }

  lemma CondSnoc(l: seq<Cond>, c: Cond, Y: ItemSet)
    ensures Total(l + [c], Y) == Total(l, Y) + (if Y <= Elems(c.path) then c.w else 0)
    ensures Occurs(l + [c], Y) <==> Occurs(l, Y) || Y <= Elems(c.path)
  {
    assert (l + [c])[..|l|] == l;
    if Occurs(l, Y) {
      var k :| 0 <= k < |l| && Y <= Elems(l[k].path);
      assert (l + [c])[k] == l[k];
    }
    if Y <= Elems(c.path) { assert (l + [c])[|l|] == c; }
    if Occurs(l + [c], Y) {
      var k :| 0 <= k < |l| + 1 && Y <= Elems((l + [c])[k].path);
      if k < |l| { assert Y <= Elems(l[k].path); }
    }
  }

  /** More items, no more weight. */
  lemma {:induction false} TotalMonotone(l: seq<Cond>, Y: ItemSet, Z: ItemSet)
    requires Weighted(l) && Y <= Z
    ensures 0 <= Total(l, Z) <= Total(l, Y)
    ensures Occurs(l, Z) ==> Occurs(l, Y)
  {
    if l != [] { TotalMonotone(l[..|l| - 1], Y, Z); }
    if Occurs(l, Z) {
      var k :| 0 <= k < |l| && Z <= Elems(l[k].path);
      assert Y <= Elems(l[k].path);
    }
  }

  lemma {:induction false} TotalAbsent(l: seq<Cond>, Y: ItemSet)
    requires !Occurs(l, Y)
    ensures Total(l, Y) == 0
  {
    if l != [] {
      var n := |l| - 1;
      assert l == l[..n] + [l[n]];
      CondSnoc(l[..n], l[n], Y);
      TotalAbsent(l[..n], Y);
    }
  }

  // ----- the trie of a list of weighted paths

  ghost predicate WellWeighted(L: seq<WPath>) {
    forall k | 0 <= k < |L| :: WellFormed(L[k])
  }

  ghost predicate WellFormed(l: WPath) {
    |l.ws| == |l.items| && Distinct(l.items) && l.cap >= 0 && forall i | 0 <= i < |l.ws| :: 0 <= l.ws[i] <= l.cap
  }

  /** What all paths together can put on one node. */
  ghost function Load(L: seq<WPath>): int {
    if L == [] then 0 else Load(L[..|L| - 1]) + L[|L| - 1].cap
  }

  /** The weight a node must have: from every path through it, the weight at its depth. */
  ghost function Weight(L: seq<WPath>, p: seq<ItemId>): int
    requires p != [] && forall k | 0 <= k < |L| :: |L[k].ws| == |L[k].items|
  {
    if L == [] then 0
    else
      var l := L[|L| - 1];
      Weight(L[..|L| - 1], p) + (if p <= l.items then l.ws[|p| - 1] else 0)
  }

  lemma {:induction false} WeightBounded(L: seq<WPath>, p: seq<ItemId>)
    requires p != [] && WellWeighted(L)
    ensures 0 <= Weight(L, p) <= Load(L)
  {
    if L != [] {
      assert WellFormed(L[|L| - 1]);
      WeightBounded(L[..|L| - 1], p);
    }
  }

  /** paths names every prefix of every path once, the empty one first, and weights are the weights
      those nodes must have. */
  ghost predicate TrieOf(paths: seq<seq<ItemId>>, weights: seq<int>, L: seq<WPath>) {
    && WellWeighted(L)
    && |weights| == |paths| > 0 && paths[0] == [] && Distinct(paths)
    && (forall i | 0 < i < |paths| :: paths[i] != [] && weights[i] == Weight(L, paths[i]))
    && (forall i | 0 < i < |paths| :: exists k :: 0 <= k < |L| && paths[i] <= L[k].items)
    && (forall k, n | 0 <= k < |L| && 0 <= n <= |L[k].items| :: L[k].items[..n] in paths)
  }

  // Inserting a path one item at a time.

  /** The first n items of a path with their weights. */
  ghost function FirstItems(l: WPath, n: nat): (r: WPath)
    requires n <= |l.items| == |l.ws|
  {
    WPath(l.items[..n], l.ws[..n], l.cap)
  }

  lemma {:induction false} WeightSnoc(L: seq<WPath>, l: WPath, p: seq<ItemId>)
    requires p != [] && WellWeighted(L) && WellFormed(l)
    ensures Weight(L + [l], p) == Weight(L, p) + (if p <= l.items then l.ws[|p| - 1] else 0)
    ensures Load(L + [l]) == Load(L) + l.cap
  {
    assert (L + [l])[..|L|] == L;
  }

  lemma FirstItemsFormed(L: seq<WPath>, l: WPath, n: nat)
    requires WellWeighted(L) && WellFormed(l) && n <= |l.items|
    ensures WellFormed(FirstItems(l, n)) && WellWeighted(L + [FirstItems(l, n)])
  {
  }

  /** One more item of the path adds its weight to the node it reaches, and to no other. */
  lemma WeightNextItem(L: seq<WPath>, l: WPath, n: nat, p: seq<ItemId>)
    requires p != [] && WellWeighted(L) && WellFormed(l) && n < |l.items|
    ensures WellWeighted(L + [FirstItems(l, n)]) && WellWeighted(L + [FirstItems(l, n + 1)])
    ensures Weight(L + [FirstItems(l, n + 1)], p) == Weight(L + [FirstItems(l, n)], p) + (if p == l.items[..n + 1] then l.ws[n] else 0)
  {
    FirstItemsFormed(L, l, n);
    FirstItemsFormed(L, l, n + 1);
    WeightSnoc(L, FirstItems(l, n), p);
    WeightSnoc(L, FirstItems(l, n + 1), p);
    var a, b := l.items[..n], l.items[..n + 1];
    assert b[..n] == a;
    assert p <= b <==> p <= a || p == b by {
      if p <= b && |p| <= n { assert p == b[..|p|] == a[..|p|]; }
      if p <= a { assert p == a[..|p|] == b[..|p|]; }
      if p <= b && |p| == n + 1 { assert p == b[..|p|] == b; }
    }
  }

  /** A node no path reaches carries nothing. */
  lemma {:induction false} WeightUnreached(L: seq<WPath>, p: seq<ItemId>)
    requires p != [] && WellWeighted(L) && forall k | 0 <= k < |L| :: !(p <= L[k].items)
    ensures Weight(L, p) == 0
  {
    if L != [] { WeightUnreached(L[..|L| - 1], p); }
  }

  lemma TrieStart(paths: seq<seq<ItemId>>, weights: seq<int>, L: seq<WPath>, l: WPath)
    requires TrieOf(paths, weights, L) && WellFormed(l)
    ensures TrieOf(paths, weights, L + [FirstItems(l, 0)])
  {
    hide Weight;
    var L' := L + [FirstItems(l, 0)];
    FirstItemsFormed(L, l, 0);
    assert FirstItems(l, 0).items == [];
    forall i | 0 < i < |paths| ensures paths[i] != [] && weights[i] == Weight(L', paths[i]) {
      WeightSnoc(L, FirstItems(l, 0), paths[i]);
    }
    forall i | 0 < i < |paths| ensures exists k :: 0 <= k < |L'| && paths[i] <= L'[k].items {
      var k :| 0 <= k < |L| && paths[i] <= L[k].items;
      assert L'[k] == L[k];
    }
    forall k, n | 0 <= k < |L'| && 0 <= n <= |L'[k].items| ensures L'[k].items[..n] in paths {
      if k == |L| {
        assert L'[k].items[..n] == [];
      } else {
        assert L'[k] == L[k] && L[k].items[..n] in paths;
      }
    }
  }

  lemma TrieEnd(paths: seq<seq<ItemId>>, weights: seq<int>, L: seq<WPath>, l: WPath)
    requires WellFormed(l) && TrieOf(paths, weights, L + [FirstItems(l, |l.items|)])
    ensures TrieOf(paths, weights, L + [l])
  {
    assert FirstItems(l, |l.items|) == l;
  }

  lemma TrieCovers(paths: seq<seq<ItemId>>, weights: seq<int>, L: seq<WPath>, l: WPath, n: nat, i: nat)
    requires WellFormed(l) && n < |l.items| && TrieOf(paths, weights, L + [FirstItems(l, n)]) && 0 < i < |paths|
    ensures var L' := L + [FirstItems(l, n + 1)]; exists k :: 0 <= k < |L'| && paths[i] <= L'[k].items
  {
    var L0, L' := L + [FirstItems(l, n)], L + [FirstItems(l, n + 1)];
    var k :| 0 <= k < |L0| && paths[i] <= L0[k].items;
    if k == |L| {
      assert l.items[..n + 1][..n] == l.items[..n];
      assert paths[i] <= L'[k].items;
    } else {
      assert L'[k] == L0[k];
    }
  }

  /** The next item already has a node: its weight grows. */
  lemma TrieFound(paths: seq<seq<ItemId>>, weights: seq<int>, L: seq<WPath>, l: WPath, n: nat, c: nat)
    requires WellWeighted(L) && WellFormed(l) && n < |l.items| && TrieOf(paths, weights, L + [FirstItems(l, n)])
    requires 0 < c < |paths| && paths[c] == l.items[..n + 1]
    ensures TrieOf(paths, weights[c := weights[c] + l.ws[n]], L + [FirstItems(l, n + 1)])
    ensures 0 <= weights[c] + l.ws[n] <= Load(L) + l.cap
  {
    var L0, L' := L + [FirstItems(l, n)], L + [FirstItems(l, n + 1)];
    var weights' := weights[c := weights[c] + l.ws[n]];
    FirstItemsFormed(L, l, n + 1);
    forall i | 0 < i < |paths| ensures weights'[i] == Weight(L', paths[i]) && exists k :: 0 <= k < |L'| && paths[i] <= L'[k].items {
      WeightNextItem(L, l, n, paths[i]);
      TrieCovers(paths, weights, L, l, n, i);
    }
    forall k, m | 0 <= k < |L'| && 0 <= m <= |L'[k].items| ensures L'[k].items[..m] in paths {
      TrieHolds(paths, weights, L, l, n, paths, k, m);
    }
    WeightBounded(L', paths[c]);
    WeightSnoc(L, FirstItems(l, n + 1), paths[c]);
  }

  lemma TrieHolds(paths: seq<seq<ItemId>>, weights: seq<int>, L: seq<WPath>, l: WPath, n: nat, more: seq<seq<ItemId>>,
                  k: nat, m: nat)
    requires WellFormed(l) && n < |l.items| && TrieOf(paths, weights, L + [FirstItems(l, n)])
    requires l.items[..n + 1] in more && forall p | p in paths :: p in more
    requires k <= |L| && m <= |(L + [FirstItems(l, n + 1)])[k].items|
    ensures (L + [FirstItems(l, n + 1)])[k].items[..m] in more
  {
    var L0, L' := L + [FirstItems(l, n)], L + [FirstItems(l, n + 1)];
    if k < |L| {
      assert L'[k] == L0[k];
    } else if m <= n {
      assert L'[k].items[..m] == L0[k].items[..m];
    } else {
      assert L'[k].items[..m] == l.items[..n + 1];
    }
  }

  lemma PrefixIs(s: seq<ItemId>, q: seq<ItemId>)
    requires q <= s
    ensures s[..|q|] == q
  {
  }

  lemma NotPrefix(paths: seq<seq<ItemId>>, s: seq<ItemId>, q: seq<ItemId>)
    requires q !in paths && forall m | 0 <= m <= |s| :: s[..m] in paths
    ensures !(q <= s)
  {
    if q <= s { PrefixIs(s, q); }
  }

  /** The next item has no node: a new one takes exactly its weight. */
  lemma TrieNew(paths: seq<seq<ItemId>>, weights: seq<int>, L: seq<WPath>, l: WPath, n: nat)
    requires WellWeighted(L) && WellFormed(l) && n < |l.items| && TrieOf(paths, weights, L + [FirstItems(l, n)])
    requires l.items[..n + 1] !in paths
    ensures TrieOf(paths + [l.items[..n + 1]], weights + [l.ws[n]], L + [FirstItems(l, n + 1)])
  {
    var L0, L', q := L + [FirstItems(l, n)], L + [FirstItems(l, n + 1)], l.items[..n + 1];
    var paths', weights' := paths + [q], weights + [l.ws[n]];
    FirstItemsFormed(L, l, n + 1);
    forall i | 0 < i < |paths'| ensures weights'[i] == Weight(L', paths'[i]) && exists k :: 0 <= k < |L'| && paths'[i] <= L'[k].items {
      WeightNextItem(L, l, n, paths'[i]);
      if i < |paths| {
        TrieCovers(paths, weights, L, l, n, i);
      } else {
        forall k | 0 <= k < |L0| ensures !(q <= L0[k].items) {
          NotPrefix(paths, L0[k].items, q);
        }
        WeightUnreached(L0, q);
        assert q <= L'[|L|].items;
      }
    }
    forall k, m | 0 <= k < |L'| && 0 <= m <= |L'[k].items| ensures L'[k].items[..m] in paths' {
      TrieHolds(paths, weights, L, l, n, paths', k, m);
    }
  }

  /** A node of item a whose ancestors include Y. */
  ghost predicate NodeMatches(p: seq<ItemId>, a: ItemId, Y: ItemSet) {
    p != [] && p[|p| - 1] == a && Y <= Elems(p[..|p| - 1])
  }

  /** The summed weight of the matching nodes among the first hi. */
  ghost function NodeSum(paths: seq<seq<ItemId>>, weights: seq<int>, hi: nat, a: ItemId, Y: ItemSet): int
    requires hi <= |paths| == |weights|
  {
    if hi == 0 then 0
    else NodeSum(paths, weights, hi - 1, a, Y) + (if NodeMatches(paths[hi - 1], a, Y) then weights[hi - 1] else 0)
  }

  /** A path on which a comes after all of Y. */
  ghost predicate PathMatches(l: WPath, a: ItemId, Y: ItemSet) {
    var k := Pos(l.items, a); k < |l.items| && Y <= Elems(l.items[..k])
  }

  /** From every path on which a comes after all of Y, the weight at a. */
  ghost function CondWeight(L: seq<WPath>, a: ItemId, Y: ItemSet): int
    requires forall k | 0 <= k < |L| :: |L[k].ws| == |L[k].items|
  {
    if L == [] then 0
    else
      var l := L[|L| - 1];
      CondWeight(L[..|L| - 1], a, Y) + (if PathMatches(l, a, Y) then l.ws[Pos(l.items, a)] else 0)
  }

  // Summing node by node and path by path is the same.

  ghost function PathSum(paths: seq<seq<ItemId>>, L: seq<WPath>, hi: nat, a: ItemId, Y: ItemSet): int
    requires hi <= |paths| && forall k | 0 <= k < |L| :: |L[k].ws| == |L[k].items|
  {
    if hi == 0 then 0
    else PathSum(paths, L, hi - 1, a, Y) + (if NodeMatches(paths[hi - 1], a, Y) then Weight(L, paths[hi - 1]) else 0)
  }

  ghost function OnePathSum(paths: seq<seq<ItemId>>, l: WPath, hi: nat, a: ItemId, Y: ItemSet): int
    requires hi <= |paths| && |l.ws| == |l.items|
  {
    if hi == 0 then 0
    else
      var p := paths[hi - 1];
      OnePathSum(paths, l, hi - 1, a, Y) + (if NodeMatches(p, a, Y) && p <= l.items then l.ws[|p| - 1] else 0)
  }

  lemma {:induction false} PathSumEmpty(paths: seq<seq<ItemId>>, hi: nat, a: ItemId, Y: ItemSet)
    requires hi <= |paths|
    ensures PathSum(paths, [], hi, a, Y) == 0
  {
    if hi > 0 { PathSumEmpty(paths, hi - 1, a, Y); }
  }

  lemma {:induction false} PathSumSnoc(paths: seq<seq<ItemId>>, L: seq<WPath>, n: nat, hi: nat, a: ItemId, Y: ItemSet)
    requires hi <= |paths| && n < |L| && forall k | 0 <= k < |L| :: |L[k].ws| == |L[k].items|
    ensures PathSum(paths, L[..n + 1], hi, a, Y) == PathSum(paths, L[..n], hi, a, Y) + OnePathSum(paths, L[n], hi, a, Y)
  {
    if hi > 0 {
      PathSumSnoc(paths, L, n, hi - 1, a, Y);
      assert L[..n + 1][..n] == L[..n];
    }
  }

  /** A matching node on a path is the one that ends at a. */
  lemma MatchIsPrefix(l: WPath, p: seq<ItemId>, a: ItemId, Y: ItemSet)
    requires Distinct(l.items) && NodeMatches(p, a, Y) && p <= l.items
    ensures var k := Pos(l.items, a); |p| == k + 1 && k < |l.items| && p == l.items[..k + 1] && PathMatches(l, a, Y)
  {
    assert l.items[|p| - 1] == a;
    PosUnique(l.items, |p| - 1);
    assert p[..|p| - 1] == l.items[..|p| - 1];
  }

  lemma {:induction false} OnePathSumNone(paths: seq<seq<ItemId>>, l: WPath, hi: nat, a: ItemId, Y: ItemSet)
    requires hi <= |paths| && |l.ws| == |l.items| && Distinct(l.items)
    requires forall i | 0 <= i < hi :: !(NodeMatches(paths[i], a, Y) && paths[i] <= l.items)
    ensures OnePathSum(paths, l, hi, a, Y) == 0
  {
    if hi > 0 { OnePathSumNone(paths, l, hi - 1, a, Y); }
  }

  /** Two matching nodes on one path are the same node. */
  lemma MatchUnique(paths: seq<seq<ItemId>>, l: WPath, i: nat, j: nat, a: ItemId, Y: ItemSet)
    requires i < |paths| && j < |paths| && i != j && Distinct(paths) && Distinct(l.items)
    requires PathMatches(l, a, Y) && paths[i] == l.items[..Pos(l.items, a) + 1]
    ensures !(NodeMatches(paths[j], a, Y) && paths[j] <= l.items)
  {
    if NodeMatches(paths[j], a, Y) && paths[j] <= l.items {
      MatchIsPrefix(l, paths[j], a, Y);
    }
  }

  lemma {:induction false} OnePathSumOne(paths: seq<seq<ItemId>>, l: WPath, i: nat, hi: nat, a: ItemId, Y: ItemSet)
    requires i < hi <= |paths| && |l.ws| == |l.items| && Distinct(l.items) && Distinct(paths)
    requires PathMatches(l, a, Y) && paths[i] == l.items[..Pos(l.items, a) + 1]
    ensures OnePathSum(paths, l, hi, a, Y) == l.ws[Pos(l.items, a)]
  {
    var p, k := paths[hi - 1], Pos(l.items, a);
    forall j | 0 <= j < hi && j != i ensures !(NodeMatches(paths[j], a, Y) && paths[j] <= l.items) {
      MatchUnique(paths, l, i, j, a, Y);
    }
    if i == hi - 1 {
      OnePathSumNone(paths, l, hi - 1, a, Y);
      assert p[..|p| - 1] == l.items[..k];
    } else {
      OnePathSumOne(paths, l, i, hi - 1, a, Y);
    }
  }

  /** A path adds to the sum the weight of its one matching node, if there is one. */
  lemma OnePathSumIs(paths: seq<seq<ItemId>>, l: WPath, a: ItemId, Y: ItemSet)
    requires Distinct(paths) && |l.ws| == |l.items| && Distinct(l.items)
    requires forall m | 0 <= m <= |l.items| :: l.items[..m] in paths
    ensures OnePathSum(paths, l, |paths|, a, Y) == if PathMatches(l, a, Y) then l.ws[Pos(l.items, a)] else 0
  {
    hide NodeMatches;
    if PathMatches(l, a, Y) {
      assert l.items[..Pos(l.items, a) + 1] in paths;
      var i :| 0 <= i < |paths| && paths[i] == l.items[..Pos(l.items, a) + 1];
      OnePathSumOne(paths, l, i, |paths|, a, Y);
    } else {
      forall i | 0 <= i < |paths| ensures !(NodeMatches(paths[i], a, Y) && paths[i] <= l.items) {
        if NodeMatches(paths[i], a, Y) && paths[i] <= l.items { MatchIsPrefix(l, paths[i], a, Y); }
      }
      OnePathSumNone(paths, l, |paths|, a, Y);
    }
  }

  lemma {:induction false} PathSumIsCondWeight(paths: seq<seq<ItemId>>, L: seq<WPath>, n: nat, a: ItemId, Y: ItemSet)
    requires n <= |L| && WellWeighted(L) && Distinct(paths)
    requires forall k, m | 0 <= k < |L| && 0 <= m <= |L[k].items| :: L[k].items[..m] in paths
    ensures PathSum(paths, L[..n], |paths|, a, Y) == CondWeight(L[..n], a, Y)
  {
    if n == 0 {
      PathSumEmpty(paths, |paths|, a, Y);
    } else {
      hide PathMatches, NodeMatches, OnePathSum, PathSum;
      PathSumIsCondWeight(paths, L, n - 1, a, Y);
      PathSumSnoc(paths, L, n - 1, |paths|, a, Y);
      assert L[..n][..n - 1] == L[..n - 1];
      var l := L[n - 1];
      assert forall m | 0 <= m <= |l.items| :: l.items[..m] in paths;
      OnePathSumIs(paths, l, a, Y);
    }
  }

  lemma {:induction false} NodeSumIsPathSum(paths: seq<seq<ItemId>>, weights: seq<int>, L: seq<WPath>, hi: nat,
                                            a: ItemId, Y: ItemSet)
    requires TrieOf(paths, weights, L) && hi <= |paths|
    ensures NodeSum(paths, weights, hi, a, Y) == PathSum(paths, L, hi, a, Y)
  {
    if hi > 0 { NodeSumIsPathSum(paths, weights, L, hi - 1, a, Y); }
  }

  /** The nodes of a below Y carry together exactly the weight of the paths on which a follows Y: the
      reason a header chain yields the conditional TWU of the original database at any depth. */
  lemma ChainSum(paths: seq<seq<ItemId>>, weights: seq<int>, L: seq<WPath>, a: ItemId, Y: ItemSet)
    requires TrieOf(paths, weights, L)
    ensures NodeSum(paths, weights, |paths|, a, Y) == CondWeight(L, a, Y)
  {
    NodeSumIsPathSum(paths, weights, L, |paths|, a, Y);
    PathSumIsCondWeight(paths, L, |L|, a, Y);
    assert L[..|L|] == L;
  }

  lemma MatchNotEmpty(p: seq<ItemId>, a: ItemId, Y: ItemSet)
    requires NodeMatches(p, a, Y)
    ensures p != []
  {
  }

  lemma MatchedNode(l: WPath, a: ItemId, Y: ItemSet) returns (p: seq<ItemId>)
    requires PathMatches(l, a, Y)
    ensures NodeMatches(p, a, Y) && Pos(l.items, a) < |l.items| && p == l.items[..Pos(l.items, a) + 1]
  {
    p := l.items[..Pos(l.items, a) + 1];
    assert p[..|p| - 1] == l.items[..Pos(l.items, a)];
  }

  /** Such a node exists exactly when such a path does. */
  lemma ChainExists(paths: seq<seq<ItemId>>, weights: seq<int>, L: seq<WPath>, a: ItemId, Y: ItemSet)
    requires TrieOf(paths, weights, L)
    ensures (exists i :: 0 <= i < |paths| && NodeMatches(paths[i], a, Y)) <==>
              (exists k :: 0 <= k < |L| && PathMatches(L[k], a, Y))
  {
    hide NodeMatches, PathMatches, Weight;
    forall i | 0 <= i < |paths| && NodeMatches(paths[i], a, Y)
      ensures exists k :: 0 <= k < |L| && PathMatches(L[k], a, Y)
    {
      MatchNotEmpty(paths[i], a, Y);
      var k :| 0 <= k < |L| && paths[i] <= L[k].items;
      MatchIsPrefix(L[k], paths[i], a, Y);
    }
    forall k | 0 <= k < |L| && PathMatches(L[k], a, Y)
      ensures exists i :: 0 <= i < |paths| && NodeMatches(paths[i], a, Y)
    {
      var p := MatchedNode(L[k], a, Y);
      assert p in paths;
      var i :| 0 <= i < |paths| && paths[i] == p;
    }
  }

  // ----- uniform weights, as in conditional trees

  ghost function Uniform(c: Cond): (l: WPath)
    ensures l.items == c.path && l.cap == c.w && |l.ws| == |c.path| && forall i | 0 <= i < |l.ws| :: l.ws[i] == c.w
  {
    WPath(c.path, seq(|c.path|, _ => c.w), c.w)
  }

  ghost function Uniforms(l: seq<Cond>): (L: seq<WPath>)
    ensures |L| == |l| && forall k | 0 <= k < |l| :: L[k] == Uniform(l[k])
  {
    seq(|l|, k requires 0 <= k < |l| => Uniform(l[k]))
  }

  ghost predicate AllSorted(key: TwuMap, l: seq<Cond>) {
    forall k | 0 <= k < |l| :: SortedPath(key, l[k].path)
  }

  lemma SortedDistinct(key: TwuMap, s: seq<ItemId>)
    requires SortedPath(key, s)
    ensures Distinct(s)
  {
    forall i, j | 0 <= i < j < |s| ensures s[i] != s[j] { assert Before(key, s[i], s[j]); }
  }

  /** On a sorted path, a follows Y exactly when the path contains both and Y precedes a in the order. */
  lemma SortedMatches(key: TwuMap, s: seq<ItemId>, a: ItemId, Y: ItemSet)
    requires SortedPath(key, s) && forall y | y in Y :: Before(key, y, a)
    ensures (Pos(s, a) < |s| && Y <= Elems(s[..Pos(s, a)])) <==> Y + {a} <= Elems(s)
  {
    var k := Pos(s, a);
    if Y + {a} <= Elems(s) {
      assert a in Y + {a};
      forall y | y in Y ensures y in s[..k] {
        assert y in Y + {a};
        var i :| 0 <= i < |s| && s[i] == y;
        assert k < i ==> Before(key, s[k], s[i]);
        assert s[..k][i] == y;
      }
    }
  }

  /** With uniform weights and sorted paths, conditional weights are weights of larger itemsets. */
  lemma {:induction false} UniformCondWeight(key: TwuMap, l: seq<Cond>, n: nat, a: ItemId, Y: ItemSet)
    requires n <= |l| && AllSorted(key, l) && forall y | y in Y :: Before(key, y, a)
    ensures CondWeight(Uniforms(l)[..n], a, Y) == Total(l[..n], Y + {a})
  {
    if n > 0 {
      UniformCondWeight(key, l, n - 1, a, Y);
      assert Uniforms(l)[..n][..n - 1] == Uniforms(l)[..n - 1];
      assert l[..n][..n - 1] == l[..n - 1];
      SortedMatches(key, l[n - 1].path, a, Y);
    }
  }

  lemma UniformOccurs(key: TwuMap, l: seq<Cond>, a: ItemId, Y: ItemSet)
    requires AllSorted(key, l) && forall y | y in Y :: Before(key, y, a)
    ensures (exists k :: 0 <= k < |l| && PathMatches(Uniforms(l)[k], a, Y)) <==> Occurs(l, Y + {a})
  {
    forall k | 0 <= k < |l| ensures PathMatches(Uniforms(l)[k], a, Y) <==> Y + {a} <= Elems(l[k].path) {
      SortedMatches(key, l[k].path, a, Y);
    }
  }

  // ----- how many nodes a tree has

  /** At most n paths of at most m items each. */
  ghost predicate Within(L: seq<WPath>, n: nat, m: nat) {
    |L| <= n && forall k | 0 <= k < |L| :: |L[k].items| <= m
  }

  ghost predicate CondsWithin(l: seq<Cond>, n: nat, m: nat) {
    |l| <= n && forall k | 0 <= k < |l| :: |l[k].path| <= m
  }

  ghost function PrefixSet(s: seq<ItemId>, n: nat): set<seq<ItemId>>
    requires n <= |s|
  {
    set i | 0 < i <= n :: s[..i]
  }

  lemma {:induction false} PrefixCount(s: seq<ItemId>, n: nat)
    requires n <= |s|
    ensures |PrefixSet(s, n)| <= n
  {
    if n == 0 {
      assert PrefixSet(s, 0) == {};
    } else {
      PrefixCount(s, n - 1);
      assert PrefixSet(s, n) == PrefixSet(s, n - 1) + {s[..n]};
    }
  }

  ghost function AllPrefixes(L: seq<WPath>): set<seq<ItemId>> {
    if L == [] then {[]} else AllPrefixes(L[..|L| - 1]) + PrefixSet(L[|L| - 1].items, |L[|L| - 1].items|)
  }

  lemma MoreTimes(a: nat, b: nat, m: nat)
    requires a <= b
    ensures a * m <= b * m && (a + 1) * m == a * m + m
  {
  }

  lemma {:induction false} AllPrefixesCount(L: seq<WPath>, m: nat)
    requires Within(L, |L|, m)
    ensures |AllPrefixes(L)| <= 1 + |L| * m
  {
    if L != [] {
      var n := |L| - 1;
      AllPrefixesCount(L[..n], m);
      PrefixCount(L[n].items, |L[n].items|);
      UnionCount(AllPrefixes(L[..n]), PrefixSet(L[n].items, |L[n].items|));
      MoreTimes(n, n, m);
    }
  }

  lemma UnionCount<T>(a: set<T>, b: set<T>)
    ensures |a + b| <= |a| + |b|
  {
    assert a + b == a + (b - a);
  }

  lemma {:induction false} InAllPrefixes(L: seq<WPath>, k: nat, p: seq<ItemId>)
    requires k < |L| && p != [] && p <= L[k].items
    ensures p in AllPrefixes(L)
  {
    var n := |L| - 1;
    if k < n {
      InAllPrefixes(L[..n], k, p);
    } else {
      assert p == L[n].items[..|p|];
    }
  }

  lemma {:induction false} AllPrefixesRoot(L: seq<WPath>)
    ensures [] in AllPrefixes(L)
  {
    if L != [] { AllPrefixesRoot(L[..|L| - 1]); }
  }

  lemma {:induction false} DistinctWithin(s: seq<seq<ItemId>>, bound: set<seq<ItemId>>)
    requires Distinct(s) && forall p | p in s :: p in bound
    ensures |s| <= |bound|
  {
    if s != [] {
      var n := |s| - 1;
      assert s[n] in s && s[n] !in s[..n];
      DistinctWithin(s[..n], bound - {s[n]});
    }
  }

  /** A tree has a root and at most one node per item of every path. */
  lemma TrieSize(paths: seq<seq<ItemId>>, weights: seq<int>, L: seq<WPath>, n: nat, m: nat)
    requires TrieOf(paths, weights, L) && Within(L, n, m)
    ensures |paths| <= 1 + n * m
  {
    hide *;
    NodesArePrefixes(paths, weights, L);
    AllPrefixesCount(L, m) by { WithinLess(L, n, m); }
    MoreTimes(|L|, n, m) by { WithinLess(L, n, m); }
  }

  lemma WithinLess(L: seq<WPath>, n: nat, m: nat)
    requires Within(L, n, m)
    ensures |L| <= n && Within(L, |L|, m)
  {
  }

  lemma NodesArePrefixes(paths: seq<seq<ItemId>>, weights: seq<int>, L: seq<WPath>)
    requires TrieOf(paths, weights, L)
    ensures |paths| <= |AllPrefixes(L)|
  {
    hide Weight, WellWeighted, AllPrefixes;
    forall p | p in paths ensures p in AllPrefixes(L) {
      var i :| 0 <= i < |paths| && paths[i] == p;
      if i == 0 {
        AllPrefixesRoot(L);
      } else {
        var k :| 0 <= k < |L| && paths[i] <= L[k].items;
        InAllPrefixes(L, k, p);
      }
    }
    DistinctWithin(paths, AllPrefixes(L));
  }

  lemma UniformsWithin(l: seq<Cond>, n: nat, m: nat)
    ensures Within(Uniforms(l), n, m) <==> CondsWithin(l, n, m)
  {
    assert forall k | 0 <= k < |l| :: Uniforms(l)[k].items == l[k].path;
  }

  // Counting nodes instead of adding up weights.

  ghost function Ones(n: nat): (w: seq<int>)
    ensures |w| == n && forall i | 0 <= i < n :: w[i] == 1
  {
    seq(n, _ => 1)
  }

  /** The same paths, each of weight one. */
  ghost function Counted(L: seq<WPath>): (C: seq<WPath>)
    ensures |C| == |L| && forall k | 0 <= k < |L| :: C[k] == Uniform(Cond(L[k].items, 1))
  {
    seq(|L|, k requires 0 <= k < |L| => Uniform(Cond(L[k].items, 1)))
  }

  lemma {:induction false} CountedLoad(L: seq<WPath>, n: nat)
    requires n <= |L|
    ensures Load(Counted(L)[..n]) == n
  {
    if n > 0 {
      CountedLoad(L, n - 1);
      assert Counted(L)[..n][..n - 1] == Counted(L)[..n - 1];
    }
  }

  lemma {:induction false} CountedWeight(L: seq<WPath>, n: nat, k: nat, p: seq<ItemId>)
    requires n <= |L| && p != [] && WellWeighted(Counted(L)[..n])
    ensures Weight(Counted(L)[..n], p) >= if k < n && p <= L[k].items then 1 else 0
  {
    if n > 0 {
      assert Counted(L)[..n][..n - 1] == Counted(L)[..n - 1];
      assert WellWeighted(Counted(L)[..n - 1]);
      CountedWeight(L, n - 1, k, p);
    }
  }

  lemma {:induction false} NodeSumMonotone(paths: seq<seq<ItemId>>, v: seq<int>, w: seq<int>, hi: nat, a: ItemId, Y: ItemSet)
    requires hi <= |paths| == |v| == |w| && forall i | 0 < i < hi :: v[i] <= w[i]
    requires |paths| > 0 && paths[0] == []
    ensures NodeSum(paths, v, hi, a, Y) <= NodeSum(paths, w, hi, a, Y)
  {
    if hi > 0 { NodeSumMonotone(paths, v, w, hi - 1, a, Y); }
  }

  /** An item has at most as many nodes as there are paths. */
  lemma ChainCount(paths: seq<seq<ItemId>>, weights: seq<int>, L: seq<WPath>, a: ItemId)
    requires TrieOf(paths, weights, L)
    ensures NodeSum(paths, Ones(|paths|), |paths|, a, {}) <= |L|
  {
    hide NodeSum, Weight, CondWeight, Load;
    var C := Counted(L);
    assert C[..|L|] == C;
    forall k | 0 <= k < |L| ensures WellFormed(C[k]) { assert WellFormed(L[k]); }
    var counts := seq(|paths|, i requires 0 <= i < |paths| => if i == 0 then 0 else Weight(C, paths[i]));
    forall i | 0 < i < |paths| ensures counts[i] >= 1 && exists k :: 0 <= k < |C| && paths[i] <= C[k].items {
      var k :| 0 <= k < |L| && paths[i] <= L[k].items;
      assert paths[i] <= C[k].items;
      CountedWeight(L, |L|, k, paths[i]);
    }
    assert TrieOf(paths, counts, C) by {
      forall k, n | 0 <= k < |C| && 0 <= n <= |C[k].items| ensures C[k].items[..n] in paths { assert C[k].items == L[k].items; }
    }
    ChainSum(paths, counts, C, a, {});
    NodeSumMonotone(paths, Ones(|paths|), counts, |paths|, a, {});
    LoadBounds(C, a);
    CountedLoad(L, |L|);
  }

  lemma {:induction false} LoadBounds(L: seq<WPath>, a: ItemId)
    requires WellWeighted(L)
    ensures CondWeight(L, a, {}) <= Load(L)
  {
    if L != [] {
      assert WellFormed(L[|L| - 1]);
      LoadBounds(L[..|L| - 1], a);
    }
  }

  // ----- cutting conditional paths to the items that reach the threshold

  /** A conditional list after local pruning: the same weights for itemsets of kept items. */
  ghost predicate Cuts(l: seq<Cond>, keep: ItemSet, cut: seq<Cond>) {
    forall Y: ItemSet | Y != {} && Y <= keep :: Total(cut, Y) == Total(l, Y) && (Occurs(cut, Y) <==> Occurs(l, Y))
  }

  lemma CutSnoc(l: seq<Cond>, keep: ItemSet, cut: seq<Cond>, c: Cond, path: seq<ItemId>)
    requires Cuts(l, keep, cut) && Elems(path) == Elems(c.path) * keep
    ensures Cuts(l + [c], keep, if path == [] then cut else cut + [Cond(path, c.w)])
  {
    hide Total, Occurs;
    forall Y: ItemSet | Y != {} && Y <= keep
      ensures var cut' := if path == [] then cut else cut + [Cond(path, c.w)];
              Total(cut', Y) == Total(l + [c], Y) && (Occurs(cut', Y) <==> Occurs(l + [c], Y))
    {
      CondSnoc(l, c, Y);
      CondSnoc(cut, Cond(path, c.w), Y);
      assert Y <= Elems(c.path) <==> Y <= Elems(path);
      var y :| y in Y;
      if path == [] { assert y !in Elems(path); }
    }
  }

  function Negate(twu: TwuMap): TwuMap {
    map x | x in twu :: -twu[x]
  }

  lemma NegateOrder(twu: TwuMap, s: seq<ItemId>)
    requires SortedItems(Negate(twu), s)
    ensures SortedPath(twu, s)
  {
    forall i, j | 0 <= i < j < |s| ensures Before(twu, s[i], s[j]) {
      assert Less(Negate(twu), s[i], s[j]);
    }
  }

  function Reverse<T>(s: seq<T>): (r: seq<T>)
    ensures |r| == |s| && forall k | 0 <= k < |s| :: r[k] == s[|s| - 1 - k]
  {
    seq(|s|, k requires 0 <= k < |s| => s[|s| - 1 - k])
  }

  lemma ReverseSnoc<T>(s: seq<T>, x: T)
    ensures Reverse(s + [x]) == [x] + Reverse(s)
  {
  }
}
