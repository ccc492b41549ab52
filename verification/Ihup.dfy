/** IHUP: candidates from TWU-weighted prefix trees, then exact utilities
    (src/mining/algorithms/ihup.rs; hup_tree.rs and hui_trie.rs are copies). */
module Ihup {
  import opened Huim
  import opened Options
  import opened Bytes
  import opened PageLayout
  import opened Storage
  import opened Lru
  import opened Pool
  import opened TwuFilter
  import opened UtilityLists
  import opened Memory
  import opened Output
  import opened WeightedPaths
  import opened TreeArena
  import opened PrefixTrees
  import opened ConditionalTrees
  import opened PatternBases
  import opened CandidateCheck

  /** Header chains run from the newest node of an item to the oldest. */
  ghost predicate HeadLinks(nodes: seq<TreeNode>, root: nat, paths: Paths, header: map<ItemId, nat>)
    requires |nodes| == root + |paths|
  {
    && (forall a | a in header :: header[a] == Ptr(root, LastNode(paths, |paths|, a)))
    && (forall i | 0 < i < |paths| :: HeadLinked(nodes, root, paths, i))
  }

  ghost predicate HeadLinked(nodes: seq<TreeNode>, root: nat, paths: Paths, i: nat)
    requires |nodes| == root + |paths| && 0 < i < |paths|
  {
    paths[i] != [] && nodes[root + i].nodeLink == Ptr(root, LastNode(paths, i, paths[i][|paths[i]| - 1]))
  }

  lemma HeadLinksReweigh(nodes: seq<TreeNode>, root: nat, paths: Paths, header: map<ItemId, nat>, k: nat, w: int)
    requires |nodes| == root + |paths| && k < |paths| && HeadLinks(nodes, root, paths, header)
    ensures HeadLinks(nodes[root + k := nodes[root + k].(weight := w)], root, paths, header)
  {
    hide LastNode;
    var nodes' := nodes[root + k := nodes[root + k].(weight := w)];
    forall i | 0 < i < |paths| ensures HeadLinked(nodes', root, paths, i) {
      assert HeadLinked(nodes, root, paths, i);
    }
  }

  lemma HeadLinksGrow(nodes: seq<TreeNode>, root: nat, paths: Paths, header: map<ItemId, nat>, c: nat, item: ItemId, weight: int)
    requires |nodes| == root + |paths| && c < |paths| && HeadLinks(nodes, root, paths, header) && item in header
    ensures HeadLinks(Grown(nodes, root, c, item, weight, header[item]), root, paths + [paths[c] + [item]], header[item := |nodes|])
  {
    hide LastNode;
    var q, m := paths[c] + [item], |paths|;
    var nodes', paths' := Grown(nodes, root, c, item, weight, header[item]), paths + [q];
    forall i | 0 < i < |paths'| ensures HeadLinked(nodes', root, paths', i) {
      if i < m {
        assert HeadLinked(nodes, root, paths, i);
        LastNodeSnoc(paths, q, i, paths[i][|paths[i]| - 1]);
      } else {
        LastNodeSnoc(paths, q, m, item);
      }
    }
    forall a | a in header[item := |nodes|] ensures header[item := |nodes|][a] == Ptr(root, LastNode(paths', |paths'|, a)) {
      LastNodeSnoc(paths, q, m, a);
    }
  }

  class IhupTree {
    const root: nat
    var header: map<ItemId, nat>
    const itemsOrder: seq<ItemId>
    // The paths of the nodes, and the weighted paths inserted so far.
    ghost var paths: Paths
    ghost var inserted: seq<WPath>

    constructor (root: nat, itemsOrder: seq<ItemId>)
      ensures this.root == root && this.itemsOrder == itemsOrder && paths == [[]] && inserted == []
      ensures header.Keys == Elems(itemsOrder) && forall a | a in header :: header[a] == NIL
    {
      this.root := root;
      this.itemsOrder := itemsOrder;
      header := map a | a in Elems(itemsOrder) :: NIL;
      paths := [[]];
      inserted := [];
    }

    /** The arena holds exactly the tree of these weighted paths, from slot root on. */
    ghost predicate Holds(nodes: seq<TreeNode>, L: seq<WPath>)
      reads this
    {
      && Spine(nodes, root, paths) && HeadLinks(nodes, root, paths, header)
      && header.Keys == Elems(itemsOrder) && TrieOf(paths, Weights(nodes, root), L)
    }

    ghost predicate Represents(nodes: seq<TreeNode>)
      reads this
    {
      Holds(nodes, inserted)
    }

    /** One step of an insertion: from the node of the first n items of l to the node of the first n + 1. */
    method Advance(arena: NodeArena, ghost l: WPath, ghost n: nat, current: nat, item: ItemId, twu: int) returns (r: Result<nat>)
      requires arena.Valid() && WellWeighted(inserted) && WellFormed(l) && n < |l.items| && Load(inserted) + l.cap <= I64_MAX
      requires Holds(arena.Nodes(), inserted + [FirstItems(l, n)])
      requires root <= current < arena.next && paths[current - root] == l.items[..n]
      requires item == l.items[n] && twu == l.ws[n] && item in header && item < TWO_32
      modifies this`header, this`paths, arena`pages, arena`next, arena.pool`frames, arena.pool`used, arena.pool`guards,
               arena.pool.store, arena.pool.eviction
      ensures arena.Valid() && Untouched(old(arena.pool.Contents()), old(arena.pages), arena.pool.Contents(), arena.pages)
      ensures arena.next >= old(arena.next) && arena.Nodes()[..root] == old(arena.Nodes()[..root])
      ensures r.Ok? ==> Holds(arena.Nodes(), inserted + [FirstItems(l, n + 1)])
      ensures r.Ok? ==> root <= r.value < arena.next && paths[r.value - root] == l.items[..n + 1]
      ensures arena.pool.store.faults >= old(arena.pool.store.faults)
      ensures r.Err? ==> ArenaExcused(r.error, arena.pool.budget, arena.pool.store.faults > old(arena.pool.store.faults),
                                      old(arena.next) == 0xFFFF_FFFF)
    {
      hide NodeArena.Valid, NodeArena.Nodes, BufferPool.Contents, LastNode, LastChild, TrieOf, HeadLinks, Inner, Outer,
           Load, WellWeighted;
      ghost var nodes, P := arena.Nodes(), paths;
      assert l.items[..n] + [item] == l.items[..n + 1];
      var child := FindChild(arena, root, paths, current, item);
      if child.Err? { return Err(child.error); }
      if child.value.Some? {
        var (ptr, node) := child.value.value;
        FoundStep(nodes, root, paths, header, inserted, l, n, ptr);
        var w := arena.SetNode(ptr, node.(weight := node.weight + twu));
        if w.Err? { return Err(w.error); }
        r := Ok(ptr);
      } else {
        assert InI64(twu) by { assert 0 <= l.ws[n] <= l.cap; LoadNonNegative(inserted); }
        var newChild := arena.AllocateNode(item, twu, current);
        if newChild.Err? { return Err(newChild.error); }
        assert arena.Nodes()[..newChild.value] == nodes;
        var next := header[item];
        NewStep(nodes, root, paths, header, inserted, l, n, current);
        var w := LinkChild(arena, root, paths, current, newChild.value, next);
        if w.Err? { return Err(w.error); }
        header := header[item := newChild.value];
        paths := paths + [l.items[..n + 1]];
        assert arena.Nodes() == Grown(nodes, root, current - root, item, twu, next);
        r := newChild;
      }
    }

    /** Adds one path with one weight. */
    method Insert(arena: NodeArena, path: seq<ItemId>, pathTwu: int, ghost n: nat, ghost m: nat) returns (r: Result<()>)
      requires arena.Valid() && Represents(arena.Nodes()) && WellWeighted(inserted)
      requires Distinct(path) && pathTwu >= 0 && Elems(path) <= Elems(itemsOrder) && Load(inserted) + pathTwu <= I64_MAX
      requires Fits32(Elems(path)) && Within(inserted, n, m) && |path| <= m
      modifies this, arena`pages, arena`next, arena.pool`frames, arena.pool`used, arena.pool`guards,
               arena.pool.store, arena.pool.eviction
      ensures arena.Valid() && Untouched(old(arena.pool.Contents()), old(arena.pages), arena.pool.Contents(), arena.pages)
      ensures arena.next >= old(arena.next) && arena.Nodes()[..root] == old(arena.Nodes()[..root])
      ensures r.Ok? ==> Represents(arena.Nodes()) && inserted == old(inserted) + [Uniform(Cond(path, pathTwu))]
      ensures arena.pool.store.faults >= old(arena.pool.store.faults)
      ensures r.Err? ==> ArenaExcused(r.error, arena.pool.budget, arena.pool.store.faults > old(arena.pool.store.faults),
                                      TreeCrowded(root, n + 1, m))
    {
      hide NodeArena.Valid, NodeArena.Nodes, BufferPool.Contents, LastNode, LastChild, TrieOf, HeadLinks, Inner, Outer,
           Load;
      ghost var l := Uniform(Cond(path, pathTwu));
      TrieStart(paths, Weights(arena.Nodes(), root), inserted, l);
      var current := root;
      for k := 0 to |path|
        invariant arena.Valid() && Untouched(old(arena.pool.Contents()), old(arena.pages), arena.pool.Contents(), arena.pages)
        invariant arena.pool.store.faults >= old(arena.pool.store.faults)
        invariant arena.next >= old(arena.next) && arena.Nodes()[..root] == old(arena.Nodes()[..root])
        invariant inserted == old(inserted) && Holds(arena.Nodes(), inserted + [FirstItems(l, k)])
        invariant root <= current < arena.next && paths[current - root] == path[..k]
      {
        assert path[k] in Elems(path);
        InsertRoom(root, paths, Weights(arena.Nodes(), root), inserted, l, k, n, m);
        var step := Advance(arena, l, k, current, path[k], pathTwu);
        if step.Err? { return Err(step.error); }
        current := step.value;
      }
      TrieEnd(paths, Weights(arena.Nodes(), root), inserted, l);
      inserted := inserted + [l];
      r := Ok(());
    }
  }

  /** The item has a node: only its weight changes. */
  lemma FoundStep(nodes: seq<TreeNode>, root: nat, paths: Paths, header: map<ItemId, nat>, L: seq<WPath>, l: WPath,
                  n: nat, ptr: nat)
    requires Spine(nodes, root, paths) && HeadLinks(nodes, root, paths, header)
    requires WellWeighted(L) && WellFormed(l) && n < |l.items| && Load(L) + l.cap <= I64_MAX
    requires TrieOf(paths, Weights(nodes, root), L + [FirstItems(l, n)])
    requires root < ptr < |nodes| && paths[ptr - root] == l.items[..n + 1]
    ensures var nodes' := nodes[ptr := nodes[ptr].(weight := nodes[ptr].weight + l.ws[n])];
            && Spine(nodes', root, paths) && HeadLinks(nodes', root, paths, header) && NodeFits(nodes'[ptr])
            && TrieOf(paths, Weights(nodes', root), L + [FirstItems(l, n + 1)])
  {
    hide TrieOf, HeadLinks, Load, LastChild, Inner;
    var k := ptr - root;
    TrieFound(paths, Weights(nodes, root), L, l, n, k);
    SpineReweigh(nodes, root, paths, k, nodes[ptr].weight + l.ws[n]);
    HeadLinksReweigh(nodes, root, paths, header, k, nodes[ptr].weight + l.ws[n]);
    assert Outer(nodes, root, paths, k);
  }

  /** The item has no node: a new newest child, at the head of its chain. */
  lemma NewStep(nodes: seq<TreeNode>, root: nat, paths: Paths, header: map<ItemId, nat>, L: seq<WPath>, l: WPath,
                n: nat, current: nat)
    requires Spine(nodes, root, paths) && HeadLinks(nodes, root, paths, header) && |nodes| < NIL
    requires WellWeighted(L) && WellFormed(l) && n < |l.items| && Load(L) + l.cap <= I64_MAX
    requires TrieOf(paths, Weights(nodes, root), L + [FirstItems(l, n)])
    requires root <= current < |nodes| && paths[current - root] == l.items[..n] && l.items[..n + 1] !in paths
    requires l.items[n] in header && l.items[n] < TWO_32
    ensures var item := l.items[n];
            var nodes' := Grown(nodes, root, current - root, item, l.ws[n], header[item]);
            var paths' := paths + [l.items[..n + 1]];
            && header[item] < TWO_32
            && Spine(nodes', root, paths') && HeadLinks(nodes', root, paths', header[item := |nodes|])
            && TrieOf(paths', Weights(nodes', root), L + [FirstItems(l, n + 1)])
  {
    hide TrieOf, HeadLinks, Load, LastChild, Inner, Outer;
    var item, c := l.items[n], current - root;
    assert paths[c] + [item] == l.items[..n + 1];
    assert 0 <= l.ws[n] <= l.cap;
    LoadNonNegative(L);
    HeaderBound(nodes, root, paths, header, item);
    TrieNew(paths, Weights(nodes, root), L, l, n);
    SpineGrow(nodes, root, paths, c, item, l.ws[n], header[item]);
    HeadLinksGrow(nodes, root, paths, header, c, item, l.ws[n]);
  }

  lemma HeaderBound(nodes: seq<TreeNode>, root: nat, paths: Paths, header: map<ItemId, nat>, item: ItemId)
    requires |nodes| == root + |paths| <= NIL && HeadLinks(nodes, root, paths, header) && item in header
    ensures header[item] < TWO_32
  {
  }

  // ----- mining

  /** Walks the header chain of an item: the summed weight of its nodes, and its conditional pattern base. */
  method WalkChain(arena: NodeArena, tree: IhupTree, ghost key: TwuMap, item: ItemId, ghost n: nat, ghost m: nat)
    returns (r: Result<(int, seq<Cond>)>)
    requires Within(tree.inserted, n, m)
    requires arena.Valid() && tree.Represents(arena.Nodes())
    requires forall k | 0 <= k < |tree.inserted| :: SortedPath(key, tree.inserted[k].items) && Elems(tree.inserted[k].items) <= Elems(tree.itemsOrder)
    modifies arena.pool`frames, arena.pool`used, arena.pool`guards, arena.pool.store, arena.pool.eviction
    ensures arena.Valid() && arena.pool.Contents() == old(arena.pool.Contents()) && arena.Nodes() == old(arena.Nodes())
    ensures r.Ok? && item in tree.itemsOrder ==>
              WellWeighted(tree.inserted) && r.value.0 == CondWeight(tree.inserted, item, {})
    ensures r.Ok? && item in tree.itemsOrder ==> Based(tree.inserted, key, Elems(tree.itemsOrder), item, r.value.1)
    ensures r.Ok? && item in tree.itemsOrder ==> forall k | 0 <= k < |r.value.1| :: SortedPath(key, r.value.1[k].path)
    ensures r.Ok? && item in tree.itemsOrder ==> CondsWithin(r.value.1, n, if m == 0 then 0 else m - 1)
    ensures arena.pool.store.faults >= old(arena.pool.store.faults)
    ensures r.Err? ==> ArenaExcused(r.error, arena.pool.budget, arena.pool.store.faults > old(arena.pool.store.faults),
                                    false)
  {
    hide NodeArena.Valid, NodeArena.Nodes, BufferPool.Contents, LastNode, LastChild, TrieOf, Inner, Outer, Load,
         Gathered, RangeSum, HeadLinks,
         Spine, Based, CondWeight, EndsIn;
    ghost var paths, root, nodes := tree.paths, tree.root, arena.Nodes();
    ghost var weights := Weights(nodes, root);
    var curr := if item in tree.header then tree.header[item] else NIL;
    var sum, cpb := 0, [];
    ghost var lo: nat := |paths|;
    ChainStart(nodes, root, paths, tree.header, item);
    GatherStart(paths, weights, item, lo);
    assert RangeSum(paths, weights, lo, |paths|, item, {}) == 0 by { RangeEmpty(paths, weights, lo, item); }
    while curr != NIL
      invariant arena.Valid() && arena.pool.Contents() == old(arena.pool.Contents()) && arena.Nodes() == nodes
      invariant arena.pool.store.faults >= old(arena.pool.store.faults)
      invariant item in tree.header || curr == NIL
      invariant item in tree.header ==> lo <= |paths| && curr == Ptr(root, LastNode(paths, lo, item))
      invariant lo <= |paths| && Gathered(paths, weights, item, lo, |paths|, cpb)
      invariant sum == RangeSum(paths, weights, lo, |paths|, item, {})
      decreases lo
    {
      ghost var k := LastNode(paths, lo, item);
      ChainNode(nodes, root, paths, tree.header, tree.inserted, lo, item);
      var node := arena.GetNode(curr);
      if node.Err? { return Err(node.error); }
      sum := sum + node.value.weight;
      var path := PathAbove(arena, tree.root, paths, k, node.value.parent);
      if path.Err? { return Err(path.error); }
      GatherGap(paths, weights, item, lo, |paths|, cpb, k + 1, |paths|);
      GatherNode(paths, weights, item, k + 1, |paths|, cpb, k);
      if path.value != [] {
        cpb := cpb + [Cond(path.value, node.value.weight)];
      }
      curr := node.value.nodeLink;
      lo := k;
    }
    if item in tree.itemsOrder {
      ChainEnd(nodes, root, paths, lo, item);
      GatherGap(paths, weights, item, lo, |paths|, cpb, 0, |paths|);
      GatherDone(paths, weights, tree.inserted, key, Elems(tree.itemsOrder), item, cpb);
      BaseSorted(paths, weights, tree.inserted, key, Elems(tree.itemsOrder), item, cpb);
      BaseWithin(paths, weights, tree.inserted, item, cpb, n, m);
    }
    r := Ok((sum, cpb));
  }

  lemma ChainStart(nodes: seq<TreeNode>, root: nat, paths: Paths, header: map<ItemId, nat>, item: ItemId)
    requires Spine(nodes, root, paths) && HeadLinks(nodes, root, paths, header)
    ensures |nodes| == root + |paths| <= NIL && (item in header ==> header[item] == Ptr(root, LastNode(paths, |paths|, item)))
  {
  }

  /** The node a chain pointer leads to, and the next pointer. */
  lemma ChainNode(nodes: seq<TreeNode>, root: nat, paths: Paths, header: map<ItemId, nat>, L: seq<WPath>, lo: nat, item: ItemId)
    requires Spine(nodes, root, paths) && HeadLinks(nodes, root, paths, header) && TrieOf(paths, Weights(nodes, root), L)
    requires lo <= |paths| && Ptr(root, LastNode(paths, lo, item)) != NIL
    ensures var k := LastNode(paths, lo, item);
            && 0 < k < lo && EndsIn(paths[k], item) && (forall j | k < j < lo :: !EndsIn(paths[j], item))
            && |nodes| == root + |paths| && nodes[root + k].nodeLink == Ptr(root, LastNode(paths, k, item))
            && paths[k] != [] && Distinct(paths[k]) && nodes[root + k].weight >= 0
  {
    hide LastChild, Weight, Inner, Outer;
    var k := LastNode(paths, lo, item);
    assert k >= 0;
    assert EndsIn(paths[k], item);
    assert HeadLinked(nodes, root, paths, k);
    TrieNode(paths, Weights(nodes, root), L, k);
  }

  lemma ChainEnd(nodes: seq<TreeNode>, root: nat, paths: Paths, lo: nat, item: ItemId)
    requires Spine(nodes, root, paths) && lo <= |paths| && Ptr(root, LastNode(paths, lo, item)) == NIL
    ensures forall j | 0 <= j < lo :: !EndsIn(paths[j], item)
  {
    assert LastNode(paths, lo, item) < lo;
  }

  /** A new tree: its root takes the next slot. */
  method NewTree(arena: NodeArena, itemsOrder: seq<ItemId>) returns (r: Result<IhupTree>)
    requires arena.Valid()
    modifies arena`pages, arena`next, arena.pool`frames, arena.pool`used, arena.pool`guards,
             arena.pool.store, arena.pool.eviction
    ensures arena.Valid() && Untouched(old(arena.pool.Contents()), old(arena.pages), arena.pool.Contents(), arena.pages)
    ensures arena.next >= old(arena.next)
    ensures r.Ok? ==>
              fresh(r.value) && r.value.itemsOrder == itemsOrder && r.value.root == old(arena.next) && r.value.inserted == []
    ensures r.Ok? ==> r.value.Represents(arena.Nodes()) && arena.Nodes()[..old(arena.next)] == old(arena.Nodes())
    ensures arena.pool.store.faults >= old(arena.pool.store.faults)
    ensures r.Err? ==> ArenaExcused(r.error, arena.pool.budget, arena.pool.store.faults > old(arena.pool.store.faults),
                                    old(arena.next) == 0xFFFF_FFFF)
  {
    hide NodeArena.Valid, NodeArena.Nodes, BufferPool.Contents, Spine, HeadLinks, TrieOf;
    var root := arena.AllocateNode(0, 0, NIL);
    if root.Err? { return Err(root.error); }
    var tree := new IhupTree(root.value, itemsOrder);
    SpineNew(arena.Nodes(), root.value);
    assert HeadLinks(arena.Nodes(), root.value, [[]], tree.header) by { HeadLinksNew(arena.Nodes(), root.value, tree.header); }
    r := Ok(tree);
  }

  lemma HeadLinksNew(nodes: seq<TreeNode>, root: nat, header: map<ItemId, nat>)
    requires |nodes| == root + 1 && forall a | a in header :: header[a] == NIL
    ensures HeadLinks(nodes, root, [[]], header)
  {
    forall a ensures LastNode([[]], 1, a) == -1 {
      assert !EndsIn([[]][0], a);
    }
  }

  /** One path of a pattern base: cut to the kept items and, unless nothing is left, inserted. */
  method AddPath(arena: NodeArena, tree: IhupTree, ghost key: TwuMap, cpb: seq<Cond>, k: nat, keep: ItemSet, ghost cut: seq<Cond>,
                 ghost n: nat, ghost m: nat)
    returns (r: Result<()>, ghost next: seq<Cond>)
    requires arena.Valid() && tree.Represents(arena.Nodes()) && tree.inserted == Uniforms(cut)
    requires Weighted(cpb) && Total(cpb, {}) <= I64_MAX && Elems(tree.itemsOrder) == keep && Fits32(keep)
    requires k < |cpb| && CondsWithin(cpb, n, m) && SortedPath(key, cpb[k].path)
    requires CutBase(cpb, k, keep, key, cut) && forall i | 0 <= i < |cut| :: |cut[i].path| <= m
    modifies tree, arena`pages, arena`next, arena.pool`frames, arena.pool`used, arena.pool`guards,
             arena.pool.store, arena.pool.eviction
    ensures arena.Valid() && Untouched(old(arena.pool.Contents()), old(arena.pages), arena.pool.Contents(), arena.pages)
    ensures arena.next >= old(arena.next) && arena.Nodes()[..tree.root] == old(arena.Nodes()[..tree.root])
    ensures r.Ok? ==> tree.Represents(arena.Nodes()) && tree.inserted == Uniforms(next)
    ensures r.Ok? ==> CutBase(cpb, k + 1, keep, key, next) && forall i | 0 <= i < |next| :: |next[i].path| <= m
    ensures arena.pool.store.faults >= old(arena.pool.store.faults)
    ensures r.Err? ==> ArenaExcused(r.error, arena.pool.budget, arena.pool.store.faults > old(arena.pool.store.faults),
                                    TreeCrowded(tree.root, n, m))
  {
    hide NodeArena.Valid, NodeArena.Nodes, BufferPool.Contents, IhupTree.Holds, CutBase, Total, SortedPath, Cuts,
         TreeCrowded;
    r, next := Ok(()), cut;
    var filtered := FilterPath(cpb[k].path, keep);
    FilterPathShort(cpb[k].path, keep);
    FilterPathIs(key, cpb[k].path, keep);
    CutBaseStep(cpb, k, keep, key, cut, filtered);
    if filtered != [] {
      CutWithin(cpb, k, keep, key, cut, m);
      UniformsSnoc(cpb, k, keep, key, cut, Cond(filtered, cpb[k].w));
      r := tree.Insert(arena, filtered, cpb[k].w, k, m);
      if r.Err? && TreeCrowded(tree.root, k + 1, m) { CrowdedMore(tree.root, k + 1, n, m); }
      next := cut + [Cond(filtered, cpb[k].w)];
    }
  }

  /** The conditional tree of a pattern base, cut to the locally kept items. It is built from the first
      free slot on, so nothing of the enclosing trees is overwritten. */
  method BuildConditional(arena: NodeArena, ghost key: TwuMap, cpb: seq<Cond>, keep: ItemSet, localItems: seq<ItemId>,
                          ghost n: nat, ghost m: nat)
    returns (r: Result<IhupTree>, ghost cut: seq<Cond>)
    requires arena.Valid() && Weighted(cpb) && Total(cpb, {}) <= I64_MAX && Elems(localItems) == keep
    requires Fits32(keep) && CondsWithin(cpb, n, m)
    requires forall k | 0 <= k < |cpb| :: SortedPath(key, cpb[k].path)
    modifies arena`pages, arena`next, arena.pool`frames, arena.pool`used, arena.pool`guards,
             arena.pool.store, arena.pool.eviction
    ensures arena.Valid() && Untouched(old(arena.pool.Contents()), old(arena.pages), arena.pool.Contents(), arena.pages)
    ensures r.Ok? ==> fresh(r.value) && r.value.itemsOrder == localItems && r.value.inserted == Uniforms(cut)
    ensures r.Ok? ==> CutBase(cpb, |cpb|, keep, key, cut)
    ensures r.Ok? ==> r.value.Represents(arena.Nodes())
    ensures r.Ok? ==> Within(r.value.inserted, n, m) && TreeEnds(arena.next, old(arena.next), n, m)
    ensures r.Ok? ==> old(arena.next) <= arena.next && arena.Nodes()[..old(arena.next)] == old(arena.Nodes())
    ensures arena.pool.store.faults >= old(arena.pool.store.faults)
    ensures r.Err? ==> ArenaExcused(r.error, arena.pool.budget, arena.pool.store.faults > old(arena.pool.store.faults),
                                    TreeCrowded(old(arena.next), n, m))
  {
    hide NodeArena.Valid, NodeArena.Nodes, BufferPool.Contents, IhupTree.Holds, CutBase, Total, AllSorted, SortedPath,
         Cuts;
    cut := [];
    ghost var saved, nodes := arena.next, arena.Nodes();
    r := NewTree(arena, localItems);
    if r.Err? { return; }
    var tree := r.value;
    CutBaseStart(cpb, keep, key);
    for k := 0 to |cpb|
      invariant arena.Valid() && Untouched(old(arena.pool.Contents()), old(arena.pages), arena.pool.Contents(), arena.pages)
      invariant arena.pool.store.faults >= old(arena.pool.store.faults)
      invariant tree.Represents(arena.Nodes()) && tree.inserted == Uniforms(cut)
      invariant CutBase(cpb, k, keep, key, cut) && forall i | 0 <= i < |cut| :: |cut[i].path| <= m
      invariant saved <= arena.next && arena.Nodes()[..saved] == nodes
    {
      var w;
      w, cut := AddPath(arena, tree, key, cpb, k, keep, cut, n, m);
      if w.Err? { return Err(w.error), cut; }
    }
    CutWithin(cpb, |cpb|, keep, key, cut, m);
    TreeReach(arena, tree, n, m);
  }

  /** Where the nodes of a tree end. */
  lemma TreeReach(arena: NodeArena, tree: IhupTree, n: nat, m: nat)
    requires arena.Valid() && tree.Represents(arena.Nodes()) && Within(tree.inserted, n, m)
    ensures TreeEnds(arena.next, tree.root, n, m)
  {
    TreeEndsAt(tree.root, tree.paths, Weights(arena.Nodes(), tree.root), tree.inserted, n, m);
  }

  /** One item of the header table: its own candidate, then, recursively, its conditional tree. Whatever
      happens below, the arena is back to what it was. */
  method MineItem(ghost g: Search, tree: IhupTree, arena: NodeArena, prefix: seq<ItemId>, item: ItemId,
                  ghost later: ItemSet, min: int,
                  guard: MemoryGuard, ghost n: nat, ghost m: nat)
    returns (r: Result<()>, found: seq<seq<ItemId>>)
    requires arena.Valid() && tree.Represents(arena.Nodes()) && min == g.min && Distinct(prefix) && Fits32(g.items)
    requires Level(g, tree.inserted, g.key, Elems(tree.itemsOrder), Elems(prefix)) && SortedPath(g.key, tree.itemsOrder)
    requires item in tree.itemsOrder && Earlier(g.key, Elems(tree.itemsOrder), item, later) && Within(tree.inserted, n, m)
    modifies guard, arena`pages, arena`next, arena.pool`frames, arena.pool`used, arena.pool`guards,
             arena.pool.store, arena.pool.eviction
    ensures arena.Valid() && Untouched(old(arena.pool.Contents()), old(arena.pages), arena.pool.Contents(), arena.pages)
    ensures r.Ok? ==> arena.Nodes() == old(arena.Nodes())
    ensures r.Ok? ==> Lists(found, Branch(Elems(prefix), item, later) * Heavy(g))
    ensures r.Ok? ==> guard.used == old(guard.used) + CandidateBytes(found)
    ensures arena.pool.store.faults >= old(arena.pool.store.faults)
    ensures r.Err? ==> ArenaExcused(r.error, arena.pool.budget, arena.pool.store.faults > old(arena.pool.store.faults),
                                    Crowded(old(arena.next), n, m))
    decreases |tree.itemsOrder|, 1
  {
    hide NodeArena.Valid, NodeArena.Nodes, BufferPool.Contents, IhupTree.Holds, CutBase, Total, AllSorted, SortedPath,
         Cuts, Based, Occurs,
         Level, Lists, Branch, Family, Heavy, Earlier, Weighted, Distinct, WellWeighted, CondWeight, KeptLocally, Load,
         CandidateBytes;
    ghost var P, E := Elems(prefix), Elems(tree.itemsOrder);
    found := [];
    LevelPaths(g, tree.inserted, g.key, E, P);
    var walk := WalkChain(arena, tree, g.key, item, n, m);
    LevelDepth(g, tree.inserted, g.key, E, P, item, n, m);
    if walk.Err? { return Err(walk.error), []; }
    var (sum, cpb) := walk.value;
    BranchRoot(g, tree.inserted, g.key, E, P, item, later);
    if sum < min {
      ListsNothing(Branch(P, item, later) * Heavy(g));
      assert CandidateBytes([]) == 0 by { NoBytes(); }
      return Ok(()), [];
    }
    guard.ForceAlloc((|prefix| + 1) * 8);
    var newPrefix := prefix + [item];
    found := [newPrefix];
    NewPrefix(g, tree.inserted, g.key, E, prefix, item);
    BaseFacts(tree.inserted, g.key, E, item, cpb);
    var local := LocalTwu(cpb);
    var keep := LocallyKept(local, min);
    KeptIs(cpb, local, min);
    BranchKept(g, tree.inserted, g.key, E, P, item, cpb, keep, later);
    if keep == {} {
      NothingDeeper(g, P + {item}, later);
      ListsBranch(Heavy(g), prefix, item, later, []);
      assert [newPrefix] + [] == [newPrefix];
      OneCandidate(newPrefix);
      return Ok(()), found;
    }
    var below, deeper := MineBelow(g, tree, arena, prefix, item, cpb, keep, min, guard, n, m);
    if below.Err? { return below, []; }
    ListsBranch(Heavy(g), prefix, item, later, deeper);
    CandidateBytesConcat([newPrefix], deeper);
    OneCandidate(newPrefix);
    found := [newPrefix] + deeper;
    r := Ok(());
  }

  /** Builds, mines and discards the conditional tree of an item. */
  method MineBelow(ghost g: Search, tree: IhupTree, arena: NodeArena, prefix: seq<ItemId>, item: ItemId, cpb: seq<Cond>,
                   keep: ItemSet, min: int,
                   guard: MemoryGuard, ghost n: nat, ghost m: nat)
    returns (r: Result<()>, deeper: seq<seq<ItemId>>)
    requires arena.Valid() && tree.Represents(arena.Nodes()) && min == g.min && Distinct(prefix) && Fits32(g.items)
    requires Level(g, tree.inserted, g.key, Elems(tree.itemsOrder), Elems(prefix)) && SortedPath(g.key, tree.itemsOrder)
    requires item in tree.itemsOrder && Based(tree.inserted, g.key, Elems(tree.itemsOrder), item, cpb)
    requires KeptLocally(cpb, min, keep) && m > 0 && CondsWithin(cpb, n, m - 1)
    requires forall k | 0 <= k < |cpb| :: SortedPath(g.key, cpb[k].path)
    modifies guard, arena`pages, arena`next, arena.pool`frames, arena.pool`used, arena.pool`guards,
             arena.pool.store, arena.pool.eviction
    ensures arena.Valid() && Untouched(old(arena.pool.Contents()), old(arena.pages), arena.pool.Contents(), arena.pages)
    ensures r.Ok? ==> arena.Nodes() == old(arena.Nodes())
    ensures r.Ok? ==> Lists(deeper, Family(Elems(prefix) + {item}, keep) * Heavy(g))
    ensures r.Ok? ==> guard.used == old(guard.used) + CandidateBytes(deeper)
    ensures arena.pool.store.faults >= old(arena.pool.store.faults)
    ensures r.Err? ==> ArenaExcused(r.error, arena.pool.budget, arena.pool.store.faults > old(arena.pool.store.faults),
                                    Crowded(old(arena.next), n, m))
    decreases |tree.itemsOrder|, 0
  {
    hide NodeArena.Valid, NodeArena.Nodes, BufferPool.Contents, IhupTree.Holds, CutBase, Total, AllSorted, SortedPath,
         Cuts, Based, Occurs,
         Level, Lists, Family, Heavy, Weighted, Distinct, WellWeighted, CondWeight, KeptLocally, Load, Uniforms,
         CandidateBytes, Fits32;
    ghost var P, E := Elems(prefix), Elems(tree.itemsOrder);
    LevelPaths(g, tree.inserted, g.key, E, P);
    NewPrefix(g, tree.inserted, g.key, E, prefix, item);
    BaseFacts(tree.inserted, g.key, E, item, cpb);
    // Sorting the kept items by their position in the enclosing order keeps that order.
    var localItems := FilterPath(tree.itemsOrder, keep);
    FilterPathIs(g.key, tree.itemsOrder, keep);
    LocalItems(g, tree.inserted, g.key, E, P, item, cpb, keep, tree.itemsOrder, localItems);
    var savedPtr := arena.next;
    ghost var nodes := arena.Nodes();
    var condTree, cut := BuildConditional(arena, g.key, cpb, keep, localItems, n, m - 1);
    CrowdedAbove(savedPtr, arena.next, n, m);
    if condTree.Err? { return Err(condTree.error), []; }
    ConditionalLevel(g, tree.inserted, g.key, E, P, item, cpb, keep, cut);
    r, deeper := MineTree(g, condTree.value, arena, prefix + [item], min, guard, n, m - 1);
    if r.Err? { return; }
    arena.Reset(savedPtr);
  }

  lemma LocalItems(g: Search, L: seq<WPath>, key: TwuMap, E: ItemSet, P: ItemSet, a: ItemId, cpb: seq<Cond>, keep: ItemSet,
                   order: seq<ItemId>, localItems: seq<ItemId>)
    requires Level(g, L, key, E, P) && a in E && Based(L, key, E, a, cpb) && KeptLocally(cpb, g.min, keep) && Fits32(g.items)
    requires E == Elems(order) && SortedPath(key, order) && Elems(localItems) == E * keep && SortedPath(key, localItems)
    ensures Elems(localItems) == keep && Fits32(keep) && |localItems| < |order|
  {
    hide Based, Occurs, Total;
    forall x | x in keep ensures x in E && x in g.items && x != a {
      KeptAbove(g, L, key, E, P, a, cpb, keep, x);
      assert x in P + E;
    }
    assert keep == E * keep;
    SortedDistinct(key, order);
    SortedDistinct(key, localItems);
    DistinctCount(order);
    DistinctCount(localItems);
    assert a in E - keep;
    assert E == keep + (E - keep);
    assert |E| == |keep| + |E - keep|;
  }

  lemma ConditionalLevel(g: Search, L: seq<WPath>, key: TwuMap, E: ItemSet, P: ItemSet, a: ItemId, cpb: seq<Cond>,
                         keep: ItemSet, cut: seq<Cond>)
    requires Level(g, L, key, E, P) && a in E && Based(L, key, E, a, cpb) && KeptLocally(cpb, g.min, keep)
    requires CutBase(cpb, |cpb|, keep, key, cut)
    ensures Level(g, Uniforms(cut), key, keep, P + {a})
  {
    assert cpb[..|cpb|] == cpb;
    NextLevel(g, L, key, E, P, a, cpb, keep, cut, key);
  }

  /** All items of a tree, in reverse tree order: exactly the heavy itemsets that extend the prefix by
      items of the tree. */
  method MineTree(ghost g: Search, tree: IhupTree, arena: NodeArena, prefix: seq<ItemId>, min: int, guard: MemoryGuard,
                  ghost n: nat, ghost m: nat)
    returns (r: Result<()>, candidates: seq<seq<ItemId>>)
    requires arena.Valid() && tree.Represents(arena.Nodes()) && min == g.min && Distinct(prefix) && Fits32(g.items)
    requires Level(g, tree.inserted, g.key, Elems(tree.itemsOrder), Elems(prefix)) && SortedPath(g.key, tree.itemsOrder)
    requires Within(tree.inserted, n, m)
    modifies guard, arena`pages, arena`next, arena.pool`frames, arena.pool`used, arena.pool`guards,
             arena.pool.store, arena.pool.eviction
    ensures arena.Valid() && Untouched(old(arena.pool.Contents()), old(arena.pages), arena.pool.Contents(), arena.pages)
    ensures r.Ok? ==> arena.Nodes() == old(arena.Nodes())
    ensures r.Ok? ==> Lists(candidates, Family(Elems(prefix), Elems(tree.itemsOrder)) * Heavy(g))
    ensures r.Ok? ==> guard.used == old(guard.used) + CandidateBytes(candidates)
    ensures arena.pool.store.faults >= old(arena.pool.store.faults)
    ensures r.Err? ==> ArenaExcused(r.error, arena.pool.budget, arena.pool.store.faults > old(arena.pool.store.faults),
                                    Crowded(old(arena.next), n, m))
    decreases |tree.itemsOrder|, 2
  {
    hide NodeArena.Valid, NodeArena.Nodes, BufferPool.Contents, IhupTree.Holds, SortedPath, Level, Lists, Branch,
         Family, Heavy, Earlier,
         Distinct, Covered, CandidateBytes;
    candidates := [];
    ghost var P, rev := Elems(prefix), Reverse(tree.itemsOrder);
    LevelPaths(g, tree.inserted, g.key, Elems(tree.itemsOrder), P);
    ReversedOrder(g.key, P, tree.itemsOrder);
    ListsLoopStart(P, rev, Heavy(g));
    NoBytes();
    for i := 0 to |tree.itemsOrder|
      invariant arena.Valid() && Untouched(old(arena.pool.Contents()), old(arena.pages), arena.pool.Contents(), arena.pages)
      invariant arena.pool.store.faults >= old(arena.pool.store.faults)
      invariant arena.Nodes() == old(arena.Nodes())
      invariant Lists(candidates, Covered(P, rev, i) * Heavy(g))
      invariant guard.used == old(guard.used) + CandidateBytes(candidates)
    {
      var item := tree.itemsOrder[|tree.itemsOrder| - 1 - i];
      assert item == rev[i];
      assert arena.next == |arena.Nodes()|;
      var step, more := MineItem(g, tree, arena, prefix, item, Elems(rev[i + 1..]), min, guard, n, m);
      if step.Err? { return step, []; }
      ListsLoopStep(P, rev, i, Heavy(g), candidates, more);
      CandidateBytesConcat(candidates, more);
      candidates := candidates + more;
    }
    CoveredEnds(P, rev);
    r := Ok(());
  }

  // ----- the run

  /** The conditional list of the first n transactions. */
  ghost predicate Carries(db: Database, n: nat, keys: ItemSet, l: seq<Cond>)
    requires n <= |db|
  {
    forall X: ItemSet | X != {} && X <= keys :: Total(l, X) == Twu(db[..n], X) && (Occurs(l, X) <==> Supported(db[..n], X))
  }

  /** The state of the main tree's path list after n transactions. */
  ghost predicate Global(db: Database, n: nat, twu: TwuMap, l: seq<Cond>)
    requires n <= |db|
  {
    && Carries(db, n, twu.Keys, l) && Weighted(l) && AllSorted(twu, l) && Total(l, {}) <= TotalTu(db[..n])
    && (forall k | 0 <= k < |l| :: Elems(l[k].path) <= twu.Keys)
  }

  lemma GlobalStart(db: Database, twu: TwuMap)
    ensures Global(db, 0, twu, [])
  {
  }

  lemma GlobalStep(db: Database, n: nat, twu: TwuMap, l: seq<Cond>, path: seq<ItemId>)
    requires ValidDatabase(db) && n < |db| && Global(db, n, twu, l)
    requires Elems(path) == ItemsOf(db[n].items) * twu.Keys && SortedPath(twu, path)
    ensures Global(db, n + 1, twu, if path == [] then l else l + [Cond(path, db[n].tu)])
    ensures db[n].tu >= 0 && Total(l + [Cond(path, db[n].tu)], {}) <= TotalTu(db[..n + 1]) && Distinct(path)
  {
    hide Total, Occurs, Supported, Twu, UtilityIn;
    var c := Cond(path, db[n].tu);
    var l' := if path == [] then l else l + [c];
    TuCovers(db, n);
    PrefixStep(db, n, {}, {});
    CondSnoc(l, c, {});
    SortedDistinct(twu, path);
    forall X: ItemSet | X != {} && X <= twu.Keys
      ensures Total(l', X) == Twu(db[..n + 1], X) && (Occurs(l', X) <==> Supported(db[..n + 1], X))
    {
      PrefixStep(db, n, X, {});
      CondSnoc(l, c, X);
      assert X <= ItemsOf(db[n].items) <==> X <= Elems(path);
      var x :| x in X;
      if path == [] { assert x !in Elems(path); }
    }
    forall k | 0 <= k < |l'| ensures l'[k].w >= 0 && Distinct(l'[k].path) && SortedPath(twu, l'[k].path) && Elems(l'[k].path) <= twu.Keys {
      if k < |l| { assert l'[k] == l[k]; }
    }
  }

  /** The kept items of a transaction, by descending TWU. */
  method SortedItemsOf(t: Transaction, twu: TwuMap) returns (path: seq<ItemId>)
    ensures Elems(path) == ItemsOf(t.items) * twu.Keys && SortedPath(twu, path)
  {
    path := SortedKeys(Negate(twu), ItemsOf(t.items) * twu.Keys);
    NegateOrder(twu, path);
  }

  /** One transaction of the second pass. */
  method AddTransaction(db: Database, n: nat, twu: TwuMap, arena: NodeArena, tree: IhupTree, ghost l: seq<Cond>)
    returns (r: Result<()>, ghost next: seq<Cond>)
    requires ValidDatabase(db) && FitsWidths(db) && Fits32(twu.Keys) && Elems(tree.itemsOrder) == twu.Keys && n < |db|
    requires arena.Valid() && tree.Represents(arena.Nodes()) && tree.inserted == Uniforms(l)
    requires Global(db, n, twu, l) && Within(tree.inserted, n, Longest(db))
    modifies tree, arena`pages, arena`next, arena.pool`frames, arena.pool`used, arena.pool`guards,
             arena.pool.store, arena.pool.eviction
    ensures arena.Valid() && Untouched(old(arena.pool.Contents()), old(arena.pages), arena.pool.Contents(), arena.pages)
    ensures r.Ok? ==> tree.Represents(arena.Nodes()) && tree.inserted == Uniforms(next)
    ensures r.Ok? ==> Global(db, n + 1, twu, next) && Within(tree.inserted, n + 1, Longest(db))
    ensures arena.pool.store.faults >= old(arena.pool.store.faults)
    ensures r.Err? ==> ArenaExcused(r.error, arena.pool.budget, arena.pool.store.faults > old(arena.pool.store.faults),
                                    TreeCrowded(tree.root, |db|, Longest(db)))
  {
    hide NodeArena.Valid, NodeArena.Nodes, BufferPool.Contents, IhupTree.Holds, Global, Total, SortedPath,
         ValidDatabase, FitsWidths, Twu, TreeCrowded;
    r, next := Ok(()), l;
    var path := SortedItemsOf(db[n], twu);
    GlobalStep(db, n, twu, l, path);
    if path != [] {
      GlobalRoom(db, n, twu, l, Cond(path, db[n].tu));
      PathShort(db, n, twu, path);
      r := tree.Insert(arena, path, db[n].tu, n, Longest(db));
      if r.Err? && TreeCrowded(tree.root, n + 1, Longest(db)) { CrowdedMore(tree.root, n + 1, |db|, Longest(db)); }
      next := l + [Cond(path, db[n].tu)];
    }
  }

  /** Second pass: the global tree. */
  method BuildGlobal(db: Database, twu: TwuMap, arena: NodeArena, tree: IhupTree) returns (r: Result<()>, ghost l: seq<Cond>)
    requires ValidDatabase(db) && FitsWidths(db) && Fits32(twu.Keys) && Elems(tree.itemsOrder) == twu.Keys
    requires arena.Valid() && tree.Represents(arena.Nodes()) && tree.inserted == []
    modifies tree, arena`pages, arena`next, arena.pool`frames, arena.pool`used, arena.pool`guards,
             arena.pool.store, arena.pool.eviction
    ensures arena.Valid() && Untouched(old(arena.pool.Contents()), old(arena.pages), arena.pool.Contents(), arena.pages)
    ensures r.Ok? ==> Within(tree.inserted, |db|, Longest(db)) && TreeEnds(arena.next, tree.root, |db|, Longest(db))
    ensures r.Ok? ==> tree.Represents(arena.Nodes()) && tree.inserted == Uniforms(l) && Global(db, |db|, twu, l)
    ensures arena.pool.store.faults >= old(arena.pool.store.faults)
    ensures r.Err? ==> ArenaExcused(r.error, arena.pool.budget, arena.pool.store.faults > old(arena.pool.store.faults),
                                    TreeCrowded(tree.root, |db|, Longest(db)))
  {
    hide NodeArena.Valid, NodeArena.Nodes, BufferPool.Contents, IhupTree.Holds, Global, Total, SortedPath,
         ValidDatabase, FitsWidths, Twu, TreeCrowded, TreeEnds;
    l := [];
    GlobalStart(db, twu);
    for n := 0 to |db|
      invariant arena.Valid() && Untouched(old(arena.pool.Contents()), old(arena.pages), arena.pool.Contents(), arena.pages)
      invariant arena.pool.store.faults >= old(arena.pool.store.faults)
      invariant tree.Represents(arena.Nodes()) && tree.inserted == Uniforms(l) && Global(db, n, twu, l)
      invariant Within(tree.inserted, n, Longest(db))
    {
      var w;
      w, l := AddTransaction(db, n, twu, arena, tree, l);
      if w.Err? { return w, l; }
    }
    TreeReach(arena, tree, |db|, Longest(db));
    r := Ok(());
  }

  lemma PathShort(db: Database, n: nat, twu: TwuMap, path: seq<ItemId>)
    requires n < |db| && Elems(path) <= ItemsOf(db[n].items) && Distinct(path)
    ensures |path| <= Longest(db)
  {
    DistinctCount(path);
    SubsetCount(Elems(path), ItemsOf(db[n].items));
    ItemsOfCount(db[n].items);
  }

  lemma SubsetCount(a: ItemSet, b: ItemSet)
    requires a <= b
    ensures |a| <= |b|
  {
    assert b == a + (b - a);
  }

  lemma {:induction false} ItemsOfCount(es: seq<ItemEntry>)
    ensures |ItemsOf(es)| <= |es|
  {
    if es == [] {
      assert ItemsOf(es) == {};
    } else {
      var n := |es| - 1;
      ItemsOfCount(es[..n]);
      assert es == es[..n] + [es[n]];
      ItemsOfSnoc(es[..n], es[n]);
    }
  }

  lemma GlobalRoom(db: Database, n: nat, twu: TwuMap, l: seq<Cond>, c: Cond)
    requires ValidDatabase(db) && FitsWidths(db) && n < |db| && Global(db, n, twu, l)
    requires Total(l + [c], {}) <= TotalTu(db[..n + 1])
    ensures Uniforms(l + [c]) == Uniforms(l) + [Uniform(c)] && WellWeighted(Uniforms(l)) && Load(Uniforms(l)) + c.w <= I64_MAX
  {
    UniformsFormed(l);
    UniformLoad(l, |l|);
    assert Uniforms(l)[..|l|] == Uniforms(l) && l[..|l|] == l;
    CondSnoc(l, c, {});
    PrefixTotal(db, n + 1);
  }

  /** At the top, the fixed estimate is the TWU in the original database. */
  lemma GlobalEstimate(db: Database, min: int, twu: TwuMap, l: seq<Cond>, X: ItemSet)
    requires Global(db, |db|, twu, l) && WellWeighted(Uniforms(l)) && X != {} && X <= twu.Keys
    ensures EstimateIs(Search(Uniforms(l), twu, twu.Keys, min), X, Twu(db, X), Supported(db, X))
  {
    assert db[..|db|] == db;
    forall a | IsLast(twu, X, a)
      ensures Twu(db, X) == CondWeight(Uniforms(l), a, X - {a}) && (Supported(db, X) <==> Passed(Uniforms(l), a, X - {a}))
    {
      UniformCondWeight(twu, l, |l|, a, X - {a});
      UniformOccurs(twu, l, a, X - {a});
      assert Uniforms(l)[..|l|] == Uniforms(l) && l[..|l|] == l;
      assert X - {a} + {a} == X;
    }
  }

  /** At every depth of the recursion, whatever was cut on the way, the summed weight of an item's header
      chain is the TWU of prefix + item in the original database. */
  lemma ChainIsTwu(db: Database, min: int, twu: TwuMap, l: seq<Cond>, L: seq<WPath>, key: TwuMap, E: ItemSet,
                   P: ItemSet, a: ItemId)
    requires Global(db, |db|, twu, l) && Level(Search(Uniforms(l), twu, twu.Keys, min), L, key, E, P) && a in E
    ensures WellWeighted(L) && CondWeight(L, a, {}) == Twu(db, P + {a})
  {
    hide CondWeight, Total, Twu, Passed, IsLast, Global;
    var g := Search(Uniforms(l), twu, twu.Keys, min);
    var X := P + {a};
    assert P + {} + {a} == X && a in X && X <= twu.Keys;
    assert Measured(g, L, P, a, {});
    GlobalEstimate(db, min, twu, l, X);
    var b := LastExists(twu, X);
  }

  lemma GlobalLevel(db: Database, min: int, twu: TwuMap, l: seq<Cond>)
    requires ValidDatabase(db) && FitsWidths(db) && IsTwuFilter(db, min, twu) && Global(db, |db|, twu, l)
    ensures var g := Search(Uniforms(l), twu, twu.Keys, min); Level(g, g.paths, twu, twu.Keys, {})
  {
    hide Total, Occurs, CondWeight, Twu, Before, Passed, Level, ValidDatabase;
    var g := Search(Uniforms(l), twu, twu.Keys, min);
    assert db[..|db|] == db;
    UniformsFormed(l);
    UniformLoad(l, |l|);
    assert Uniforms(l)[..|l|] == Uniforms(l) && l[..|l|] == l;
    PrefixTotal(db, |db|);
    forall a | a in twu.Keys ensures Passed(g.paths, a, {}) {
      CarriedItem(db, twu, l, a);
    }
    assert forall k | 0 <= k < |l| :: g.paths[k].items == l[k].path;
    TopLevel(g);
  }

  lemma CarriedItem(db: Database, twu: TwuMap, l: seq<Cond>, a: ItemId)
    requires Global(db, |db|, twu, l) && a in twu && Supported(db, {a})
    ensures Passed(Uniforms(l), a, {})
  {
    assert db[..|db|] == db;
    UniformOccurs(twu, l, a, {});
    assert {} + {a} == {a} && Occurs(l, {a});
  }

  lemma GlobalHeavy(db: Database, min: int, twu: TwuMap, l: seq<Cond>)
    requires ValidDatabase(db) && IsTwuFilter(db, min, twu) && Global(db, |db|, twu, l) && WellWeighted(Uniforms(l))
    ensures Family({}, twu.Keys) * Heavy(Search(Uniforms(l), twu, twu.Keys, min)) == TwuHeavy(db, min)
  {
    hide IsHeavy, Global, TwuHeavy;
    var g := Search(Uniforms(l), twu, twu.Keys, min);
    forall X ensures X in Family({}, twu.Keys) && IsHeavy(g, X) <==> X in TwuHeavy(db, min) {
      GlobalHeavyAt(db, min, twu, l, X);
    }
  }

  lemma GlobalHeavyAt(db: Database, min: int, twu: TwuMap, l: seq<Cond>, X: ItemSet)
    requires ValidDatabase(db) && IsTwuFilter(db, min, twu) && Global(db, |db|, twu, l) && WellWeighted(Uniforms(l))
    ensures X in Family({}, twu.Keys) && IsHeavy(Search(Uniforms(l), twu, twu.Keys, min), X) <==> X in TwuHeavy(db, min)
  {
    hide EstimateIs, IsHeavy, Global, Twu, Supported;
    if X in TwuHeavy(db, min) { HeavyKept(db, min, twu, X); }
    if X != {} && X <= twu.Keys {
      GlobalEstimate(db, min, twu, l, X);
      HeavyEstimate(Search(Uniforms(l), twu, twu.Keys, min), X, Twu(db, X), Supported(db, X));
    }
  }

  lemma HeavyKept(db: Database, min: int, twu: TwuMap, X: ItemSet)
    requires ValidDatabase(db) && IsTwuFilter(db, min, twu) && X in TwuHeavy(db, min)
    ensures X <= twu.Keys
  {
    forall x | x in X ensures x in twu {
      SupportedMonotone(db, {x}, X);
      TwuMonotone(db, {x}, X);
    }
  }

  /** Second pass and mining: every supported itemset of sufficient TWU. */
  method MineDatabase(db: Database, min: int, twu: TwuMap, guard: MemoryGuard, pool: BufferPool)
    returns (r: Result<()>, cands: seq<seq<ItemId>>)
    requires ValidDatabase(db) && FitsWidths(db) && pool.Valid() && pool.Idle() && IsTwuFilter(db, min, twu) && Fits32(twu.Keys)
    modifies guard, pool`frames, pool`used, pool`guards, pool.store, pool.eviction
    ensures pool.Valid() && pool.Idle() && Grows(old(pool.Contents()), pool.Contents())
    ensures pool.store.faults >= old(pool.store.faults)
    ensures r.Err? ==> ArenaExcused(r.error, pool.budget, pool.store.faults > old(pool.store.faults), PointersShort(db))
    ensures r.Ok? ==> Lists(cands, TwuHeavy(db, min)) && guard.used == old(guard.used) + CandidateBytes(cands)
  {
    hide Consistent, Overlay, ResidentBytes, PinnedBytes, Data, PagesOf, ChunkStore.Pages, ChunkStore.Valid,
         ChunkStore.Stored,
         LruPolicy.Valid, Codec.Valid, NodeArena.Nodes, IhupTree.Holds, SortedPath, Level, Lists, Family, Heavy,
         TwuHeavy,
         ValidDatabase, FitsWidths, IsTwuFilter, Global, Slots, Distinct, CandidateBytes;
    var validItems := SortedKeys(Negate(twu), twu.Keys);
    NegateOrder(twu, validItems);
    var arena := new NodeArena(pool);
    CrowdedRun(db, arena.next);
    var tree := NewTree(arena, validItems);
    if tree.Err? { return Err(tree.error), []; }
    var built, l := BuildGlobal(db, twu, arena, tree.value);
    CrowdedRun(db, arena.next);
    if built.Err? { return built, []; }
    GlobalLevel(db, min, twu, l);
    ghost var g := Search(Uniforms(l), twu, twu.Keys, min);
    LevelPaths(g, Uniforms(l), twu, twu.Keys, {});
    GlobalHeavy(db, min, twu, l);
    NoPrefix();
    r, cands := MineTree(g, tree.value, arena, [], min, guard, |db|, Longest(db));
  }

  /** The whole run. The candidates are exactly the supported itemsets of sufficient TWU, and what is
      written, unless a write fails, is exactly the high-utility itemsets. The ledger ends where it
      began, and no page outside the run's own is changed. */
  method Run(db: Database, min: int, guard: MemoryGuard, pool: BufferPool, out: ResultWriter)
    returns (r: Result<nat>, ghost found: seq<Hui>, ghost candidates: seq<seq<ItemId>>)
    requires ValidDatabase(db) && FitsWidths(db) && pool.Valid() && pool.Idle()
    requires forall k | 0 <= k < |db| :: Fits32(ItemsOf(db[k].items))
    modifies guard, pool`frames, pool`used, pool`guards, pool.store, pool.eviction, out
    ensures pool.Valid() && pool.Idle() && Grows(old(pool.Contents()), pool.Contents())
    ensures pool.store.faults >= old(pool.store.faults)
    ensures r.Err? ==> ArenaExcused(r.error, pool.budget, pool.store.faults > old(pool.store.faults), PointersShort(db))
    ensures out.huis == old(out.huis) + found && Sound(db, found, Huis(db, min))
    ensures r.Ok? ==> guard.used == old(guard.used)
    ensures r.Ok? ==> Lists(candidates, TwuHeavy(db, min))
    ensures r.Ok? && out.Lost() == old(out.Lost()) ==> Emits(db, found, Huis(db, min)) && r.value == |found|
    ensures pool.store.faults == old(pool.store.faults) && 65536 <= pool.budget && !PointersShort(db) ==> r.Ok?
  {
    hide Consistent, Overlay, ResidentBytes, PinnedBytes, Data, PagesOf, ChunkStore.Pages, ChunkStore.Valid,
         ChunkStore.Stored,
         LruPolicy.Valid, Codec.Valid, NodeArena.Nodes, IhupTree.Holds, SortedPath, Level, Lists, Family, Heavy, Emits,
         Huis, TwuHeavy,
         ValidDatabase, FitsWidths, IsTwuFilter, Global, Slots, Distinct;
    found, candidates := [], [];
    var filter := Compute(db, min);
    var twu := filter.twu;
    KeptFit(db, min, twu);
    var mined, cands := MineDatabase(db, min, twu, guard, pool);
    if mined.Err? { return Err(mined.error), [], []; }
    candidates := cands;
    CandidatesDistinct(cands, TwuHeavy(db, min));
    var utils := SumUtilities(db, cands);
    var tasks := ResultTasks(db, min, cands, utils, TwuHeavy(db, min));
    HeavyHasHuis(db, min);
    found := WriteTasks(db, Huis(db, min), tasks, out);
    ReportsParts(db, found, Huis(db, min), out.Lost() == old(out.Lost()));
    guard.Free(CandidateBytes(cands));
    r := Ok(|tasks|);
  }
}
