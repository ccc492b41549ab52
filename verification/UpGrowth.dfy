/** UP-Growth: prefix trees whose nodes carry prefix utilities, conditional trees pruned and re-sorted by
    local weight, then exact utilities (src/mining/algorithms/up_growth.rs). */
module UpGrowth {
  import opened Huim
  import opened Options
  import opened Bytes
  import opened PageLayout
  import opened Storage
  import opened Lru
  import opened Pool
  import opened TwuFilter
  import opened UtilityLists
  import opened Memory
  import opened Output
  import opened WeightedPaths
  import opened TreeArena
  import opened PrefixTrees
  import opened ConditionalTrees
  import opened PatternBases
  import opened CandidateCheck

  datatype HeaderEntry = HeaderEntry(item: ItemId, twu: int, head: nat, tail: nat)

  type Header = map<ItemId, HeaderEntry>

  /** The order a tree is sorted by: the weights recorded in its header. */
  function TreeKey(header: Header): TwuMap {
    map x | x in header :: header[x].twu
  }

  // ----- header chains, oldest node first

  ghost predicate TailLinks(nodes: seq<TreeNode>, root: nat, paths: Paths, header: Header)
    requires |nodes| == root + |paths|
  {
    && (forall a | a in header ::
          header[a].head == Ptr(root, NextNode(paths, 0, a)) && header[a].tail == Ptr(root, LastNode(paths, |paths|, a)))
    && (forall i | 0 < i < |paths| :: TailLinked(nodes, root, paths, i))
  }

  ghost predicate TailLinked(nodes: seq<TreeNode>, root: nat, paths: Paths, i: nat)
    requires |nodes| == root + |paths| && 0 < i < |paths|
  {
    paths[i] != [] && nodes[root + i].nodeLink == Ptr(root, NextNode(paths, i + 1, paths[i][|paths[i]| - 1]))
  }

  lemma TailLinksReweigh(nodes: seq<TreeNode>, root: nat, paths: Paths, header: Header, k: nat, w: int)
    requires |nodes| == root + |paths| && k < |paths| && TailLinks(nodes, root, paths, header)
    ensures TailLinks(nodes[root + k := nodes[root + k].(weight := w)], root, paths, header)
  {
    hide NextNode, LastNode;
    var nodes' := nodes[root + k := nodes[root + k].(weight := w)];
    forall i | 0 < i < |paths| ensures TailLinked(nodes', root, paths, i) {
      assert TailLinked(nodes, root, paths, i);
    }
  }

  /** The nodes after a new child has been linked in and appended to the chain that ends at tail. */
  ghost function Appended(nodes: seq<TreeNode>, root: nat, c: nat, item: ItemId, weight: int, tail: nat): (r: seq<TreeNode>)
    requires root + c < |nodes| && (tail == NIL || tail < |nodes|)
    ensures |r| == |nodes| + 1
  {
    var g := Grown(nodes, root, c, item, weight, NIL);
    if tail == NIL then g else g[tail := g[tail].(nodeLink := |nodes|)]
  }

  function EntryAfter(e: HeaderEntry, newChild: nat): HeaderEntry {
    e.(head := if e.tail == NIL then newChild else e.head, tail := newChild)
  }

  lemma TailBound(nodes: seq<TreeNode>, root: nat, paths: Paths, header: Header, item: ItemId)
    requires Spine(nodes, root, paths) && TailLinks(nodes, root, paths, header) && item in header
    ensures var t := LastNode(paths, |paths|, item); header[item].tail == if t == -1 then NIL else root + t
    ensures header[item].tail == NIL || root < header[item].tail < |nodes| < TWO_32
  {
    var t := LastNode(paths, |paths|, item);
    if t >= 0 { assert EndsIn(paths[t], item); }
  }

  lemma SpineRelink(nodes: seq<TreeNode>, root: nat, paths: Paths, t: nat, link: nat)
    requires Spine(nodes, root, paths) && t < |paths| && link < TWO_32
    ensures var nodes' := nodes[root + t := nodes[root + t].(nodeLink := link)];
            Spine(nodes', root, paths) && Weights(nodes', root) == Weights(nodes, root)
  {
    hide LastChild;
    var nodes' := nodes[root + t := nodes[root + t].(nodeLink := link)];
    forall i | 0 < i < |paths| ensures Inner(nodes', root, paths, i) {
      assert Inner(nodes, root, paths, i);
    }
    forall i | 0 <= i < |paths| ensures Outer(nodes', root, paths, i) {
      assert Outer(nodes, root, paths, i);
    }
  }

  lemma AppendedLinks(nodes: seq<TreeNode>, root: nat, c: nat, item: ItemId, weight: int, tail: nat, i: nat)
    requires root + c < |nodes| && (tail == NIL || tail < |nodes|) && |nodes| <= NIL && i <= |nodes|
    ensures Appended(nodes, root, c, item, weight, tail)[i].nodeLink ==
            if i == |nodes| then NIL else if i == tail then |nodes| else nodes[i].nodeLink
  {
  }

  lemma TailLinkedGrow(nodes: seq<TreeNode>, root: nat, paths: Paths, header: Header, c: nat, item: ItemId, weight: int, i: nat)
    requires Spine(nodes, root, paths) && c < |paths| && TailLinks(nodes, root, paths, header) && item in header
    requires 0 < i <= |paths|
    requires header[item].tail == NIL || root < header[item].tail < |nodes|
    ensures TailLinked(Appended(nodes, root, c, item, weight, header[item].tail), root, paths + [paths[c] + [item]], i)
  {
    hide NextNode, LastNode, Spine, Appended;
    var q, m := paths[c] + [item], |paths|;
    SpineSize(nodes, root, paths);
    AppendedLinks(nodes, root, c, item, weight, header[item].tail, root + i);
    TailBound(nodes, root, paths, header, item);
    if i < m {
      assert TailLinked(nodes, root, paths, i);
      var a := paths[i][|paths[i]| - 1];
      NextNodeSnoc(paths, q, i + 1, a);
      var t := LastNode(paths, m, item);
      assert EndsIn(paths[i], a);
      if a == item && t > i { assert EndsIn(paths[t], item); }
    } else {
      NextNodeSnoc(paths, q, m, item);
    }
  }

  lemma TailLinksGrow(nodes: seq<TreeNode>, root: nat, paths: Paths, header: Header, c: nat, item: ItemId, weight: int)
    requires Spine(nodes, root, paths) && c < |paths| && TailLinks(nodes, root, paths, header) && item in header
    requires header[item].tail == NIL || root < header[item].tail < |nodes|
    ensures TailLinks(Appended(nodes, root, c, item, weight, header[item].tail), root, paths + [paths[c] + [item]],
                      header[item := EntryAfter(header[item], |nodes|)])
  {
    hide NextNode, LastNode, Spine, TailLinked, Appended;
    var q, m := paths[c] + [item], |paths|;
    SpineSize(nodes, root, paths);
    var nodes', paths' := Appended(nodes, root, c, item, weight, header[item].tail), paths + [q];
    var header' := header[item := EntryAfter(header[item], |nodes|)];
    forall i | 0 < i < |paths'| ensures TailLinked(nodes', root, paths', i) {
      TailLinkedGrow(nodes, root, paths, header, c, item, weight, i);
    }
    TailBound(nodes, root, paths, header, item);
    forall a | a in header'
      ensures header'[a].head == Ptr(root, NextNode(paths', 0, a)) && header'[a].tail == Ptr(root, LastNode(paths', |paths'|, a))
    {
      LastNodeSnoc(paths, q, m, a);
      NextNodeSnoc(paths, q, 0, a);
      if a == item { FirstAndLast(paths, item); }
    }
  }

  lemma SpineSize(nodes: seq<TreeNode>, root: nat, paths: Paths)
    requires Spine(nodes, root, paths)
    ensures |nodes| == root + |paths| <= NIL
  {
  }

  lemma FirstAndLast(paths: Paths, a: ItemId)
    ensures NextNode(paths, 0, a) == -1 <==> LastNode(paths, |paths|, a) == -1
  {
    var f, l := NextNode(paths, 0, a), LastNode(paths, |paths|, a);
    if f >= 0 { assert EndsIn(paths[f], a); }
    if l >= 0 { assert EndsIn(paths[l], a); }
  }

  /** The item has a node: only its weight changes. */
  lemma FoundStep(nodes: seq<TreeNode>, root: nat, paths: Paths, header: Header, L: seq<WPath>, l: WPath, n: nat, ptr: nat)
    requires Spine(nodes, root, paths) && TailLinks(nodes, root, paths, header)
    requires WellWeighted(L) && WellFormed(l) && n < |l.items| && Load(L) + l.cap <= I64_MAX
    requires TrieOf(paths, Weights(nodes, root), L + [FirstItems(l, n)])
    requires root < ptr < |nodes| && paths[ptr - root] == l.items[..n + 1]
    ensures var nodes' := nodes[ptr := nodes[ptr].(weight := nodes[ptr].weight + l.ws[n])];
            && Spine(nodes', root, paths) && TailLinks(nodes', root, paths, header) && NodeFits(nodes'[ptr])
            && TrieOf(paths, Weights(nodes', root), L + [FirstItems(l, n + 1)])
  {
    hide TrieOf, TailLinks, Load, LastChild, Inner;
    var k := ptr - root;
    TrieFound(paths, Weights(nodes, root), L, l, n, k);
    SpineReweigh(nodes, root, paths, k, nodes[ptr].weight + l.ws[n]);
    TailLinksReweigh(nodes, root, paths, header, k, nodes[ptr].weight + l.ws[n]);
    assert Outer(nodes, root, paths, k);
  }

  /** The item has no node: a new newest child, at the tail of its chain. */
  lemma NewStep(nodes: seq<TreeNode>, root: nat, paths: Paths, header: Header, L: seq<WPath>, l: WPath, n: nat, current: nat)
    requires Spine(nodes, root, paths) && TailLinks(nodes, root, paths, header) && |nodes| < NIL
    requires WellWeighted(L) && WellFormed(l) && n < |l.items| && Load(L) + l.cap <= I64_MAX
    requires TrieOf(paths, Weights(nodes, root), L + [FirstItems(l, n)])
    requires root <= current < |nodes| && paths[current - root] == l.items[..n] && l.items[..n + 1] !in paths
    requires l.items[n] in header && l.items[n] < TWO_32
    ensures var item := l.items[n];
            var tail := header[item].tail;
            && (tail == NIL || (root < tail < |nodes| && NodeFits(Grown(nodes, root, current - root, item, l.ws[n], NIL)[tail])))
            && var nodes' := Appended(nodes, root, current - root, item, l.ws[n], tail);
            var paths' := paths + [l.items[..n + 1]];
            && Spine(nodes', root, paths') && TailLinks(nodes', root, paths', header[item := EntryAfter(header[item], |nodes|)])
            && TrieOf(paths', Weights(nodes', root), L + [FirstItems(l, n + 1)])
  {
    hide TrieOf, TailLinks, Load, LastChild, LastNode, Inner;
    var item, c := l.items[n], current - root;
    assert paths[c] + [item] == l.items[..n + 1];
    assert 0 <= l.ws[n] <= l.cap;
    LoadNonNegative(L);
    TailBound(nodes, root, paths, header, item);
    TrieNew(paths, Weights(nodes, root), L, l, n);
    SpineGrow(nodes, root, paths, c, item, l.ws[n], NIL);
    TailLinksGrow(nodes, root, paths, header, c, item, l.ws[n]);
    var tail := header[item].tail;
    if tail != NIL {
      var grown := Grown(nodes, root, c, item, l.ws[n], NIL);
      assert Outer(grown, root, paths + [l.items[..n + 1]], tail - root);
      SpineRelink(grown, root, paths + [l.items[..n + 1]], tail - root, |nodes|);
    }
  }

  /** Links a new node behind the last one of its header chain, if there is one. */
  method AppendToChain(arena: NodeArena, ghost root: nat, tail: nat, newChild: nat) returns (r: Result<()>)
    requires arena.Valid() && newChild < arena.next
    requires tail == NIL || (root < tail < arena.next && NodeFits(arena.Nodes()[tail]))
    modifies arena.pool`frames, arena.pool`used, arena.pool`guards, arena.pool.store, arena.pool.eviction
    ensures arena.Valid() && Untouched(old(arena.pool.Contents()), arena.pages, arena.pool.Contents(), arena.pages)
    ensures r.Ok? ==> var nodes := old(arena.Nodes());
              arena.Nodes() == if tail == NIL then nodes else nodes[tail := nodes[tail].(nodeLink := newChild)]
    ensures root <= arena.next ==> arena.Nodes()[..root] == old(arena.Nodes())[..root]
    ensures arena.pool.store.faults >= old(arena.pool.store.faults)
    ensures r.Err? ==> ArenaExcused(r.error, arena.pool.budget, arena.pool.store.faults > old(arena.pool.store.faults),
                                    false)
  {
    hide NodeArena.Valid, NodeArena.Nodes, BufferPool.Contents;
    if tail != NIL {
      PointerRange(arena);
      var tailNode := arena.GetNode(tail);
      if tailNode.Err? { return Err(tailNode.error); }
      var w := arena.SetNode(tail, tailNode.value.(nodeLink := newChild));
      if w.Err? { return w; }
    }
    r := Ok(());
  }

  lemma PointerRange(arena: NodeArena)
    requires arena.Valid()
    ensures arena.next < TWO_32
  {
  }

  method PrefixUtility(items: seq<ItemEntry>, n: nat) returns (nu: int)
    requires n < |items|
    ensures nu == TotalOf(items[..n + 1])
  {
    nu := 0;
    assert items[..0] == [];
    for j := 0 to n + 1
      invariant nu == TotalOf(items[..j])
    {
      Huim.TotalSnoc(items, j);
      nu := nu + items[j].utility;
    }
  }

  lemma LoadCovers(L: seq<WPath>, l: WPath, n: nat)
    requires WellWeighted(L) && WellFormed(l) && n < |l.items| && Load(L) + l.cap <= I64_MAX
    ensures InI64(l.ws[n])
  {
    assert 0 <= l.ws[n] <= l.cap;
    LoadNonNegative(L);
  }

  class UpTree {
    const root: nat
    var header: Header
    // The paths of the nodes, and the weighted paths inserted so far.
    ghost var paths: Paths
    ghost var inserted: seq<WPath>

    constructor (root: nat, header: Header)
      ensures this.root == root && this.header == header && paths == [[]] && inserted == []
    {
      this.root := root;
      this.header := header;
      paths := [[]];
      inserted := [];
    }

    /** The arena holds exactly the tree of these weighted paths, from slot root on. */
    ghost predicate Holds(nodes: seq<TreeNode>, L: seq<WPath>)
      reads this
    {
      Spine(nodes, root, paths) && TailLinks(nodes, root, paths, header) && TrieOf(paths, Weights(nodes, root), L)
    }

    ghost predicate Represents(nodes: seq<TreeNode>)
      reads this
    {
      Holds(nodes, inserted)
    }

    /** One step of an insertion: from the node of the first n items of l to the node of the first n + 1. */
    method Advance(arena: NodeArena, ghost l: WPath, ghost n: nat, current: nat, item: ItemId, nu: int) returns (r: Result<nat>)
      requires arena.Valid() && WellWeighted(inserted) && WellFormed(l) && n < |l.items| && Load(inserted) + l.cap <= I64_MAX
      requires Holds(arena.Nodes(), inserted + [FirstItems(l, n)])
      requires root <= current < arena.next && paths[current - root] == l.items[..n]
      requires item == l.items[n] && nu == l.ws[n] && item in header && item < TWO_32
      modifies this`header, this`paths, arena`pages, arena`next, arena.pool`frames, arena.pool`used, arena.pool`guards,
               arena.pool.store, arena.pool.eviction
      ensures arena.Valid() && Untouched(old(arena.pool.Contents()), old(arena.pages), arena.pool.Contents(), arena.pages)
      ensures arena.next >= old(arena.next) && arena.Nodes()[..root] == old(arena.Nodes()[..root])
      ensures header.Keys == old(header).Keys && TreeKey(header) == TreeKey(old(header))
      ensures r.Ok? ==> Holds(arena.Nodes(), inserted + [FirstItems(l, n + 1)])
      ensures r.Ok? ==> root <= r.value < arena.next && paths[r.value - root] == l.items[..n + 1]
      ensures arena.pool.store.faults >= old(arena.pool.store.faults)
      ensures r.Err? ==> ArenaExcused(r.error, arena.pool.budget, arena.pool.store.faults > old(arena.pool.store.faults),
                                      old(arena.next) == 0xFFFF_FFFF)
    {
      hide NodeArena.Valid, NodeArena.Nodes, BufferPool.Contents, LastNode, LastChild, TrieOf, TailLinks, Inner, Outer,
           Load, WellWeighted;
      ghost var nodes, P := arena.Nodes(), paths;
      assert l.items[..n] + [item] == l.items[..n + 1];
      var child := FindChild(arena, root, paths, current, item);
      if child.Err? { return Err(child.error); }
      if child.value.Some? {
        var (ptr, node) := child.value.value;
        FoundStep(nodes, root, paths, header, inserted, l, n, ptr);
        var w := arena.SetNode(ptr, node.(weight := node.weight + nu));
        if w.Err? { return Err(w.error); }
        r := Ok(ptr);
      } else {
        r := AddChild(arena, l, n, current, item, nu);
      }
    }

    /** Allocates the node of the first n + 1 items and links it to its parent, its siblings and its chain. */
    method AddChild(arena: NodeArena, ghost l: WPath, ghost n: nat, current: nat, item: ItemId, nu: int) returns (r: Result<nat>)
      requires arena.Valid() && WellWeighted(inserted) && WellFormed(l) && n < |l.items| && Load(inserted) + l.cap <= I64_MAX
      requires Holds(arena.Nodes(), inserted + [FirstItems(l, n)])
      requires root <= current < arena.next && paths[current - root] == l.items[..n] && l.items[..n + 1] !in paths
      requires item == l.items[n] && nu == l.ws[n] && item in header && item < TWO_32
      modifies this`header, this`paths, arena`pages, arena`next, arena.pool`frames, arena.pool`used, arena.pool`guards,
               arena.pool.store, arena.pool.eviction
      ensures arena.Valid() && Untouched(old(arena.pool.Contents()), old(arena.pages), arena.pool.Contents(), arena.pages)
      ensures arena.next >= old(arena.next) && arena.Nodes()[..root] == old(arena.Nodes()[..root])
      ensures header.Keys == old(header).Keys && TreeKey(header) == TreeKey(old(header))
      ensures r.Ok? ==> Holds(arena.Nodes(), inserted + [FirstItems(l, n + 1)])
      ensures r.Ok? ==> root <= r.value < arena.next && paths[r.value - root] == l.items[..n + 1]
      ensures arena.pool.store.faults >= old(arena.pool.store.faults)
      ensures r.Err? ==> ArenaExcused(r.error, arena.pool.budget, arena.pool.store.faults > old(arena.pool.store.faults),
                                      old(arena.next) == 0xFFFF_FFFF)
    {
      hide NodeArena.Valid, NodeArena.Nodes, BufferPool.Contents, LastNode, LastChild, TrieOf, TailLinks, Inner, Outer,
           Load, WellWeighted, InI64;
      ghost var nodes := arena.Nodes();
      LoadCovers(inserted, l, n);
      var newChild := arena.AllocateNode(item, nu, current);
      if newChild.Err? { return Err(newChild.error); }
      assert arena.Nodes()[..newChild.value] == nodes;
      NewStep(nodes, root, paths, header, inserted, l, n, current);
      var w := LinkChild(arena, root, paths, current, newChild.value, NIL);
      if w.Err? { return Err(w.error); }
      assert arena.Nodes() == Grown(nodes, root, current - root, item, nu, NIL);
      var entry := header[item];
      w := AppendToChain(arena, root, entry.tail, newChild.value);
      if w.Err? { return Err(w.error); }
      header := header[item := EntryAfter(entry, newChild.value)];
      paths := paths + [l.items[..n + 1]];
      r := newChild;
    }

    /** The global insertion: every node gets the utility of the path up to and including its item. */
    method Insert(arena: NodeArena, items: seq<ItemEntry>, ghost l: WPath, ghost n: nat, ghost m: nat) returns (r: Result<()>)
      requires arena.Valid() && Represents(arena.Nodes()) && WellWeighted(inserted) && WellFormed(l)
      requires |l.items| == |items| && l.items == ItemIds(items) && forall i | 0 <= i < |items| :: l.ws[i] == TotalOf(items[..i + 1])
      requires ItemsOf(items) <= header.Keys && Load(inserted) + l.cap <= I64_MAX && Fits32(ItemsOf(items))
      requires Within(inserted, n, m) && |items| <= m
      modifies this, arena`pages, arena`next, arena.pool`frames, arena.pool`used, arena.pool`guards,
               arena.pool.store, arena.pool.eviction
      ensures arena.Valid() && Untouched(old(arena.pool.Contents()), old(arena.pages), arena.pool.Contents(), arena.pages)
      ensures header.Keys == old(header).Keys && TreeKey(header) == TreeKey(old(header))
      ensures r.Ok? ==> Represents(arena.Nodes()) && inserted == old(inserted) + [l]
      ensures arena.pool.store.faults >= old(arena.pool.store.faults)
      ensures r.Err? ==> ArenaExcused(r.error, arena.pool.budget, arena.pool.store.faults > old(arena.pool.store.faults),
                                      TreeCrowded(root, n + 1, m))
    {
      hide NodeArena.Valid, NodeArena.Nodes, BufferPool.Contents, LastNode, LastChild, TrieOf, TailLinks, Inner, Outer,
           Load, UtilityIn, Within, TreeCrowded, TotalOf, WellWeighted, Weights;
      TrieStart(paths, Weights(arena.Nodes(), root), inserted, l);
      var curr := root;
      for k := 0 to |items|
        invariant arena.Valid() && Untouched(old(arena.pool.Contents()), old(arena.pages), arena.pool.Contents(), arena.pages)
        invariant arena.pool.store.faults >= old(arena.pool.store.faults)
        invariant header.Keys == old(header).Keys && TreeKey(header) == TreeKey(old(header))
        invariant inserted == old(inserted) && Holds(arena.Nodes(), inserted + [FirstItems(l, k)])
        invariant root <= curr < arena.next && paths[curr - root] == l.items[..k]
      {
        var nu := PrefixUtility(items, k);
        assert items[k] in items && items[k].item in ItemsOf(items);
        InsertRoom(root, paths, Weights(arena.Nodes(), root), inserted, l, k, n, m);
        var step := Advance(arena, l, k, curr, items[k].item, nu);
        if step.Err? { return Err(step.error); }
        curr := step.value;
      }
      TrieEnd(paths, Weights(arena.Nodes(), root), inserted, l);
      inserted := inserted + [l];
      r := Ok(());
    }

    /** The local insertion: every node gets the weight of the whole path. */
    method InsertLocal(arena: NodeArena, path: seq<ItemId>, pathUtility: int, ghost n: nat, ghost m: nat) returns (r: Result<()>)
      requires arena.Valid() && Represents(arena.Nodes()) && WellWeighted(inserted)
      requires Distinct(path) && pathUtility >= 0 && Elems(path) <= header.Keys && Load(inserted) + pathUtility <= I64_MAX
      requires Fits32(Elems(path)) && Within(inserted, n, m) && |path| <= m
      modifies this, arena`pages, arena`next, arena.pool`frames, arena.pool`used, arena.pool`guards,
               arena.pool.store, arena.pool.eviction
      ensures arena.Valid() && Untouched(old(arena.pool.Contents()), old(arena.pages), arena.pool.Contents(), arena.pages)
      ensures arena.next >= old(arena.next) && arena.Nodes()[..root] == old(arena.Nodes()[..root])
      ensures header.Keys == old(header).Keys && TreeKey(header) == TreeKey(old(header))
      ensures r.Ok? ==> Represents(arena.Nodes()) && inserted == old(inserted) + [Uniform(Cond(path, pathUtility))]
      ensures arena.pool.store.faults >= old(arena.pool.store.faults)
      ensures r.Err? ==> ArenaExcused(r.error, arena.pool.budget, arena.pool.store.faults > old(arena.pool.store.faults),
                                      TreeCrowded(root, n + 1, m))
    {
      hide NodeArena.Valid, NodeArena.Nodes, BufferPool.Contents, LastNode, LastChild, TrieOf, TailLinks, Inner, Outer,
           Load;
      ghost var l := Uniform(Cond(path, pathUtility));
      TrieStart(paths, Weights(arena.Nodes(), root), inserted, l);
      var curr := root;
      for k := 0 to |path|
        invariant arena.Valid() && Untouched(old(arena.pool.Contents()), old(arena.pages), arena.pool.Contents(), arena.pages)
        invariant arena.pool.store.faults >= old(arena.pool.store.faults)
        invariant arena.next >= old(arena.next) && arena.Nodes()[..root] == old(arena.Nodes()[..root])
        invariant header.Keys == old(header).Keys && TreeKey(header) == TreeKey(old(header))
        invariant inserted == old(inserted) && Holds(arena.Nodes(), inserted + [FirstItems(l, k)])
        invariant root <= curr < arena.next && paths[curr - root] == path[..k]
      {
        assert path[k] in Elems(path);
        InsertRoom(root, paths, Weights(arena.Nodes(), root), inserted, l, k, n, m);
        var step := Advance(arena, l, k, curr, path[k], pathUtility);
        if step.Err? { return Err(step.error); }
        curr := step.value;
      }
      TrieEnd(paths, Weights(arena.Nodes(), root), inserted, l);
      inserted := inserted + [l];
      r := Ok(());
    }
  }

  // ----- mining

  /** The node a chain pointer leads to, and the next pointer. */
  lemma ChainNode(nodes: seq<TreeNode>, root: nat, paths: Paths, header: Header, L: seq<WPath>, hi: nat, item: ItemId)
    requires Spine(nodes, root, paths) && TailLinks(nodes, root, paths, header) && TrieOf(paths, Weights(nodes, root), L)
    requires hi <= |paths| && Ptr(root, NextNode(paths, hi, item)) != NIL
    ensures var k := NextNode(paths, hi, item);
            && 0 < k && hi <= k < |paths| && EndsIn(paths[k], item) && (forall j | hi <= j < k :: !EndsIn(paths[j], item))
            && |nodes| == root + |paths| && nodes[root + k].nodeLink == Ptr(root, NextNode(paths, k + 1, item))
            && paths[k] != [] && Distinct(paths[k]) && nodes[root + k].weight >= 0
  {
    hide LastChild, Weight, Inner, Outer;
    var k := NextNode(paths, hi, item);
    assert k >= 0;
    assert EndsIn(paths[k], item);
    assert TailLinked(nodes, root, paths, k);
    TrieNode(paths, Weights(nodes, root), L, k);
  }

  lemma ChainStart(nodes: seq<TreeNode>, root: nat, paths: Paths, header: Header, item: ItemId)
    requires Spine(nodes, root, paths) && TailLinks(nodes, root, paths, header) && item in header
    ensures |nodes| == root + |paths| <= NIL && header[item].head == Ptr(root, NextNode(paths, 0, item))
  {
  }

  lemma ChainEnd(nodes: seq<TreeNode>, root: nat, paths: Paths, hi: nat, item: ItemId)
    requires Spine(nodes, root, paths) && hi <= |paths| && Ptr(root, NextNode(paths, hi, item)) == NIL
    ensures forall j | hi <= j < |paths| :: !EndsIn(paths[j], item)
  {
    assert NextNode(paths, hi, item) == -1;
  }

  lemma SumNode(paths: Paths, weights: seq<int>, a: ItemId, hi: nat, k: nat)
    requires hi <= k < |paths| == |weights| && EndsIn(paths[k], a) && forall j | hi <= j < k :: !EndsIn(paths[j], a)
    ensures NodeSum(paths, weights, k + 1, a, {}) == NodeSum(paths, weights, hi, a, {}) + weights[k]
  {
    SumGap(paths, weights, a, {}, hi, k);
  }

  /** First walk along the chain of an item: its total weight. */
  method SumChain(arena: NodeArena, tree: UpTree, item: ItemId) returns (r: Result<int>)
    requires arena.Valid() && tree.Represents(arena.Nodes()) && item in tree.header
    modifies arena.pool`frames, arena.pool`used, arena.pool`guards, arena.pool.store, arena.pool.eviction
    ensures arena.Valid() && arena.pool.Contents() == old(arena.pool.Contents()) && arena.Nodes() == old(arena.Nodes())
    ensures r.Ok? ==> WellWeighted(tree.inserted) && r.value == CondWeight(tree.inserted, item, {})
    ensures arena.pool.store.faults >= old(arena.pool.store.faults)
    ensures r.Err? ==> ArenaExcused(r.error, arena.pool.budget, arena.pool.store.faults > old(arena.pool.store.faults),
                                    false)
  {
    hide NodeArena.Valid, NodeArena.Nodes, BufferPool.Contents, NextNode, LastChild, TrieOf, Inner, Outer, TailLinks,
         Spine, CondWeight, EndsIn,
         NodeSum;
    ghost var paths, nodes := tree.paths, arena.Nodes();
    ghost var weights := Weights(nodes, tree.root);
    var itemUtil, currPtr := 0, tree.header[item].head;
    ghost var hi: nat := 0;
    ChainStart(nodes, tree.root, paths, tree.header, item);
    NothingSummed(paths, weights, item);
    while currPtr != NIL
      invariant arena.Valid() && arena.pool.Contents() == old(arena.pool.Contents()) && arena.Nodes() == nodes
      invariant arena.pool.store.faults >= old(arena.pool.store.faults)
      invariant hi <= |paths| == |weights| && currPtr == Ptr(tree.root, NextNode(paths, hi, item))
      invariant itemUtil == NodeSum(paths, weights, hi, item, {})
      decreases |paths| - hi
    {
      ghost var k := NextNode(paths, hi, item);
      ChainNode(nodes, tree.root, paths, tree.header, tree.inserted, hi, item);
      var node := arena.GetNode(currPtr);
      if node.Err? { return Err(node.error); }
      SumNode(paths, weights, item, hi, k);
      itemUtil := itemUtil + node.value.weight;
      currPtr := node.value.nodeLink;
      hi := k + 1;
    }
    ChainEnd(nodes, tree.root, paths, hi, item);
    SumGap(paths, weights, item, {}, hi, |paths|);
    ChainSum(paths, weights, tree.inserted, item, {});
    TrieWeighted(paths, weights, tree.inserted);
    r := Ok(itemUtil);
  }

  lemma NothingSummed(paths: Paths, weights: seq<int>, a: ItemId)
    requires |paths| == |weights|
    ensures NodeSum(paths, weights, 0, a, {}) == 0
  {
  }

  lemma TrieWeighted(paths: Paths, weights: seq<int>, L: seq<WPath>)
    requires TrieOf(paths, weights, L)
    ensures WellWeighted(L)
  {
  }

  /** Second walk: the conditional pattern base. */
  method CollectBase(arena: NodeArena, tree: UpTree, ghost key: TwuMap, item: ItemId, ghost n: nat, ghost m: nat)
    returns (r: Result<seq<Cond>>)
    requires Within(tree.inserted, n, m)
    requires arena.Valid() && tree.Represents(arena.Nodes()) && item in tree.header
    requires forall k | 0 <= k < |tree.inserted| :: SortedPath(key, tree.inserted[k].items) && Elems(tree.inserted[k].items) <= tree.header.Keys
    modifies arena.pool`frames, arena.pool`used, arena.pool`guards, arena.pool.store, arena.pool.eviction
    ensures arena.Valid() && arena.pool.Contents() == old(arena.pool.Contents()) && arena.Nodes() == old(arena.Nodes())
    ensures r.Ok? ==> WellWeighted(tree.inserted) && Based(tree.inserted, key, tree.header.Keys, item, r.value)
    ensures r.Ok? ==> CondsWithin(r.value, n, if m == 0 then 0 else m - 1)
    ensures arena.pool.store.faults >= old(arena.pool.store.faults)
    ensures r.Err? ==> ArenaExcused(r.error, arena.pool.budget, arena.pool.store.faults > old(arena.pool.store.faults),
                                    false)
  {
    hide NodeArena.Valid, NodeArena.Nodes, BufferPool.Contents, NextNode, LastChild, TrieOf, Inner, Outer, Gathered,
         RangeSum, TailLinks,
         Spine, Based, EndsIn;
    ghost var paths, nodes := tree.paths, arena.Nodes();
    ghost var weights := Weights(nodes, tree.root);
    var cpb: seq<Cond> := [];
    var currPtr := tree.header[item].head;
    ghost var hi: nat := 0;
    ChainStart(nodes, tree.root, paths, tree.header, item);
    GatherStart(paths, weights, item, 0);
    while currPtr != NIL
      invariant arena.Valid() && arena.pool.Contents() == old(arena.pool.Contents()) && arena.Nodes() == nodes
      invariant arena.pool.store.faults >= old(arena.pool.store.faults)
      invariant hi <= |paths| == |weights| && currPtr == Ptr(tree.root, NextNode(paths, hi, item))
      invariant Gathered(paths, weights, item, 0, hi, cpb)
      decreases |paths| - hi
    {
      ghost var k := NextNode(paths, hi, item);
      ChainNode(nodes, tree.root, paths, tree.header, tree.inserted, hi, item);
      var node := arena.GetNode(currPtr);
      if node.Err? { return Err(node.error); }
      var path := PathAbove(arena, tree.root, paths, k, node.value.parent);
      if path.Err? { return Err(path.error); }
      GatherGap(paths, weights, item, 0, hi, cpb, 0, k);
      GatherNode(paths, weights, item, 0, k, cpb, k);
      if path.value != [] {
        cpb := cpb + [Cond(path.value, node.value.weight)];
      }
      currPtr := node.value.nodeLink;
      hi := k + 1;
    }
    ChainEnd(nodes, tree.root, paths, hi, item);
    GatherGap(paths, weights, item, 0, hi, cpb, 0, |paths|);
    GatherDone(paths, weights, tree.inserted, key, tree.header.Keys, item, cpb);
    BaseWithin(paths, weights, tree.inserted, item, cpb, n, m);
    TrieWeighted(paths, weights, tree.inserted);
    r := Ok(cpb);
  }

  /** A new tree: its root takes the next slot. */
  method NewTree(arena: NodeArena, header: Header) returns (r: Result<UpTree>)
    requires arena.Valid() && forall a | a in header :: header[a].head == NIL && header[a].tail == NIL
    modifies arena`pages, arena`next, arena.pool`frames, arena.pool`used, arena.pool`guards,
             arena.pool.store, arena.pool.eviction
    ensures arena.Valid() && Untouched(old(arena.pool.Contents()), old(arena.pages), arena.pool.Contents(), arena.pages)
    ensures arena.next >= old(arena.next)
    ensures r.Ok? ==>
              fresh(r.value) && r.value.header == header && r.value.root == old(arena.next) && r.value.inserted == []
    ensures r.Ok? ==> r.value.Represents(arena.Nodes()) && arena.Nodes()[..old(arena.next)] == old(arena.Nodes())
    ensures arena.pool.store.faults >= old(arena.pool.store.faults)
    ensures r.Err? ==> ArenaExcused(r.error, arena.pool.budget, arena.pool.store.faults > old(arena.pool.store.faults),
                                    old(arena.next) == 0xFFFF_FFFF)
  {
    hide NodeArena.Valid, NodeArena.Nodes, BufferPool.Contents, Spine, TailLinks, TrieOf;
    var root := arena.AllocateNode(0, 0, NIL);
    if root.Err? { return Err(root.error); }
    var tree := new UpTree(root.value, header);
    SpineNew(arena.Nodes(), root.value);
    TailLinksNew(arena.Nodes(), root.value, header);
    r := Ok(tree);
  }

  lemma TailLinksNew(nodes: seq<TreeNode>, root: nat, header: Header)
    requires |nodes| == root + 1 && forall a | a in header :: header[a].head == NIL && header[a].tail == NIL
    ensures TailLinks(nodes, root, [[]], header)
  {
    forall a ensures LastNode([[]], 1, a) == -1 && NextNode([[]], 0, a) == -1 {
      assert !EndsIn([[]][0], a);
    }
  }

  /** An empty header over the kept items. */
  method EmptyHeader(key: TwuMap) returns (header: Header)
    ensures header.Keys == key.Keys && TreeKey(header) == key
    ensures forall a | a in header :: header[a].head == NIL && header[a].tail == NIL
  {
    header := map x | x in key :: HeaderEntry(x, key[x], NIL, NIL);
  }

  /** Sorts a path by descending weight, ties by item id. */
  method SortPath(key: TwuMap, path: seq<ItemId>) returns (sorted: seq<ItemId>)
    ensures Elems(sorted) == Elems(path) && SortedPath(key, sorted) && |sorted| <= |path|
  {
    sorted := SortedKeys(Negate(key), Elems(path));
    NegateOrder(key, sorted);
    SortedDistinct(key, sorted);
    DistinctCount(sorted);
    ElemsCount(path);
  }

  lemma {:induction false} ElemsCount(s: seq<ItemId>)
    ensures |Elems(s)| <= |s|
  {
    if s != [] {
      var n := |s| - 1;
      ElemsCount(s[..n]);
      assert s == s[..n] + [s[n]];
      assert Elems(s) == Elems(s[..n]) + {s[n]};
    }
  }

  /** One path of a pattern base: cut to the kept items, sorted and, unless nothing is left, inserted. */
  method AddPath(arena: NodeArena, tree: UpTree, key: TwuMap, cpb: seq<Cond>, k: nat, ghost cut: seq<Cond>, ghost n: nat, ghost m: nat)
    returns (r: Result<()>, ghost next: seq<Cond>)
    requires arena.Valid() && tree.Represents(arena.Nodes()) && tree.inserted == Uniforms(cut)
    requires Weighted(cpb) && Total(cpb, {}) <= I64_MAX && tree.header.Keys == key.Keys
    requires TreeKey(tree.header) == key && Fits32(key.Keys) && CondsWithin(cpb, n, m) && k < |cpb|
    requires CutBase(cpb, k, key.Keys, key, cut) && forall i | 0 <= i < |cut| :: |cut[i].path| <= m
    modifies tree, arena`pages, arena`next, arena.pool`frames, arena.pool`used, arena.pool`guards,
             arena.pool.store, arena.pool.eviction
    ensures arena.Valid() && Untouched(old(arena.pool.Contents()), old(arena.pages), arena.pool.Contents(), arena.pages)
    ensures arena.next >= old(arena.next) && arena.Nodes()[..tree.root] == old(arena.Nodes()[..tree.root])
    ensures tree.header.Keys == key.Keys && TreeKey(tree.header) == key
    ensures r.Ok? ==> tree.Represents(arena.Nodes()) && tree.inserted == Uniforms(next)
    ensures r.Ok? ==> CutBase(cpb, k + 1, key.Keys, key, next) && forall i | 0 <= i < |next| :: |next[i].path| <= m
    ensures arena.pool.store.faults >= old(arena.pool.store.faults)
    ensures r.Err? ==> ArenaExcused(r.error, arena.pool.budget, arena.pool.store.faults > old(arena.pool.store.faults),
                                    TreeCrowded(tree.root, n, m))
  {
    hide NodeArena.Valid, NodeArena.Nodes, BufferPool.Contents, UpTree.Holds, CutBase, Total, SortedPath, Cuts, TreeKey,
         TreeCrowded;
    r, next := Ok(()), cut;
    var filtered := FilterPath(cpb[k].path, key.Keys);
    FilterPathShort(cpb[k].path, key.Keys);
    FilterPathIs(key, cpb[k].path, key.Keys);
    var sorted := SortPath(key, filtered);
    CutBaseStep(cpb, k, key.Keys, key, cut, sorted);
    if sorted != [] {
      CutWithin(cpb, k, key.Keys, key, cut, m);
      UniformsSnoc(cpb, k, key.Keys, key, cut, Cond(sorted, cpb[k].w));
      r := tree.InsertLocal(arena, sorted, cpb[k].w, k, m);
      if r.Err? && TreeCrowded(tree.root, k + 1, m) { CrowdedMore(tree.root, k + 1, n, m); }
      next := cut + [Cond(sorted, cpb[k].w)];
    }
  }

  /** Fills a conditional tree with the cut and re-sorted pattern base. */
  method FillConditional(arena: NodeArena, tree: UpTree, key: TwuMap, cpb: seq<Cond>, ghost n: nat, ghost m: nat)
    returns (r: Result<()>, ghost cut: seq<Cond>)
    requires arena.Valid() && tree.Represents(arena.Nodes()) && tree.inserted == []
    requires Weighted(cpb) && Total(cpb, {}) <= I64_MAX && tree.header.Keys == key.Keys
    requires TreeKey(tree.header) == key && Fits32(key.Keys) && CondsWithin(cpb, n, m)
    modifies tree, arena`pages, arena`next, arena.pool`frames, arena.pool`used, arena.pool`guards,
             arena.pool.store, arena.pool.eviction
    ensures arena.Valid() && Untouched(old(arena.pool.Contents()), old(arena.pages), arena.pool.Contents(), arena.pages)
    ensures r.Ok? ==> tree.inserted == Uniforms(cut) && CutBase(cpb, |cpb|, key.Keys, key, cut)
    ensures r.Ok? ==> Within(tree.inserted, n, m) && TreeEnds(arena.next, tree.root, n, m)
    ensures r.Ok? ==> tree.Represents(arena.Nodes()) && tree.header.Keys == key.Keys && TreeKey(tree.header) == key
    ensures r.Ok? ==> old(arena.next) <= arena.next && arena.Nodes()[..tree.root] == old(arena.Nodes())[..tree.root]
    ensures arena.pool.store.faults >= old(arena.pool.store.faults)
    ensures r.Err? ==> ArenaExcused(r.error, arena.pool.budget, arena.pool.store.faults > old(arena.pool.store.faults),
                                    TreeCrowded(tree.root, n, m))
  {
    hide NodeArena.Valid, NodeArena.Nodes, BufferPool.Contents, UpTree.Holds, CutBase, Total, AllSorted, SortedPath,
         Cuts, TreeKey;
    cut := [];
    TreeSize(arena, tree);
    CutBaseStart(cpb, key.Keys, key);
    for k := 0 to |cpb|
      invariant arena.Valid() && Untouched(old(arena.pool.Contents()), old(arena.pages), arena.pool.Contents(), arena.pages)
      invariant arena.pool.store.faults >= old(arena.pool.store.faults)
      invariant tree.Represents(arena.Nodes()) && tree.inserted == Uniforms(cut)
      invariant tree.header.Keys == key.Keys && TreeKey(tree.header) == key
      invariant CutBase(cpb, k, key.Keys, key, cut) && forall i | 0 <= i < |cut| :: |cut[i].path| <= m
      invariant tree.root <= old(arena.next) <= arena.next && arena.Nodes()[..tree.root] == old(arena.Nodes())[..tree.root]
    {
      var w;
      w, cut := AddPath(arena, tree, key, cpb, k, cut, n, m);
      if w.Err? { return w, cut; }
    }
    CutWithin(cpb, |cpb|, key.Keys, key, cut, m);
    TreeReach(arena, tree, n, m);
    r := Ok(());
  }

  /** Where the nodes of a tree end. */
  lemma TreeReach(arena: NodeArena, tree: UpTree, n: nat, m: nat)
    requires arena.Valid() && tree.Represents(arena.Nodes()) && Within(tree.inserted, n, m)
    ensures TreeEnds(arena.next, tree.root, n, m)
  {
    TreeEndsAt(tree.root, tree.paths, Weights(arena.Nodes(), tree.root), tree.inserted, n, m);
  }

  lemma TreeSize(arena: NodeArena, tree: UpTree)
    requires arena.Valid() && tree.Represents(arena.Nodes())
    ensures tree.root < arena.next
  {
    assert |arena.Nodes()| == arena.next;
  }

  /** The header's items by ascending weight, ties by descending item id: the tree order backwards. */
  method TaskOrder(key: TwuMap) returns (tasks: seq<ItemId>)
    ensures Distinct(tasks) && Elems(tasks) == key.Keys
    ensures forall i | 0 <= i < |tasks| :: tasks[i] in key && Earlier(key, key.Keys, tasks[i], Elems(tasks[i + 1..]))
  {
    var order := SortedKeys(Negate(key), key.Keys);
    NegateOrder(key, order);
    tasks := Reverse(order);
    ReversedOrder(key, {}, order);
    forall i | 0 <= i < |tasks| ensures tasks[i] in key {
      assert tasks[i] in Elems(tasks);
    }
  }

  /** One item of a tree: its own candidate, then its conditional tree. Whatever happens below, the arena
      and the ledger are back to what they were. */
  method MineUpTree(ghost g: Search, tree: UpTree, arena: NodeArena, item: ItemId, ghost later: ItemSet,
                    prefix: seq<ItemId>, min: int,
                    guard: MemoryGuard, ghost n: nat, ghost m: nat)
    returns (r: Result<()>, phuis: seq<seq<ItemId>>)
    requires arena.Valid() && tree.Represents(arena.Nodes()) && min == g.min && Distinct(prefix) && Fits32(g.items)
    requires Level(g, tree.inserted, TreeKey(tree.header), tree.header.Keys, Elems(prefix))
    requires item in tree.header && Earlier(TreeKey(tree.header), tree.header.Keys, item, later) && Within(tree.inserted, n, m)
    modifies guard, arena`pages, arena`next, arena.pool`frames, arena.pool`used, arena.pool`guards,
             arena.pool.store, arena.pool.eviction
    ensures arena.Valid() && Untouched(old(arena.pool.Contents()), old(arena.pages), arena.pool.Contents(), arena.pages)
    ensures r.Ok? ==> arena.Nodes() == old(arena.Nodes()) && guard.used == old(guard.used)
    ensures r.Ok? ==> Lists(phuis, Branch(Elems(prefix), item, later) * Heavy(g))
    ensures arena.pool.store.faults >= old(arena.pool.store.faults)
    ensures r.Err? ==> ArenaExcused(r.error, arena.pool.budget, arena.pool.store.faults > old(arena.pool.store.faults),
                                    Crowded(old(arena.next), n, m))
    decreases |tree.header|, 1
  {
    hide NodeArena.Valid, NodeArena.Nodes, BufferPool.Contents, UpTree.Holds, Total, SortedPath, Based, Occurs, TreeKey,
         Level, Lists, Branch, Family, Heavy, Earlier, Weighted, Distinct, WellWeighted, CondWeight, KeptLocally, Load;
    ghost var P, E, key := Elems(prefix), tree.header.Keys, TreeKey(tree.header);
    LevelPaths(g, tree.inserted, key, E, P);
    var itemUtil := SumChain(arena, tree, item);
    if itemUtil.Err? { return Err(itemUtil.error), []; }
    BranchRoot(g, tree.inserted, key, E, P, item, later);
    if itemUtil.value < min {
      ListsNothing(Branch(P, item, later) * Heavy(g));
      return Ok(()), [];
    }
    NewPrefix(g, tree.inserted, key, E, prefix, item);
    var cpb := CollectBase(arena, tree, key, item, n, m);
    LevelDepth(g, tree.inserted, key, E, P, item, n, m);
    if cpb.Err? { return Err(cpb.error), []; }
    var cpbBytes := |cpb.value| * 16;
    guard.ForceAlloc(cpbBytes);
    BaseFacts(tree.inserted, key, E, item, cpb.value);
    var local := LocalTwu(cpb.value);
    KeptIs(cpb.value, local, min);
    var validItems := map x | x in LocallyKept(local, min) :: local[x];
    assert validItems.Keys == LocallyKept(local, min);
    BranchKept(g, tree.inserted, key, E, P, item, cpb.value, validItems.Keys, later);
    var below, deeper := MineLocal(g, tree, arena, item, prefix, cpb.value, validItems, min, guard, n, m,
                                   old(guard.used));
    if below.Err? { return below, []; }
    guard.Free(cpbBytes);
    ListsBranch(Heavy(g), prefix, item, later, deeper);
    phuis := [prefix + [item]] + deeper;
    r := Ok(());
  }

  /** The conditional tree of a pattern base, from the first free slot on, and its header's bytes. */
  method BuildLocal(arena: NodeArena, validItems: TwuMap, cpb: seq<Cond>, guard: MemoryGuard, ghost n: nat, ghost m: nat)
    returns (r: Result<UpTree>, ghost cut: seq<Cond>)
    requires arena.Valid() && Weighted(cpb) && Total(cpb, {}) <= I64_MAX && Fits32(validItems.Keys)
    requires CondsWithin(cpb, n, m)
    modifies guard, arena`pages, arena`next, arena.pool`frames, arena.pool`used, arena.pool`guards,
             arena.pool.store, arena.pool.eviction
    ensures arena.Valid() && Untouched(old(arena.pool.Contents()), old(arena.pages), arena.pool.Contents(), arena.pages)
    ensures r.Ok? ==> fresh(r.value) && TreeKey(r.value.header) == validItems && r.value.header.Keys == validItems.Keys
    ensures r.Ok? ==> r.value.Represents(arena.Nodes()) && r.value.inserted == Uniforms(cut)
    ensures r.Ok? ==> CutBase(cpb, |cpb|, validItems.Keys, validItems, cut)
    ensures r.Ok? ==> old(arena.next) <= arena.next && arena.Nodes()[..old(arena.next)] == old(arena.Nodes())
    ensures r.Ok? ==> Within(r.value.inserted, n, m) && TreeEnds(arena.next, old(arena.next), n, m)
    ensures r.Ok? ==> guard.used == old(guard.used) + |r.value.header| * 32
    ensures arena.pool.store.faults >= old(arena.pool.store.faults)
    ensures r.Err? ==> ArenaExcused(r.error, arena.pool.budget, arena.pool.store.faults > old(arena.pool.store.faults),
                                    TreeCrowded(old(arena.next), n, m))
  {
    hide NodeArena.Valid, NodeArena.Nodes, BufferPool.Contents, UpTree.Holds, CutBase, Total, TreeKey, Uniforms,
         Weighted, Fits32;
    cut := [];
    var header := EmptyHeader(validItems);
    r := NewTree(arena, header);
    if r.Err? { return; }
    guard.ForceAlloc(|r.value.header| * 32);
    var filled;
    filled, cut := FillConditional(arena, r.value, validItems, cpb, n, m);
    if filled.Err? { return Err(filled.error), cut; }
    assert |r.value.header| == |header| by { SameCount(r.value.header, header); }
  }

  lemma SameCount(a: Header, b: Header)
    requires a.Keys == b.Keys
    ensures |a| == |b|
  {
    assert |a| == |a.Keys| && |b| == |b.Keys|;
  }

  /** Builds, mines and discards the conditional tree of an item. */
  method MineLocal(ghost g: Search, tree: UpTree, arena: NodeArena, item: ItemId, prefix: seq<ItemId>, cpb: seq<Cond>,
                   validItems: TwuMap,
                   min: int, guard: MemoryGuard, ghost n: nat, ghost m: nat, ghost held: nat)
    returns (r: Result<()>, phuis: seq<seq<ItemId>>)
    requires arena.Valid() && tree.Represents(arena.Nodes()) && min == g.min && Distinct(prefix) && Fits32(g.items)
    requires Level(g, tree.inserted, TreeKey(tree.header), tree.header.Keys, Elems(prefix)) && item in tree.header
    requires Based(tree.inserted, TreeKey(tree.header), tree.header.Keys, item, cpb) && KeptLocally(cpb, min, validItems.Keys)
    requires m > 0 && CondsWithin(cpb, n, m - 1)
    // The bytes of the pattern base are in the ledger.
    requires guard.used == held + 16 * |cpb|
    modifies guard, arena`pages, arena`next, arena.pool`frames, arena.pool`used, arena.pool`guards,
             arena.pool.store, arena.pool.eviction
    ensures arena.Valid() && Untouched(old(arena.pool.Contents()), old(arena.pages), arena.pool.Contents(), arena.pages)
    ensures r.Ok? ==> arena.Nodes() == old(arena.Nodes()) && guard.used == old(guard.used)
    ensures r.Ok? ==> Lists(phuis, Family(Elems(prefix) + {item}, validItems.Keys) * Heavy(g))
    ensures arena.pool.store.faults >= old(arena.pool.store.faults)
    ensures r.Err? ==> ArenaExcused(r.error, arena.pool.budget, arena.pool.store.faults > old(arena.pool.store.faults),
                                    Crowded(old(arena.next), n, m))
    decreases |tree.header|, 0
  {
    hide *;
    ghost var P, E, key := Elems(prefix), tree.header.Keys, TreeKey(tree.header);
    phuis := [];
    LevelPaths(g, tree.inserted, key, E, P);
    NewPrefix(g, tree.inserted, key, E, prefix, item);
    BaseFacts(tree.inserted, key, E, item, cpb);
    SmallerHeader(g, tree.inserted, key, tree.header, P, item, cpb, validItems);
    var savedPtr := arena.next;
    ghost var nodes := arena.Nodes();
    var made, cut := BuildLocal(arena, validItems, cpb, guard, n, m - 1);
    CrowdedAbove(savedPtr, arena.next, n, m);
    ghost var middle, middlePages := arena.pool.Contents(), arena.pages;
    ghost var faults := arena.pool.store.faults;
    if made.Err? {
      ArenaLater(Err(made.error), arena.pool.budget, old(arena.pool.store.faults), old(arena.pool.store.faults), faults,
                 TreeCrowded(savedPtr, n, m - 1), Crowded(savedPtr, n, m));
      return Err(made.error), [];
    }
    var localTree := made.value;
    ghost var deep := Crowded(arena.next, n, m - 1);
    NextLocal(g, tree.inserted, key, E, P, item, cpb, validItems, cut);
    NewPrefix(g, tree.inserted, key, E, prefix, item);
    r, phuis := MineAndDiscard(g, localTree, arena, prefix + [item], savedPtr, min, guard, n, m - 1);
    UntouchedTwice(old(arena.pool.Contents()), old(arena.pages), middle, middlePages, arena.pool.Contents(), arena.pages);
    ArenaLater(r, arena.pool.budget, old(arena.pool.store.faults), faults, arena.pool.store.faults, deep, Crowded(savedPtr, n, m));
  }

  /** Mines a tree, then gives its header bytes and its nodes back. */
  method MineAndDiscard(ghost g: Search, tree: UpTree, arena: NodeArena, prefix: seq<ItemId>, savedPtr: nat, min: int,
                        guard: MemoryGuard, ghost n: nat, ghost m: nat)
    returns (r: Result<()>, phuis: seq<seq<ItemId>>)
    requires arena.Valid() && tree.Represents(arena.Nodes()) && min == g.min && Distinct(prefix) && Fits32(g.items)
    requires Level(g, tree.inserted, TreeKey(tree.header), tree.header.Keys, Elems(prefix)) && Within(tree.inserted, n, m)
    requires savedPtr <= arena.next && |tree.header| * 32 <= guard.used
    modifies guard, arena`pages, arena`next, arena.pool`frames, arena.pool`used, arena.pool`guards,
             arena.pool.store, arena.pool.eviction
    ensures arena.Valid() && Untouched(old(arena.pool.Contents()), old(arena.pages), arena.pool.Contents(), arena.pages)
    ensures r.Ok? ==> arena.next == savedPtr && arena.Nodes() == old(arena.Nodes())[..savedPtr]
    ensures r.Ok? ==> guard.used == old(guard.used) - |tree.header| * 32
    ensures r.Ok? ==> Lists(phuis, Family(Elems(prefix), tree.header.Keys) * Heavy(g))
    ensures arena.pool.store.faults >= old(arena.pool.store.faults)
    ensures r.Err? ==> ArenaExcused(r.error, arena.pool.budget, arena.pool.store.faults > old(arena.pool.store.faults),
                                    Crowded(old(arena.next), n, m))
    decreases |tree.header|, 3
  {
    hide *;
    r, phuis := MineAll(g, tree, arena, prefix, min, guard, n, m);
    if r.Err? { return; }
    guard.Free(|tree.header| * 32);
    arena.Reset(savedPtr);
  }

  /** Every item of a tree, in task order. */
  method MineAll(ghost g: Search, tree: UpTree, arena: NodeArena, prefix: seq<ItemId>, min: int, guard: MemoryGuard,
                 ghost n: nat, ghost m: nat)
    returns (r: Result<()>, phuis: seq<seq<ItemId>>)
    requires arena.Valid() && tree.Represents(arena.Nodes()) && min == g.min && Distinct(prefix) && Fits32(g.items)
    requires Level(g, tree.inserted, TreeKey(tree.header), tree.header.Keys, Elems(prefix)) && Within(tree.inserted, n, m)
    modifies guard, arena`pages, arena`next, arena.pool`frames, arena.pool`used, arena.pool`guards,
             arena.pool.store, arena.pool.eviction
    ensures arena.Valid() && Untouched(old(arena.pool.Contents()), old(arena.pages), arena.pool.Contents(), arena.pages)
    ensures r.Ok? ==> arena.Nodes() == old(arena.Nodes()) && guard.used == old(guard.used)
    ensures r.Ok? ==> Lists(phuis, Family(Elems(prefix), tree.header.Keys) * Heavy(g))
    ensures arena.pool.store.faults >= old(arena.pool.store.faults)
    ensures r.Err? ==> ArenaExcused(r.error, arena.pool.budget, arena.pool.store.faults > old(arena.pool.store.faults),
                                    Crowded(old(arena.next), n, m))
    decreases |tree.header|, 2
  {
    hide NodeArena.Valid, NodeArena.Nodes, BufferPool.Contents, UpTree.Holds, Level, Lists, Family, Heavy, Distinct,
         Earlier, Covered, Branch,
         Fits32, WellWeighted, Load, SortedPath;
    phuis := [];
    ghost var P, key := Elems(prefix), TreeKey(tree.header);
    LevelPaths(g, tree.inserted, key, tree.header.Keys, P);
    assert key.Keys == tree.header.Keys;
    var items := TaskOrder(TreeKey(tree.header));
    ListsLoopStart(P, items, Heavy(g));
    for i := 0 to |items|
      invariant arena.Valid() && Untouched(old(arena.pool.Contents()), old(arena.pages), arena.pool.Contents(), arena.pages)
      invariant arena.pool.store.faults >= old(arena.pool.store.faults)
      invariant arena.Nodes() == old(arena.Nodes()) && guard.used == old(guard.used)
      invariant Lists(phuis, Covered(P, items, i) * Heavy(g))
    {
      assert arena.next == |arena.Nodes()|;
      var step, more := MineUpTree(g, tree, arena, items[i], Elems(items[i + 1..]), prefix, min, guard, n, m);
      if step.Err? { return step, []; }
      ListsLoopStep(P, items, i, Heavy(g), phuis, more);
      phuis := phuis + more;
    }
    CoveredEnds(P, items);
    r := Ok(());
  }

  lemma SmallerHeader(g: Search, L: seq<WPath>, key: TwuMap, header: Header, P: ItemSet, a: ItemId, cpb: seq<Cond>,
                      validItems: TwuMap)
    requires Level(g, L, key, header.Keys, P) && a in header && Based(L, key, header.Keys, a, cpb)
    requires KeptLocally(cpb, g.min, validItems.Keys) && Fits32(g.items)
    ensures |validItems| < |header| && Fits32(validItems.Keys)
  {
    hide Based, Occurs, Total;
    var keep, E := validItems.Keys, header.Keys;
    forall x | x in keep ensures x in E && x in g.items && x != a {
      KeptAbove(g, L, key, E, P, a, cpb, keep, x);
      assert x in P + E;
    }
    assert a in E - keep;
    assert E == keep + (E - keep);
    assert |E| == |keep| + |E - keep|;
    assert |header| == |E| && |validItems| == |keep|;
  }

  lemma NextLocal(g: Search, L: seq<WPath>, key: TwuMap, E: ItemSet, P: ItemSet, a: ItemId, cpb: seq<Cond>,
                  validItems: TwuMap, cut: seq<Cond>)
    requires Level(g, L, key, E, P) && a in E && Based(L, key, E, a, cpb) && KeptLocally(cpb, g.min, validItems.Keys)
    requires CutBase(cpb, |cpb|, validItems.Keys, validItems, cut)
    ensures Level(g, Uniforms(cut), validItems, validItems.Keys, P + {a})
  {
    assert cpb[..|cpb|] == cpb;
    NextLevel(g, L, key, E, P, a, cpb, validItems.Keys, cut, validItems);
  }

  // ----- the global tree

  /** The kept items up to and including a, in tree order. */
  ghost function UpTo(twu: TwuMap, a: ItemId): ItemSet {
    twu.Keys - After(Negate(twu), a)
  }

  /** The path of one filtered transaction, with its prefix utilities. */
  ghost function UpPath(f: FilteredTransaction): (l: WPath)
    ensures l.items == ItemIds(f.items) && l.cap == TotalOf(f.items)
    ensures |l.ws| == |f.items| && forall i | 0 <= i < |f.items| :: l.ws[i] == TotalOf(f.items[..i + 1])
  {
    WPath(ItemIds(f.items), seq(|f.items|, i requires 0 <= i < |f.items| => TotalOf(f.items[..i + 1])), TotalOf(f.items))
  }

  lemma {:induction false} TotalOfPrefix(es: seq<ItemEntry>, n: nat)
    requires NonNegative(es) && n <= |es|
    ensures 0 <= TotalOf(es[..n]) <= TotalOf(es)
    decreases |es| - n
  {
    UtilityInNonNegative(es[..n], ItemsOf(es[..n]));
    if n == |es| {
      assert es[..n] == es;
    } else {
      Huim.TotalSnoc(es, n);
      TotalOfPrefix(es, n + 1);
    }
  }

  lemma UpPathFormed(twu: TwuMap, t: Transaction, f: FilteredTransaction)
    requires ValidTransaction(t) && Filters(Negate(twu), t, f)
    ensures WellFormed(UpPath(f)) && SortedPath(twu, UpPath(f).items) && Elems(UpPath(f).items) == ItemsOf(t.items) * twu.Keys
    ensures UpPath(f).cap <= t.tu
  {
    var es, l := f.items, UpPath(f);
    forall i, j | 0 <= i < j < |es| ensures Before(twu, l.items[i], l.items[j]) {
      assert Less(Negate(twu), es[i].item, es[j].item);
    }
    SortedDistinct(twu, l.items);
    ItemIdsElems(es);
    forall i | 0 <= i < |es| ensures 0 <= l.ws[i] <= l.cap {
      TotalOfPrefix(es, i + 1);
    }
    TotalOfPrefix(es, |es|);
    UtilityInRestrict(t.items, ItemsOf(es) * twu.Keys, ItemsOf(es));
    UtilityInMonotone(t.items, ItemsOf(es), ItemsOf(t.items));
  }

  /** The prefix utility at an item is the utility of the kept items up to it. */
  lemma PrefixUtilityIs(twu: TwuMap, t: Transaction, f: FilteredTransaction, k: nat)
    requires Filters(Negate(twu), t, f) && k < |f.items|
    ensures TotalOf(f.items[..k + 1]) == UtilityIn(t.items, UpTo(twu, f.items[k].item))
  {
    hide UtilityIn, Less;
    var es, a := f.items, f.items[k].item;
    var A := UpTo(twu, a);
    SortedSuffix(Negate(twu), es, k);
    var front, back := es[..k + 1], es[k + 1..];
    assert es == front + back;
    ItemsOfConcat(front, back);
    UtilityInConcat(front, back, A);
    assert ItemsOf(front) <= A;
    assert A !! ItemsOf(back);
    UtilityInRestrict(front, A, ItemsOf(front));
    UtilityInAbsent(back, A);
    assert A * Negate(twu).Keys == A;
  }

  lemma ItemsOfConcat(a: seq<ItemEntry>, b: seq<ItemEntry>)
    ensures ItemsOf(a + b) == ItemsOf(a) + ItemsOf(b)
  {
    assert forall e :: e in a + b <==> e in a || e in b;
  }

  /** The global paths after n transactions: for every kept itemset, the estimate is the utility of the
      items up to its last one, over its supporting transactions. */
  ghost predicate Global(db: Database, n: nat, twu: TwuMap, L: seq<WPath>)
    requires n <= |db|
  {
    && WellWeighted(L) && Load(L) <= TotalTu(db[..n])
    && (forall k | 0 <= k < |L| :: SortedPath(twu, L[k].items) && Elems(L[k].items) <= twu.Keys)
    && (forall X: ItemSet, a | X <= twu.Keys && IsLast(twu, X, a) :: Estimated(db, n, twu, L, X, a))
  }

  ghost predicate Estimated(db: Database, n: nat, twu: TwuMap, L: seq<WPath>, X: ItemSet, a: ItemId)
    requires n <= |db| && WellWeighted(L)
  {
    && CondWeight(L, a, X - {a}) == CoverSum(db[..n], X, UpTo(twu, a))
    && (Passed(L, a, X - {a}) <==> Supported(db[..n], X))
  }

  lemma GlobalStart(db: Database, twu: TwuMap)
    ensures Global(db, 0, twu, [])
  {
  }

  lemma MatchedPosition(l: WPath, a: ItemId, Y: ItemSet)
    requires PathMatches(l, a, Y)
    ensures Pos(l.items, a) < |l.items|
  {
  }

  lemma CondWeightSnoc(L: seq<WPath>, l: WPath, a: ItemId, Y: ItemSet)
    requires WellWeighted(L) && WellFormed(l)
    ensures CondWeight(L + [l], a, Y) == CondWeight(L, a, Y) + (if PathMatches(l, a, Y) then l.ws[Pos(l.items, a)] else 0)
  {
    hide PathMatches;
    if PathMatches(l, a, Y) { MatchedPosition(l, a, Y); }
    assert (L + [l])[..|L|] == L && (L + [l])[|L|] == l;
  }

  lemma PassedSnoc(L: seq<WPath>, l: WPath, a: ItemId, Y: ItemSet)
    ensures Passed(L + [l], a, Y) <==> Passed(L, a, Y) || PathMatches(l, a, Y)
  {
    hide PathMatches;
    var L' := L + [l];
    assert L'[|L|] == l && forall k | 0 <= k < |L| :: L'[k] == L[k];
    if Passed(L, a, Y) {
      var k :| 0 <= k < |L| && PathMatches(L[k], a, Y);
      assert PathMatches(L'[k], a, Y);
    }
  }

  lemma EstimatedStep(db: Database, n: nat, twu: TwuMap, L: seq<WPath>, f: FilteredTransaction, X: ItemSet, a: ItemId)
    requires ValidDatabase(db) && n < |db| && WellWeighted(L) && Filters(Negate(twu), db[n], f)
    requires X <= twu.Keys && IsLast(twu, X, a) && Estimated(db, n, twu, L, X, a) && WellFormed(UpPath(f))
    requires WellWeighted(L + [UpPath(f)])
    ensures Estimated(db, n + 1, twu, L + [UpPath(f)], X, a)
  {
    hide CondWeight, CoverSum, UtilityIn, Supported, Passed, Filters, UpPath, Before, UpTo, ValidTransaction;
    var l, Y := UpPath(f), X - {a};
    assert ValidTransaction(db[n]);
    UpPathFormed(twu, db[n], f);
    CondWeightSnoc(L, l, a, Y);
    PassedSnoc(L, l, a, Y);
    PrefixStep(db, n, X, UpTo(twu, a));
    SortedMatches(twu, l.items, a, Y);
    assert Y + {a} == X;
    assert X <= ItemsOf(db[n].items) <==> X <= Elems(l.items);
    if PathMatches(l, a, Y) {
      PrefixUtilityIs(twu, db[n], f, Pos(l.items, a));
    }
  }

  lemma GlobalStep(db: Database, n: nat, twu: TwuMap, L: seq<WPath>, f: FilteredTransaction)
    requires ValidDatabase(db) && n < |db| && Global(db, n, twu, L) && Filters(Negate(twu), db[n], f)
    ensures Global(db, n + 1, twu, L + [UpPath(f)]) && WellFormed(UpPath(f)) && WellWeighted(L)
    ensures Load(L) + UpPath(f).cap <= TotalTu(db[..n + 1])
  {
    hide Estimated, UtilityIn, Twu, Filters, UpPath, Before, ValidTransaction;
    assert ValidTransaction(db[n]);
    UpPathFormed(twu, db[n], f);
    var L' := L + [UpPath(f)];
    assert L'[..|L|] == L;
    PrefixStep(db, n, {}, {});
    forall k | 0 <= k < |L'| ensures WellFormed(L'[k]) && SortedPath(twu, L'[k].items) && Elems(L'[k].items) <= twu.Keys {
      if k < |L| { assert L'[k] == L[k]; }
    }
    forall X: ItemSet, a | X <= twu.Keys && IsLast(twu, X, a) ensures Estimated(db, n + 1, twu, L', X, a) {
      EstimatedStep(db, n, twu, L, f, X, a);
    }
  }

  /** A transaction without kept items changes nothing. */
  lemma GlobalSkip(db: Database, n: nat, twu: TwuMap, L: seq<WPath>)
    requires ValidDatabase(db) && n < |db| && Global(db, n, twu, L) && ItemsOf(db[n].items) * twu.Keys == {}
    ensures Global(db, n + 1, twu, L)
  {
    hide CondWeight, CoverSum, UtilityIn, Supported, Passed, Before, UpTo, Twu;
    TuCovers(db, n);
    PrefixStep(db, n, {}, {});
    forall X: ItemSet, a | X <= twu.Keys && IsLast(twu, X, a) ensures Estimated(db, n + 1, twu, L, X, a) {
      PrefixStep(db, n, X, UpTo(twu, a));
      assert a in X && a !in ItemsOf(db[n].items) * twu.Keys;
    }
  }

  /** One transaction of phase 2. */
  method AddTransaction(db: Database, n: nat, twu: TwuMap, arena: NodeArena, tree: UpTree) returns (r: Result<()>)
    requires ValidDatabase(db) && FitsWidths(db) && Fits32(twu.Keys) && n < |db|
    requires arena.Valid() && tree.Represents(arena.Nodes()) && tree.header.Keys == twu.Keys
    requires Global(db, n, twu, tree.inserted) && Within(tree.inserted, n, Longest(db))
    modifies tree, arena`pages, arena`next, arena.pool`frames, arena.pool`used, arena.pool`guards,
             arena.pool.store, arena.pool.eviction
    ensures arena.Valid() && Untouched(old(arena.pool.Contents()), old(arena.pages), arena.pool.Contents(), arena.pages)
    ensures tree.header.Keys == twu.Keys && TreeKey(tree.header) == TreeKey(old(tree.header))
    ensures r.Ok? ==> tree.Represents(arena.Nodes()) && Global(db, n + 1, twu, tree.inserted)
    ensures r.Ok? ==> Within(tree.inserted, n + 1, Longest(db))
    ensures arena.pool.store.faults >= old(arena.pool.store.faults)
    ensures r.Err? ==> ArenaExcused(r.error, arena.pool.budget, arena.pool.store.faults > old(arena.pool.store.faults),
                                    TreeCrowded(tree.root, |db|, Longest(db)))
  {
    hide NodeArena.Valid, NodeArena.Nodes, BufferPool.Contents, UpTree.Holds, Global, ValidDatabase, FitsWidths, Twu,
         Filters, UpPath, Load, TreeKey, Fits32, WellWeighted, WellFormed, TreeCrowded;
    TransactionAt(db, n);
    var f := Apply(Negate(twu), db[n]);
    if f.Some? {
      GlobalStep(db, n, twu, tree.inserted, f.value);
      GlobalRoom(db, n, twu, f.value, tree.inserted);
      AppliedShort(db, n, twu, f.value);
      WithinSnoc(tree.inserted, UpPath(f.value), n, Longest(db));
      r := tree.Insert(arena, f.value.items, UpPath(f.value), n, Longest(db));
      if r.Err? && TreeCrowded(tree.root, n + 1, Longest(db)) { CrowdedMore(tree.root, n + 1, |db|, Longest(db)); }
    } else {
      GlobalSkip(db, n, twu, tree.inserted);
      r := Ok(());
    }
  }

  /** Phase 2: the global tree. */
  method BuildGlobal(db: Database, twu: TwuMap, arena: NodeArena, tree: UpTree) returns (r: Result<()>)
    requires ValidDatabase(db) && FitsWidths(db) && Fits32(twu.Keys)
    requires arena.Valid() && tree.Represents(arena.Nodes()) && tree.inserted == [] && tree.header.Keys == twu.Keys
    modifies tree, arena`pages, arena`next, arena.pool`frames, arena.pool`used, arena.pool`guards,
             arena.pool.store, arena.pool.eviction
    ensures arena.Valid() && Untouched(old(arena.pool.Contents()), old(arena.pages), arena.pool.Contents(), arena.pages)
    ensures tree.header.Keys == twu.Keys && TreeKey(tree.header) == TreeKey(old(tree.header))
    ensures r.Ok? ==> Within(tree.inserted, |db|, Longest(db)) && TreeEnds(arena.next, tree.root, |db|, Longest(db))
    ensures r.Ok? ==> tree.Represents(arena.Nodes()) && Global(db, |db|, twu, tree.inserted)
    ensures arena.pool.store.faults >= old(arena.pool.store.faults)
    ensures r.Err? ==> ArenaExcused(r.error, arena.pool.budget, arena.pool.store.faults > old(arena.pool.store.faults),
                                    TreeCrowded(tree.root, |db|, Longest(db)))
  {
    hide NodeArena.Valid, NodeArena.Nodes, BufferPool.Contents, UpTree.Holds, Global, ValidDatabase, FitsWidths, Twu,
         Filters, UpPath, Load, TreeKey,
         Fits32, WellWeighted, WellFormed, TreeCrowded, TreeEnds;
    GlobalStart(db, twu);
    for n := 0 to |db|
      invariant arena.Valid() && Untouched(old(arena.pool.Contents()), old(arena.pages), arena.pool.Contents(), arena.pages)
      invariant arena.pool.store.faults >= old(arena.pool.store.faults)
      invariant tree.Represents(arena.Nodes()) && Global(db, n, twu, tree.inserted) && Within(tree.inserted, n, Longest(db))
      invariant tree.header.Keys == twu.Keys && TreeKey(tree.header) == TreeKey(old(tree.header))
    {
      var w := AddTransaction(db, n, twu, arena, tree);
      if w.Err? { return w; }
    }
    TreeReach(arena, tree, |db|, Longest(db));
    r := Ok(());
  }

  lemma AppliedShort(db: Database, n: nat, twu: TwuMap, f: FilteredTransaction)
    requires n < |db| && Apply(Negate(twu), db[n]) == Some(f)
    ensures |f.items| <= Longest(db)
  {
    ApplyShort(Negate(twu), db[n]);
  }

  lemma TransactionAt(db: Database, n: nat)
    requires ValidDatabase(db) && n < |db|
    ensures ValidTransaction(db[n])
  {
  }

  lemma GlobalRoom(db: Database, n: nat, twu: TwuMap, f: FilteredTransaction, L: seq<WPath>)
    requires ValidDatabase(db) && FitsWidths(db) && n < |db| && Fits32(twu.Keys) && Filters(Negate(twu), db[n], f)
    requires Load(L) + UpPath(f).cap <= TotalTu(db[..n + 1])
    ensures Load(L) + UpPath(f).cap <= I64_MAX && ItemsOf(f.items) <= twu.Keys && Fits32(ItemsOf(f.items))
    ensures |UpPath(f).items| == |UpPath(f).ws| == |f.items| && UpPath(f).items == ItemIds(f.items)
    ensures forall i | 0 <= i < |f.items| :: UpPath(f).ws[i] == TotalOf(f.items[..i + 1])
  {
    PrefixTotal(db, n + 1);
  }

  /** What the tree mining lists: supported itemsets whose prefix-utility estimate reaches the threshold. */
  ghost predicate IsUpHeavy(db: Database, min: int, twu: TwuMap, X: ItemSet) {
    X != {} && X <= twu.Keys && Supported(db, X) && exists a :: IsLast(twu, X, a) && CoverSum(db, X, UpTo(twu, a)) >= min
  }

  ghost function UpHeavy(db: Database, min: int, twu: TwuMap): iset<ItemSet> {
    iset X: ItemSet | IsUpHeavy(db, min, twu, X)
  }

  /** The estimate lies between the utility and the TWU: no high-utility itemset is missed, and there are
      never more candidates than IHUP has. */
  lemma UpHeavyBetween(db: Database, min: int, twu: TwuMap)
    requires ValidDatabase(db) && IsTwuFilter(db, min, twu)
    ensures Huis(db, min) <= UpHeavy(db, min, twu) <= TwuHeavy(db, min)
  {
    hide IsHui, IsUpHeavy, TwuHeavy, IsTwuFilter, ValidDatabase;
    forall X | IsHui(db, min, X) ensures IsUpHeavy(db, min, twu, X) {
      HuiUpHeavy(db, min, twu, X);
    }
    forall X | IsUpHeavy(db, min, twu, X) ensures X in TwuHeavy(db, min) {
      UpHeavyTwu(db, min, twu, X);
    }
  }

  lemma HuiUpHeavy(db: Database, min: int, twu: TwuMap, X: ItemSet)
    requires ValidDatabase(db) && IsTwuFilter(db, min, twu) && IsHui(db, min, X)
    ensures IsUpHeavy(db, min, twu, X)
  {
    hide CoverSum, IsTwuFilter, ValidDatabase, UpTo, IsLast, Supported;
    HuiKept(db, min, twu, X);
    var a := LastExists(twu, X);
    LastIsUpTo(twu, X, a);
    CoverSumMonotone(db, X, UpTo(twu, a), X, X);
  }

  lemma UpHeavyTwu(db: Database, min: int, twu: TwuMap, X: ItemSet)
    requires ValidDatabase(db) && IsUpHeavy(db, min, twu, X)
    ensures X in TwuHeavy(db, min)
  {
    hide CoverSum, Twu, ValidDatabase, UpTo, IsLast, Supported;
    var a :| IsLast(twu, X, a) && CoverSum(db, X, UpTo(twu, a)) >= min;
    CoverSumBelowTwu(db, X, UpTo(twu, a));
  }

  lemma LastIsUpTo(twu: TwuMap, X: ItemSet, a: ItemId)
    requires X <= twu.Keys && IsLast(twu, X, a)
    ensures X <= UpTo(twu, a)
  {
    forall y | y in X ensures y !in After(Negate(twu), a) {
      BeforeOrder(twu, a, y, a);
    }
  }

  lemma GlobalLevel(db: Database, min: int, twu: TwuMap, L: seq<WPath>)
    requires ValidDatabase(db) && FitsWidths(db) && IsTwuFilter(db, min, twu) && Global(db, |db|, twu, L)
    ensures var g := Search(L, twu, twu.Keys, min); Level(g, L, twu, twu.Keys, {}) && Heavy(g) == UpHeavy(db, min, twu)
  {
    hide Estimated, CondWeight, CoverSum, Supported, Passed, Before, Twu, Level, ValidDatabase, IsHeavy, IsUpHeavy;
    var g := Search(L, twu, twu.Keys, min);
    assert db[..|db|] == db;
    PrefixTotal(db, |db|);
    forall a | a in twu.Keys ensures Passed(L, a, {}) {
      GlobalItem(db, min, twu, L, a);
    }
    TopLevel(g);
    forall X ensures IsHeavy(g, X) <==> IsUpHeavy(db, min, twu, X) {
      GlobalHeavyAt(db, min, twu, L, X);
    }
  }

  /** At every depth, whatever was cut and however the conditional tree was re-sorted, the summed weight of
      an item's header chain bounds the utility of every itemset mined below it. */
  lemma ChainBounds(db: Database, min: int, twu: TwuMap, L0: seq<WPath>, L: seq<WPath>, key: TwuMap, E: ItemSet,
                    P: ItemSet, a: ItemId, Y: ItemSet)
    requires ValidDatabase(db) && Global(db, |db|, twu, L0) && Level(Search(L0, twu, twu.Keys, min), L, key, E, P)
    requires a in E && Y <= E && forall y | y in Y :: Before(key, y, a)
    ensures WellWeighted(L) && Utility(db, P + Y + {a}) <= CondWeight(L, a, {})
  {
    hide CondWeight, CoverSum, Passed, IsLast, UpTo, ValidDatabase, Before;
    var g, X := Search(L0, twu, twu.Keys, min), P + Y + {a};
    assert a in X && X <= twu.Keys;
    assert Measured(g, L, P, a, Y);
    var b := LastExists(twu, X);
    assert Estimated(db, |db|, twu, L0, X, b);
    assert db[..|db|] == db;
    LastIsUpTo(twu, X, b);
    CoverSumMonotone(db, X, UpTo(twu, b), X, X);
    CondWeightMonotone(L, a, {}, Y);
  }

  lemma GlobalItem(db: Database, min: int, twu: TwuMap, L: seq<WPath>, a: ItemId)
    requires IsTwuFilter(db, min, twu) && Global(db, |db|, twu, L) && a in twu
    ensures Passed(L, a, {})
  {
    hide CondWeight, CoverSum, Passed, Twu;
    assert db[..|db|] == db;
    assert IsLast(twu, {a}, a) && {a} <= twu.Keys;
    assert Estimated(db, |db|, twu, L, {a}, a);
    assert {a} - {a} == {};
  }

  lemma GlobalHeavyAt(db: Database, min: int, twu: TwuMap, L: seq<WPath>, X: ItemSet)
    requires Global(db, |db|, twu, L)
    ensures IsHeavy(Search(L, twu, twu.Keys, min), X) <==> IsUpHeavy(db, min, twu, X)
  {
    hide CondWeight, CoverSum, Passed, Twu, Supported, IsLast, UpTo;
    assert db[..|db|] == db;
    if X <= twu.Keys {
      forall a | IsLast(twu, X, a)
        ensures CondWeight(L, a, X - {a}) == CoverSum(db, X, UpTo(twu, a)) && (Passed(L, a, X - {a}) <==> Supported(db, X))
      {
        assert Estimated(db, |db|, twu, L, X, a);
      }
    }
  }

  // ----- the run

  ghost predicate Named(unique: set<seq<ItemId>>, X: ItemSet) {
    exists s :: s in unique && Elems(s) == X
  }

  /** Every member is the sorted form of one of the first k candidates, and each of them has one. */
  ghost predicate SoundForms(phuis: seq<seq<ItemId>>, k: nat, unique: set<seq<ItemId>>)
    requires k <= |phuis|
  {
    forall s | s in unique :: SortedItems(map[], s) && Distinct(s) && Listed(phuis, k, Elems(s))
  }

  ghost predicate AllForms(phuis: seq<seq<ItemId>>, k: nat, unique: set<seq<ItemId>>)
    requires k <= |phuis|
  {
    forall j | 0 <= j < k :: Named(unique, Elems(phuis[j]))
  }

  lemma SoundFormsNext(phuis: seq<seq<ItemId>>, k: nat, unique: set<seq<ItemId>>, p: seq<ItemId>)
    requires k < |phuis| && SoundForms(phuis, k, unique) && SortedItems(map[], p) && Distinct(p) && Elems(p) == Elems(phuis[k])
    ensures SoundForms(phuis, k + 1, unique + {p})
  {
    hide Distinct, SortedItems;
    forall s | s in unique + {p} ensures Listed(phuis, k + 1, Elems(s)) {
      if s in unique {
        assert Listed(phuis, k, Elems(s));
        var j :| 0 <= j < k && Elems(phuis[j]) == Elems(s);
        assert 0 <= j < k + 1;
      } else {
        assert 0 <= k < k + 1;
      }
    }
  }

  lemma AllFormsNext(phuis: seq<seq<ItemId>>, k: nat, unique: set<seq<ItemId>>, p: seq<ItemId>)
    requires k < |phuis| && AllForms(phuis, k, unique) && Elems(p) == Elems(phuis[k])
    ensures AllForms(phuis, k + 1, unique + {p})
  {
    forall j | 0 <= j < k + 1 ensures Named(unique + {p}, Elems(phuis[j])) {
      if j < k {
        assert Named(unique, Elems(phuis[j]));
        var s :| s in unique && Elems(s) == Elems(phuis[j]);
        assert s in unique + {p};
      } else {
        assert p in unique + {p};
      }
    }
  }

  /** Sorts every candidate by item id, drops repetitions, and continues in whatever order the hash set
      yields them. */
  method Deduplicate(phuis: seq<seq<ItemId>>, ghost F: iset<ItemSet>) returns (cands: seq<seq<ItemId>>)
    requires Lists(phuis, F)
    ensures Lists(cands, F)
  {
    hide Lists, SoundForms, AllForms, SortedItems;
    var unique: set<seq<ItemId>> := {};
    NoForms(phuis);
    for k := 0 to |phuis|
      invariant SoundForms(phuis, k, unique) && AllForms(phuis, k, unique)
    {
      var p := SortedKeys(map[], Elems(phuis[k]));
      SoundFormsNext(phuis, k, unique, p);
      AllFormsNext(phuis, k, unique, p);
      unique := unique + {p};
    }
    cands := [];
    var rest := unique;
    while rest != {}
      invariant rest <= unique && Elems(cands) == unique - rest && Distinct(cands)
      decreases rest
    {
      var s :| s in rest;
      assert s !in Elems(cands);
      assert Elems(cands + [s]) == Elems(cands) + {s};
      cands := cands + [s];
      rest := rest - {s};
    }
    UniqueLists(phuis, unique, cands, F);
  }

  lemma NoForms(phuis: seq<seq<ItemId>>)
    ensures SoundForms(phuis, 0, {}) && AllForms(phuis, 0, {})
  {
  }

  lemma UniqueLists(phuis: seq<seq<ItemId>>, unique: set<seq<ItemId>>, cands: seq<seq<ItemId>>, F: iset<ItemSet>)
    requires Lists(phuis, F) && Elems(cands) == unique && Distinct(cands)
    requires SoundForms(phuis, |phuis|, unique) && AllForms(phuis, |phuis|, unique)
    ensures Lists(cands, F)
  {
    hide Lists, AllForms, SortedItems;
    AllListed(phuis, F);
    forall k | 0 <= k < |cands| ensures Distinct(cands[k]) && Elems(cands[k]) in F && SortedItems(map[], cands[k]) {
      assert cands[k] in Elems(cands);
    }
    forall i, j | 0 <= i < j < |cands| ensures Elems(cands[i]) != Elems(cands[j]) {
      if Elems(cands[i]) == Elems(cands[j]) { SortedUnique(map[], cands[i], cands[j]); }
    }
    forall X | X in F ensures Listed(cands, |cands|, X) {
      NamedListed(phuis, unique, cands, X);
    }
    ListsFrom(cands, F);
  }

  lemma NamedListed(phuis: seq<seq<ItemId>>, unique: set<seq<ItemId>>, cands: seq<seq<ItemId>>, X: ItemSet)
    requires Elems(cands) == unique && AllForms(phuis, |phuis|, unique) && Listed(phuis, |phuis|, X)
    ensures Listed(cands, |cands|, X)
  {
    var j :| 0 <= j < |phuis| && Elems(phuis[j]) == X;
    assert Named(unique, Elems(phuis[j]));
    var s :| s in unique && Elems(s) == X;
    assert s in Elems(cands);
    var k :| 0 <= k < |cands| && cands[k] == s;
  }

  lemma ListsFrom(cands: seq<seq<ItemId>>, F: iset<ItemSet>)
    requires forall k | 0 <= k < |cands| :: Distinct(cands[k]) && Elems(cands[k]) in F
    requires forall i, j | 0 <= i < j < |cands| :: Elems(cands[i]) != Elems(cands[j])
    requires forall X | X in F :: Listed(cands, |cands|, X)
    ensures Lists(cands, F)
  {
  }

  /** Phases 2 and 3: the global tree and everything mined from it. */
  method MineDatabase(db: Database, min: int, twu: TwuMap, header: Header, guard: MemoryGuard, pool: BufferPool, ghost held: nat)
    returns (r: Result<()>, phuis: seq<seq<ItemId>>)
    requires ValidDatabase(db) && FitsWidths(db) && pool.Valid() && pool.Idle() && IsTwuFilter(db, min, twu) && Fits32(twu.Keys)
    requires header.Keys == twu.Keys && TreeKey(header) == twu && guard.used == held + 32 * |twu|
    requires forall a | a in header :: header[a].head == NIL && header[a].tail == NIL
    modifies guard, pool`frames, pool`used, pool`guards, pool.store, pool.eviction
    ensures pool.Valid() && pool.Idle() && Grows(old(pool.Contents()), pool.Contents())
    ensures pool.store.faults >= old(pool.store.faults)
    ensures r.Err? ==> ArenaExcused(r.error, pool.budget, pool.store.faults > old(pool.store.faults), PointersShort(db))
    ensures r.Ok? ==> guard.used == old(guard.used) && Lists(phuis, UpHeavy(db, min, twu))
  {
    hide Consistent, Overlay, ResidentBytes, PinnedBytes, Data, PagesOf, ChunkStore.Pages, ChunkStore.Valid,
         ChunkStore.Stored,
         LruPolicy.Valid, Codec.Valid, NodeArena.Nodes, UpTree.Holds, Level, Lists, Family, Heavy, UpHeavy,
         ValidDatabase, FitsWidths, IsTwuFilter, Global, Slots, Distinct, TreeKey, WellWeighted;
    var arena := new NodeArena(pool);
    CrowdedRun(db, arena.next);
    var tree := NewTree(arena, header);
    if tree.Err? { return Err(tree.error), []; }
    var built := BuildGlobal(db, twu, arena, tree.value);
    CrowdedRun(db, arena.next);
    if built.Err? { return built, []; }
    ghost var g := Search(tree.value.inserted, twu, twu.Keys, min);
    GlobalLevel(db, min, twu, tree.value.inserted);
    NoPrefix();
    r, phuis := MineAll(g, tree.value, arena, [], min, guard, |db|, Longest(db));
    HeavyInFamily(db, min, twu);
  }

  /** The whole run. The candidates are exactly the itemsets whose prefix-utility estimate reaches the
      threshold, which is every high-utility itemset and perhaps more; what is written, unless a write
      fails, is exactly the high-utility itemsets. The ledger ends where it began, and no page outside
      the run's own is changed. */
  method Run(db: Database, min: int, guard: MemoryGuard, pool: BufferPool, out: ResultWriter)
    returns (r: Result<nat>, ghost found: seq<Hui>, ghost candidates: seq<seq<ItemId>>, ghost twu: TwuMap)
    requires ValidDatabase(db) && FitsWidths(db) && pool.Valid() && pool.Idle()
    requires forall k | 0 <= k < |db| :: Fits32(ItemsOf(db[k].items))
    modifies guard, pool`frames, pool`used, pool`guards, pool.store, pool.eviction, out
    ensures pool.Valid() && pool.Idle() && Grows(old(pool.Contents()), pool.Contents())
    ensures pool.store.faults >= old(pool.store.faults)
    ensures r.Err? ==> ArenaExcused(r.error, pool.budget, pool.store.faults > old(pool.store.faults), PointersShort(db))
    ensures out.huis == old(out.huis) + found && Sound(db, found, Huis(db, min))
    ensures r.Ok? ==> guard.used == old(guard.used)
    ensures r.Ok? ==> IsTwuFilter(db, min, twu) && Lists(candidates, UpHeavy(db, min, twu))
    ensures r.Ok? && out.Lost() == old(out.Lost()) ==> Emits(db, found, Huis(db, min)) && r.value == |found|
    ensures pool.store.faults == old(pool.store.faults) && 65536 <= pool.budget && !PointersShort(db) ==> r.Ok?
  {
    hide Consistent, Overlay, ResidentBytes, PinnedBytes, Data, PagesOf, ChunkStore.Pages, ChunkStore.Valid,
         ChunkStore.Stored,
         LruPolicy.Valid, Codec.Valid, NodeArena.Nodes, UpTree.Holds, Level, Lists, Family, Heavy, Emits, Huis, UpHeavy,
         ValidDatabase, FitsWidths, IsTwuFilter, Global, Slots, Distinct, TreeKey, WellWeighted;
    found, candidates := [], [];
    var filter := Compute(db, min);
    twu := filter.twu;
    KeptFit(db, min, twu);
    var header := EmptyHeader(filter.twu);
    var headerBytes := |header| * 32;
    guard.ForceAlloc(headerBytes);
    assert |header| == |twu| by { assert |header| == |header.Keys| && |twu| == |twu.Keys|; }
    var mined, phuis := MineDatabase(db, min, filter.twu, header, guard, pool, old(guard.used));
    if mined.Err? { return Err(mined.error), [], [], twu; }
    var cands := Deduplicate(phuis, UpHeavy(db, min, twu));
    var phuisBytes := CandidateBytes(cands);
    guard.ForceAlloc(phuisBytes);
    candidates := cands;
    CandidatesDistinct(cands, UpHeavy(db, min, twu));
    var utils := SumUtilities(db, cands);
    var tasks := ResultTasks(db, min, cands, utils, UpHeavy(db, min, twu));
    UpHeavyHasHuis(db, min, twu);
    found := WriteTasks(db, Huis(db, min), tasks, out);
    ReportsParts(db, found, Huis(db, min), out.Lost() == old(out.Lost()));
    guard.Free(headerBytes);
    guard.Free(phuisBytes);
    r := Ok(|tasks|);
  }

  lemma HeavyInFamily(db: Database, min: int, twu: TwuMap)
    ensures Family({}, twu.Keys) * UpHeavy(db, min, twu) == UpHeavy(db, min, twu)
  {
  }

  lemma UpHeavyHasHuis(db: Database, min: int, twu: TwuMap)
    requires ValidDatabase(db) && IsTwuFilter(db, min, twu)
    ensures (iset X | X in UpHeavy(db, min, twu) && Utility(db, X) >= min) == Huis(db, min)
  {
    hide CoverSum;
    UpHeavyBetween(db, min, twu);
  }
}
