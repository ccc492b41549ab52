/** What a tree in the arena looks like: a root slot, child and sibling pointers that name every node
    once, and header chains. Shared by the IHUP and UP-Growth trees. */
module PrefixTrees {
  import opened Huim
  import opened Options
  import opened Bytes
  import opened PageLayout
  import opened Storage
  import opened Lru
  import opened Pool
  import opened WeightedPaths
  import opened TreeArena

  type Paths = seq<seq<ItemId>>

  ghost predicate EndsIn(p: seq<ItemId>, a: ItemId) {
    p != [] && p[|p| - 1] == a
  }

  ghost predicate IsChild(p: seq<ItemId>, parent: seq<ItemId>) {
    p != [] && p[..|p| - 1] == parent
  }

  /** The newest child of a path among the first hi nodes, or -1. */
  ghost function LastChild(paths: Paths, hi: nat, parent: seq<ItemId>): (k: int)
    requires hi <= |paths|
    ensures -1 <= k < hi && (k >= 0 ==> IsChild(paths[k], parent))
    ensures forall j | k < j < hi :: !IsChild(paths[j], parent)
  {
    if hi == 0 then -1 else if IsChild(paths[hi - 1], parent) then hi - 1 else LastChild(paths, hi - 1, parent)
  }

  /** The newest node of an item among the first hi nodes, or -1. */
  ghost function LastNode(paths: Paths, hi: nat, a: ItemId): (k: int)
    requires hi <= |paths|
    ensures -1 <= k < hi && (k >= 0 ==> EndsIn(paths[k], a))
    ensures forall j | k < j < hi :: !EndsIn(paths[j], a)
  {
    if hi == 0 then -1 else if EndsIn(paths[hi - 1], a) then hi - 1 else LastNode(paths, hi - 1, a)
  }

  /** The oldest node of an item from position lo on, or -1. */
  ghost function NextNode(paths: Paths, lo: nat, a: ItemId): (k: int)
    requires lo <= |paths|
    ensures k == -1 || (lo <= k < |paths| && EndsIn(paths[k], a))
    ensures forall j | lo <= j < (if k < 0 then |paths| else k) :: !EndsIn(paths[j], a)
    decreases |paths| - lo
  {
    if lo == |paths| then -1 else if EndsIn(paths[lo], a) then lo else NextNode(paths, lo + 1, a)
  }

  /** The pointer to node k of the tree rooted at slot `root`. */
  function Ptr(root: nat, k: int): (p: nat)
    requires k >= -1
  {
    if k < 0 then NIL else root + k
  }

  lemma LastChildSnoc(paths: Paths, q: seq<ItemId>, hi: nat, parent: seq<ItemId>)
    requires hi <= |paths|
    ensures LastChild(paths + [q], hi, parent) == LastChild(paths, hi, parent)
    ensures LastChild(paths + [q], |paths| + 1, parent) == if IsChild(q, parent) then |paths| else LastChild(paths, |paths|, parent)
  {
    var more := paths + [q];
    assert forall j | 0 <= j < |paths| :: more[j] == paths[j];
    assert more[|paths|] == q;
  }

  lemma LastNodeSnoc(paths: Paths, q: seq<ItemId>, hi: nat, a: ItemId)
    requires hi <= |paths|
    ensures LastNode(paths + [q], hi, a) == LastNode(paths, hi, a)
    ensures LastNode(paths + [q], |paths| + 1, a) == if EndsIn(q, a) then |paths| else LastNode(paths, |paths|, a)
  {
    var more := paths + [q];
    assert forall j | 0 <= j < |paths| :: more[j] == paths[j];
    assert more[|paths|] == q;
  }

  lemma NextNodeSnoc(paths: Paths, q: seq<ItemId>, lo: nat, a: ItemId)
    requires lo <= |paths|
    ensures NextNode(paths + [q], lo, a) == if NextNode(paths, lo, a) == -1 && EndsIn(q, a) then |paths| else NextNode(paths, lo, a)
    ensures NextNode(paths + [q], |paths| + 1, a) == -1
  {
    var more := paths + [q];
    assert forall j | 0 <= j < |paths| :: more[j] == paths[j];
    assert more[|paths|] == q;
  }

  // ----- the spine: items, parents, children, siblings

  /** The nodes from slot `root` on are a tree whose node i stands for paths[i]. Parents and older
      siblings sit at smaller slots, so every upward or sideways walk ends. */
  ghost predicate Spine(nodes: seq<TreeNode>, root: nat, paths: Paths) {
    && |nodes| == root + |paths| && |nodes| <= NIL
    && |paths| > 0 && paths[0] == [] && Distinct(paths)
    && nodes[root].parent == NIL
    && (forall i | 0 <= i < |paths| :: Outer(nodes, root, paths, i))
    && (forall i | 0 < i < |paths| :: Inner(nodes, root, paths, i))
  }

  ghost predicate Outer(nodes: seq<TreeNode>, root: nat, paths: Paths, i: nat)
    requires |nodes| == root + |paths| && i < |paths|
  {
    NodeFits(nodes[root + i]) && nodes[root + i].firstChild == Ptr(root, LastChild(paths, |paths|, paths[i]))
  }

  ghost predicate Inner(nodes: seq<TreeNode>, root: nat, paths: Paths, i: nat)
    requires |nodes| == root + |paths| && 0 < i < |paths|
  {
    var n, p := nodes[root + i], paths[i];
    && p != [] && n.item == p[|p| - 1]
    && root <= n.parent < root + i && paths[n.parent - root] == p[..|p| - 1]
    && n.nextSibling == Ptr(root, LastChild(paths, i, p[..|p| - 1]))
  }

  function Weights(nodes: seq<TreeNode>, root: nat): (w: seq<int>)
    requires root <= |nodes|
    ensures |w| == |nodes| - root && forall i | 0 <= i < |w| :: w[i] == nodes[root + i].weight
  {
    seq(|nodes| - root, i requires 0 <= i < |nodes| - root => nodes[root + i].weight)
  }

  /** A single root. */
  lemma SpineNew(nodes: seq<TreeNode>, root: nat)
    requires |nodes| == root + 1 && |nodes| <= NIL && nodes[root] == TreeNode(0, 0, NIL, NIL, NIL, NIL)
    ensures Spine(nodes, root, [[]]) && TrieOf([[]], Weights(nodes, root), [])
  {
    assert LastChild([[]], 1, []) == -1 by { assert !IsChild([[]][0], []); }
    assert Outer(nodes, root, [[]], 0);
  }

  /** Changing the weight of one node. */
  lemma SpineReweigh(nodes: seq<TreeNode>, root: nat, paths: Paths, k: nat, w: int)
    requires Spine(nodes, root, paths) && k < |paths| && InI64(w)
    ensures var nodes' := nodes[root + k := nodes[root + k].(weight := w)];
            Spine(nodes', root, paths) && Weights(nodes', root) == Weights(nodes, root)[k := w]
  {
    hide LastChild;
    var nodes' := nodes[root + k := nodes[root + k].(weight := w)];
    forall i | 0 < i < |paths| ensures Inner(nodes', root, paths, i) {
      assert Inner(nodes, root, paths, i);
    }
    forall i | 0 <= i < |paths| ensures Outer(nodes', root, paths, i) {
      assert Outer(nodes, root, paths, i);
    }
  }

  /** The nodes after linking in a new newest child of node c. */
  ghost function Grown(nodes: seq<TreeNode>, root: nat, c: nat, item: ItemId, weight: int, link: nat): (r: seq<TreeNode>)
    requires root + c < |nodes|
    ensures |r| == |nodes| + 1
  {
    nodes[root + c := nodes[root + c].(firstChild := |nodes|)] + [TreeNode(item, weight, root + c, NIL, nodes[root + c].firstChild, link)]
  }

  lemma InnerGrow(nodes: seq<TreeNode>, root: nat, paths: Paths, c: nat, item: ItemId, weight: int, link: nat, i: nat)
    requires Spine(nodes, root, paths) && c < |paths| && 0 < i <= |paths|
    ensures Inner(Grown(nodes, root, c, item, weight, link), root, paths + [paths[c] + [item]], i)
  {
    hide LastChild;
    var q := paths[c] + [item];
    assert q[..|q| - 1] == paths[c];
    if i < |paths| {
      assert Inner(nodes, root, paths, i);
      LastChildSnoc(paths, q, i, paths[i][..|paths[i]| - 1]);
    } else {
      assert Outer(nodes, root, paths, c);
      LastChildSnoc(paths, q, i, paths[c]);
    }
  }

  lemma OuterGrow(nodes: seq<TreeNode>, root: nat, paths: Paths, c: nat, item: ItemId, weight: int, link: nat, i: nat)
    requires Spine(nodes, root, paths) && c < |paths| && i <= |paths| && |nodes| < NIL
    requires item < TWO_32 && InI64(weight) && link < TWO_32 && paths[c] + [item] !in paths
    ensures Outer(Grown(nodes, root, c, item, weight, link), root, paths + [paths[c] + [item]], i)
  {
    hide LastChild;
    var q := paths[c] + [item];
    assert q[..|q| - 1] == paths[c];
    assert Outer(nodes, root, paths, c);
    if i < |paths| {
      assert Outer(nodes, root, paths, i);
      LastChildSnoc(paths, q, i, paths[i]);
      assert IsChild(q, paths[i]) <==> i == c;
    } else {
      LastChildSnoc(paths, q, i, q);
      NoChildren(nodes, root, paths, q);
    }
  }

  lemma SpineGrow(nodes: seq<TreeNode>, root: nat, paths: Paths, c: nat, item: ItemId, weight: int, link: nat)
    requires Spine(nodes, root, paths) && c < |paths| && |nodes| < NIL
    requires item < TWO_32 && InI64(weight) && link < TWO_32 && paths[c] + [item] !in paths
    ensures var nodes' := Grown(nodes, root, c, item, weight, link);
            Spine(nodes', root, paths + [paths[c] + [item]]) && Weights(nodes', root) == Weights(nodes, root) + [weight]
  {
    hide Inner, Outer;
    var nodes', paths' := Grown(nodes, root, c, item, weight, link), paths + [paths[c] + [item]];
    forall i | 0 < i < |paths'| ensures Inner(nodes', root, paths', i) {
      InnerGrow(nodes, root, paths, c, item, weight, link, i);
    }
    forall i | 0 <= i < |paths'| ensures Outer(nodes', root, paths', i) {
      OuterGrow(nodes, root, paths, c, item, weight, link, i);
    }
  }

  lemma NoChildren(nodes: seq<TreeNode>, root: nat, paths: Paths, q: seq<ItemId>)
    requires Spine(nodes, root, paths) && q !in paths
    ensures LastChild(paths, |paths|, q) == -1 && !IsChild(q, q)
  {
    forall i | 0 <= i < |paths| ensures !IsChild(paths[i], q) {
      if i > 0 { assert Inner(nodes, root, paths, i); }
    }
    if q != [] { assert |q[..|q| - 1]| < |q|; }
  }

  /** Walks the children of the node at slot `current`, newest first, until one carries the item. */
  method FindChild(arena: NodeArena, ghost root: nat, ghost paths: Paths, current: nat, item: ItemId)
    returns (r: Result<Option<(nat, TreeNode)>>)
    requires arena.Valid() && Spine(arena.Nodes(), root, paths) && root <= current < arena.next
    modifies arena.pool`frames, arena.pool`used, arena.pool`guards, arena.pool.store, arena.pool.eviction
    ensures arena.Valid() && arena.pool.Contents() == old(arena.pool.Contents()) && arena.Nodes() == old(arena.Nodes())
    ensures r.Ok? && r.value.Some? ==> var (ptr, node) := r.value.value;
              && root < ptr < arena.next && paths[ptr - root] == paths[current - root] + [item] && node == arena.Nodes()[ptr]
    ensures r.Ok? && r.value.None? ==> paths[current - root] + [item] !in paths
    ensures arena.pool.store.faults >= old(arena.pool.store.faults)
    ensures r.Err? ==> ArenaExcused(r.error, arena.pool.budget, arena.pool.store.faults > old(arena.pool.store.faults),
                                    false)
  {
    hide NodeArena.Valid, NodeArena.Nodes, LastChild, Spine, BufferPool.Contents, IsChild;
    SpineChildren(arena.Nodes(), root, paths, current - root);
    ghost var parent := paths[current - root];
    var currNode := arena.GetNode(current);
    if currNode.Err? { return Err(currNode.error); }
    var childPtr := currNode.value.firstChild;
    ghost var hi: nat := |paths|;
    while childPtr != NIL
      invariant arena.Valid() && arena.pool.Contents() == old(arena.pool.Contents()) && arena.Nodes() == old(arena.Nodes())
      invariant arena.pool.store.faults >= old(arena.pool.store.faults)
      invariant hi <= |paths| && childPtr == Ptr(root, LastChild(paths, hi, parent))
      invariant forall j | hi <= j < |paths| :: paths[j] != parent + [item]
      decreases hi
    {
      ghost var k := LastChild(paths, hi, parent);
      SpineChild(arena.Nodes(), root, paths, hi, parent, item);
      var childNode := arena.GetNode(childPtr);
      if childNode.Err? { return Err(childNode.error); }
      if childNode.value.item == item {
        return Ok(Some((childPtr, childNode.value)));
      }
      childPtr := childNode.value.nextSibling;
      hi := k;
    }
    NoChildLeft(arena.Nodes(), root, paths, hi, parent, item);
    r := Ok(None);
  }

  lemma SpineChildren(nodes: seq<TreeNode>, root: nat, paths: Paths, c: nat)
    requires Spine(nodes, root, paths) && c < |nodes| - root
    ensures |nodes| == root + |paths| && NodeFits(nodes[root + c])
    ensures nodes[root + c].firstChild == Ptr(root, LastChild(paths, |paths|, paths[c]))
  {
    assert Outer(nodes, root, paths, c);
  }

  /** The next child in the chain: either it is the one looked for, or nothing is missed by moving on. */
  lemma SpineChild(nodes: seq<TreeNode>, root: nat, paths: Paths, hi: nat, parent: seq<ItemId>, item: ItemId)
    requires Spine(nodes, root, paths) && hi <= |paths| && LastChild(paths, hi, parent) >= 0
    requires forall j | hi <= j < |paths| :: paths[j] != parent + [item]
    ensures var k := LastChild(paths, hi, parent);
            && 0 < k < hi && root + k < |nodes|
            && (nodes[root + k].item == item ==> paths[k] == parent + [item])
            && nodes[root + k].nextSibling == Ptr(root, LastChild(paths, k, parent))
            && (nodes[root + k].item != item ==> forall j | k <= j < |paths| :: paths[j] != parent + [item])
  {
    var k := LastChild(paths, hi, parent);
    assert IsChild(paths[k], parent);
    assert Inner(nodes, root, paths, k);
    forall j | k < j < hi ensures paths[j] != parent + [item] {
      assert !IsChild(paths[j], parent);
      assert (parent + [item])[..|parent|] == parent;
    }
  }

  lemma NoChildLeft(nodes: seq<TreeNode>, root: nat, paths: Paths, hi: nat, parent: seq<ItemId>, item: ItemId)
    requires Spine(nodes, root, paths) && hi <= |paths| && Ptr(root, LastChild(paths, hi, parent)) == NIL
    requires forall j | hi <= j < |paths| :: paths[j] != parent + [item]
    ensures parent + [item] !in paths
  {
    assert LastChild(paths, hi, parent) == -1;
    forall j | 0 <= j < hi ensures paths[j] != parent + [item] {
      assert !IsChild(paths[j], parent);
      assert (parent + [item])[..|parent|] == parent;
    }
  }

  /** Links a freshly allocated node in as the newest child of `current`. */
  method LinkChild(arena: NodeArena, ghost root: nat, ghost paths: Paths, current: nat, newChild: nat, link: nat)
    returns (r: Result<()>)
    requires arena.Valid() && root <= current < newChild && newChild + 1 == arena.next && link < TWO_32
    requires Spine(arena.Nodes()[..newChild], root, paths) && NodeFits(arena.Nodes()[newChild])
    modifies arena.pool`frames, arena.pool`used, arena.pool`guards, arena.pool.store, arena.pool.eviction
    ensures arena.Valid() && Untouched(old(arena.pool.Contents()), arena.pages, arena.pool.Contents(), arena.pages)
    ensures r.Ok? ==> var nodes := old(arena.Nodes());
              arena.Nodes() == nodes[current := nodes[current].(firstChild := newChild)][newChild :=
                nodes[newChild].(nextSibling := nodes[current].firstChild, nodeLink := link)]
    ensures arena.Nodes()[..root] == old(arena.Nodes()[..root])
    ensures arena.pool.store.faults >= old(arena.pool.store.faults)
    ensures r.Err? ==> ArenaExcused(r.error, arena.pool.budget, arena.pool.store.faults > old(arena.pool.store.faults),
                                    false)
  {
    hide NodeArena.Valid, NodeArena.Nodes, LastChild, BufferPool.Contents, IsChild, Inner;
    SpineChildren(arena.Nodes()[..newChild], root, paths, current - root);
    var currNode := arena.GetNode(current);
    if currNode.Err? { return Err(currNode.error); }
    var childNode := arena.GetNode(newChild);
    if childNode.Err? { return Err(childNode.error); }
    var w := arena.SetNode(newChild, childNode.value.(nextSibling := currNode.value.firstChild, nodeLink := link));
    if w.Err? { return w; }
    w := arena.SetNode(current, currNode.value.(firstChild := newChild));
    if w.Err? { return w; }
    r := Ok(());
  }

  /** The items above node k, read off its parent pointers, from the root down. */
  method PathAbove(arena: NodeArena, root: nat, ghost paths: Paths, ghost k: nat, parent: nat) returns (r: Result<seq<ItemId>>)
    requires arena.Valid() && Spine(arena.Nodes(), root, paths) && 0 < k < |paths| && parent == arena.Nodes()[root + k].parent
    modifies arena.pool`frames, arena.pool`used, arena.pool`guards, arena.pool.store, arena.pool.eviction
    ensures arena.Valid() && arena.pool.Contents() == old(arena.pool.Contents()) && arena.Nodes() == old(arena.Nodes())
    ensures r.Ok? ==> paths[k] != [] && r.value == paths[k][..|paths[k]| - 1]
    ensures arena.pool.store.faults >= old(arena.pool.store.faults)
    ensures r.Err? ==> ArenaExcused(r.error, arena.pool.budget, arena.pool.store.faults > old(arena.pool.store.faults),
                                    false)
  {
    hide NodeArena.Valid, NodeArena.Nodes, LastChild, BufferPool.Contents, IsChild, Spine;
    SpineAt(arena.Nodes(), root, paths, k);
    ghost var whole := paths[k][..|paths[k]| - 1];
    var path: seq<ItemId> := [];
    var p := parent;
    while p != root && p != NIL
      invariant arena.Valid() && arena.pool.Contents() == old(arena.pool.Contents()) && arena.Nodes() == old(arena.Nodes())
      invariant arena.pool.store.faults >= old(arena.pool.store.faults)
      invariant root <= p < root + |paths| && arena.next == root + |paths| <= NIL
      invariant paths[p - root] + Reverse(path) == whole && paths[0] == []
      decreases p
    {
      SpineAt(arena.Nodes(), root, paths, p - root);
      ghost var here := paths[p - root];
      var node := arena.GetNode(p);
      if node.Err? { return Err(node.error); }
      assert here == here[..|here| - 1] + [node.value.item];
      ReverseSnoc(path, node.value.item);
      path := path + [node.value.item];
      p := node.value.parent;
    }
    r := Ok(Reverse(path));
  }

  lemma SpineAt(nodes: seq<TreeNode>, root: nat, paths: Paths, i: nat)
    requires Spine(nodes, root, paths) && 0 < i < |paths|
    ensures |nodes| == root + |paths| <= NIL && paths[0] == [] && Inner(nodes, root, paths, i) && NodeFits(nodes[root + i])
  {
    assert Outer(nodes, root, paths, i);
  }
}
