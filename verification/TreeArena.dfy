/** The node arena of the tree engines: 28-byte nodes, addressed by 32-bit pointers, on 64 KiB pages of
    the buffer pool (the NodeArena of src/mining/algorithms/ihup.rs and up_growth.rs). */
module TreeArena {
  import opened Huim
  import opened Bytes
  import opened PageLayout
  import opened Storage
  import opened Lru
  import opened Pool

  const NIL: nat := 0xFFFF_FFFF
  const ARENA_PAGE_BYTES: nat := 65536
  const NODE_BYTES: nat := 28
  const NODES_PER_PAGE: nat := 2340

  datatype TreeNode = TreeNode(item: ItemId, weight: int, parent: nat, firstChild: nat, nextSibling: nat, nodeLink: nat)

  ghost predicate NodeFits(n: TreeNode) {
    && n.item < TWO_32 && InI64(n.weight)
    && n.parent < TWO_32 && n.firstChild < TWO_32 && n.nextSibling < TWO_32 && n.nodeLink < TWO_32
  }

  // ----- bytes

  /** The packed in-memory form of a node. */
  function NodeBytes(n: TreeNode): (b: seq<Byte>)
    requires NodeFits(n)
    ensures |b| == NODE_BYTES
  {
    ToLe(n.item, 4) + I64ToLe(n.weight) + ToLe(n.parent, 4) + ToLe(n.firstChild, 4) + ToLe(n.nextSibling, 4) + ToLe(n.nodeLink, 4)
  }

  function NodeFromBytes(b: seq<Byte>): TreeNode
    requires |b| == NODE_BYTES
  {
    TreeNode(FromLe(b[0..4]), I64FromLe(b[4..12]), FromLe(b[12..16]), FromLe(b[16..20]), FromLe(b[20..24]), FromLe(b[24..28]))
  }

  lemma NodeRoundTrip(n: TreeNode)
    requires NodeFits(n)
    ensures NodeFromBytes(NodeBytes(n)) == n
  {
    hide ToLe, FromLe, I64ToLe, I64FromLe;
    var b := NodeBytes(n);
    Widths();
    LeRoundTrip(n.item, 4);
    I64RoundTrip(n.weight);
    LeRoundTrip(n.parent, 4);
    LeRoundTrip(n.firstChild, 4);
    LeRoundTrip(n.nextSibling, 4);
    LeRoundTrip(n.nodeLink, 4);
    assert b[0..4] == ToLe(n.item, 4) && b[4..12] == I64ToLe(n.weight) && b[12..16] == ToLe(n.parent, 4);
    assert b[16..20] == ToLe(n.firstChild, 4) && b[20..24] == ToLe(n.nextSibling, 4);
    var head := b[..24];
    assert b == head + ToLe(n.nodeLink, 4) && |head| == 24;
    assert |b| == 28 && b[24..28] == b[24..];
    assert b[24..] == ToLe(n.nodeLink, 4);
  }

  function NodeAt(page: seq<Byte>, i: nat): TreeNode
    requires |page| == ARENA_PAGE_BYTES && i < NODES_PER_PAGE
  {
    NodeFromBytes(page[NODE_BYTES * i..NODE_BYTES * i + NODE_BYTES])
  }

  function PutNode(page: seq<Byte>, i: nat, n: TreeNode): (r: seq<Byte>)
    requires |page| == ARENA_PAGE_BYTES && i < NODES_PER_PAGE && NodeFits(n)
    ensures |r| == ARENA_PAGE_BYTES
  {
    page[..NODE_BYTES * i] + NodeBytes(n) + page[NODE_BYTES * i + NODE_BYTES..]
  }

  /** Overwriting one slot of a page changes that slot and no other. */
  lemma PutNodeAt(page: seq<Byte>, i: nat, n: TreeNode, j: nat)
    requires |page| == ARENA_PAGE_BYTES && i < NODES_PER_PAGE && j < NODES_PER_PAGE && NodeFits(n)
    ensures NodeAt(PutNode(page, i, n), j) == if j == i then n else NodeAt(page, j)
  {
    hide NodeBytes, NodeFromBytes;
    var r := PutNode(page, i, n);
    if j == i {
      assert r[NODE_BYTES * i..NODE_BYTES * i + NODE_BYTES] == NodeBytes(n);
      NodeRoundTrip(n);
    } else {
      assert r[NODE_BYTES * j..NODE_BYTES * j + NODE_BYTES] == page[NODE_BYTES * j..NODE_BYTES * j + NODE_BYTES];
    }
  }

  // ----- slots over pages

  ghost predicate WellPaged(contents: Flat, pages: seq<PageId>) {
    && (forall i, j | 0 <= i < j < |pages| :: pages[i] != pages[j])
    && (forall k | 0 <= k < |pages| :: pages[k] in contents && |contents[pages[k]]| == ARENA_PAGE_BYTES)
  }

  ghost function Slot(contents: Flat, pages: seq<PageId>, i: nat): TreeNode
    requires WellPaged(contents, pages) && i < NODES_PER_PAGE * |pages|
  {
    NodeAt(contents[pages[i / NODES_PER_PAGE]], i % NODES_PER_PAGE)
  }

  ghost function Slots(contents: Flat, pages: seq<PageId>, n: nat): (s: seq<TreeNode>)
    requires WellPaged(contents, pages) && n <= NODES_PER_PAGE * |pages|
    ensures |s| == n && forall i | 0 <= i < n :: s[i] == Slot(contents, pages, i)
  {
    seq(n, i requires 0 <= i < n => Slot(contents, pages, i))
  }

  lemma SlotWrite(contents: Flat, pages: seq<PageId>, p: nat, node: TreeNode, i: nat)
    requires WellPaged(contents, pages) && NodeFits(node)
    requires p < NODES_PER_PAGE * |pages| && i < NODES_PER_PAGE * |pages|
    ensures var id := pages[p / NODES_PER_PAGE];
            var contents' := contents[id := PutNode(contents[id], p % NODES_PER_PAGE, node)];
            WellPaged(contents', pages) && Slot(contents', pages, i) == if i == p then node else Slot(contents, pages, i)
  {
    hide NodeAt, PutNode;
    if i / NODES_PER_PAGE == p / NODES_PER_PAGE {
      PutNodeAt(contents[pages[p / NODES_PER_PAGE]], p % NODES_PER_PAGE, node, i % NODES_PER_PAGE);
    } else {
      assert pages[i / NODES_PER_PAGE] != pages[p / NODES_PER_PAGE];
    }
  }

  /** Writing slot p writes element p, and writing one past the end appends. */
  lemma SlotsWrite(contents: Flat, pages: seq<PageId>, n: nat, p: nat, node: TreeNode)
    requires WellPaged(contents, pages) && NodeFits(node) && p <= n <= NODES_PER_PAGE * |pages| && p < NODES_PER_PAGE * |pages|
    ensures var id := pages[p / NODES_PER_PAGE];
            var contents' := contents[id := PutNode(contents[id], p % NODES_PER_PAGE, node)];
            && WellPaged(contents', pages)
            && (p < n ==> Slots(contents', pages, n) == Slots(contents, pages, n)[p := node])
            && (p == n ==> Slots(contents', pages, n + 1) == Slots(contents, pages, n) + [node])
  {
    hide Slot, PutNode;
    var id := pages[p / NODES_PER_PAGE];
    var contents' := contents[id := PutNode(contents[id], p % NODES_PER_PAGE, node)];
    SlotWrite(contents, pages, p, node, p);
    forall i: nat | i < NODES_PER_PAGE * |pages|
      ensures Slot(contents', pages, i) == if i == p then node else Slot(contents, pages, i)
    {
      SlotWrite(contents, pages, p, node, i);
    }
    if p < n {
      assert Slots(contents', pages, n) == Slots(contents, pages, n)[p := node];
    } else {
      assert Slots(contents', pages, n + 1) == Slots(contents, pages, n) + [node];
    }
  }

  /** Pages outside the arena are left alone. */
  ghost predicate Untouched(before: Flat, pages: seq<PageId>, after: Flat, pages': seq<PageId>) {
    forall p | p in before && p !in pages :: p in after && p !in pages' && after[p] == before[p]
  }

  lemma UntouchedTwice(a: Flat, p: seq<PageId>, b: Flat, q: seq<PageId>, c: Flat, r: seq<PageId>)
    requires Untouched(a, p, b, q) && Untouched(b, q, c, r)
    ensures Untouched(a, p, c, r)
  {
  }

  lemma SlotsGrow(contents: Flat, pages: seq<PageId>, n: nat, contents': Flat, id: PageId)
    requires WellPaged(contents, pages) && n <= NODES_PER_PAGE * |pages|
    requires id !in contents && id in contents' && |contents'[id]| == ARENA_PAGE_BYTES
    requires forall p | p in contents :: p in contents' && contents'[p] == contents[p]
    ensures WellPaged(contents', pages + [id]) && Slots(contents', pages + [id], n) == Slots(contents, pages, n)
  {
    hide NodeAt;
    assert forall k | 0 <= k < |pages| :: (pages + [id])[k] == pages[k];
    forall i | 0 <= i < n ensures Slot(contents', pages + [id], i) == Slot(contents, pages, i) {
      assert (pages + [id])[i / NODES_PER_PAGE] == pages[i / NODES_PER_PAGE];
    }
  }

  /** A page written to the store past the pool, under an id just handed out. */
  lemma DirectWrite(fs: Frames, pages: Flat, pages': Flat, g: Guards, id: PageId, data: seq<Byte>)
    requires Consistent(fs, pages, g, id) && |data| < TWO_32
    requires pages' in {pages, pages[id := data], pages - {id}}
    ensures Consistent(fs, pages', g, id + 1) && id !in Overlay(pages, fs)
    ensures pages' == pages[id := data] ==> Overlay(pages', fs) == Overlay(pages, fs)[id := data]
    ensures pages' != pages[id := data] ==> Overlay(pages', fs) == Overlay(pages, fs)
  {
    assert id !in fs && id !in pages;
    assert pages - {id} == pages;
  }

  /** Takes a new id and writes its page to the store, past the pool. */
  method StorePage(pool: BufferPool, data: seq<Byte>) returns (r: Result<PageId>)
    requires pool.Valid() && |data| < TWO_32
    modifies pool.store
    ensures pool.Valid() && pool.store.faults >= old(pool.store.faults)
    ensures r.Ok? ==> r.value !in old(pool.Contents()) && pool.Contents() == old(pool.Contents())[r.value := data]
    ensures r.Err? ==>
              Grows(old(pool.Contents()), pool.Contents()) && r.error == Io && pool.store.faults > old(pool.store.faults)
  {
    hide Consistent, Overlay, ResidentBytes, Data, PagesOf, ChunkStore.Valid, ChunkStore.Stored, LruPolicy.Valid,
         Codec.Valid;
    var id := pool.store.NextPageId();
    if id.Err? { return Err(id.error); }
    ghost var before := pool.store.Pages();
    var w := pool.store.WritePage(id.value, data, NO_FLAGS);
    DirectWrite(pool.frames, before, pool.store.Pages(), pool.guards, id.value, data);
    if w.Err? { return Err(w.error); }
    r := id;
  }

  /** How a tree engine can fail: a disk operation failed, the pool is smaller than one arena page, or
      all 32-bit pointers are taken. */
  ghost predicate ArenaExcused(e: Error, budget: nat, faulted: bool, full: bool) {
    (e == Io && faulted) || (e == PoolFull && 65536 > budget) || (e == ArenaFull && full)
  }

  lemma ArenaLater(r: Result<()>, budget: nat, start: nat, from: nat, now: nat, full: bool, full': bool)
    requires start <= from && (full ==> full') && (r.Err? ==> ArenaExcused(r.error, budget, now > from, full))
    ensures r.Err? ==> ArenaExcused(r.error, budget, now > start, full')
  {
  }

  class NodeArena {
    const pool: BufferPool
    var pages: seq<PageId>
    var next: nat

    ghost predicate Valid()
      reads this, pool, pool.store, pool.eviction
    {
      && pool.Valid() && pool.Idle()
      && WellPaged(pool.Contents(), pages)
      && next <= NODES_PER_PAGE * |pages| && next <= NIL
    }

    /** The live nodes; a pointer is an index into them. */
    ghost function Nodes(): (s: seq<TreeNode>)
      requires Valid()
      reads this, pool, pool.store, pool.eviction
      ensures |s| == next
    {
      Slots(pool.Contents(), pages, next)
    }

    constructor (pool: BufferPool)
      requires pool.Valid() && pool.Idle()
      ensures Valid() && this.pool == pool && pages == [] && next == 0
    {
      this.pool := pool;
      pages := [];
      next := 0;
    }

    method GetNode(ptr: nat) returns (r: Result<TreeNode>)
      requires Valid() && ptr < next
      modifies pool`frames, pool`used, pool`guards, pool.store, pool.eviction
      ensures Valid() && pool.Contents() == old(pool.Contents()) && Nodes() == old(Nodes())
      ensures r.Ok? ==> r.value == Nodes()[ptr]
      ensures pool.store.faults >= old(pool.store.faults)
      ensures r.Err? ==> ArenaExcused(r.error, pool.budget, pool.store.faults > old(pool.store.faults), false)
    {
      hide Consistent, Overlay, ResidentBytes, PinnedBytes, Data, PagesOf, ChunkStore.Pages, ChunkStore.Valid,
           ChunkStore.Stored,
           LruPolicy.Valid, Codec.Valid, NodeAt;
      var bytes := pool.Fetch(pages[ptr / NODES_PER_PAGE]);
      if bytes.Err? { return Err(bytes.error); }
      r := Ok(NodeAt(bytes.value, ptr % NODES_PER_PAGE));
    }

    /** Writes slot ptr in place, through a mutable guard. */
    method PutSlot(ptr: nat, node: TreeNode) returns (r: Result<()>)
      requires Valid() && ptr < NODES_PER_PAGE * |pages| && NodeFits(node)
      modifies pool`frames, pool`used, pool`guards, pool.store, pool.eviction
      ensures pool.Valid() && pool.Idle()
      ensures r.Ok? ==> var id := pages[ptr / NODES_PER_PAGE]; var before := old(pool.Contents());
                pool.Contents() == before[id := PutNode(before[id], ptr % NODES_PER_PAGE, node)]
      ensures pool.store.faults >= old(pool.store.faults)
      ensures r.Err? ==> pool.Contents() == old(pool.Contents())
      ensures r.Err? ==> ArenaExcused(r.error, pool.budget, pool.store.faults > old(pool.store.faults), false)
    {
      hide Consistent, Overlay, ResidentBytes, PinnedBytes, Data, PagesOf, ChunkStore.Pages, ChunkStore.Valid,
           ChunkStore.Stored,
           LruPolicy.Valid, Codec.Valid, PutNode, NodeFits;
      var id := pages[ptr / NODES_PER_PAGE];
      pool.IdlePinsNothing();
      var pin := pool.PinMut(id);
      if pin.Err? { return Err(pin.error); }
      var bytes := pool.Read(id);
      pool.Write(id, PutNode(bytes, ptr % NODES_PER_PAGE, node));
      pool.MarkDirty(id);
      pool.FinishDrop(id);
      assert pool.guards.writers == multiset{} && pool.guards.closing == multiset{};
      r := Ok(());
    }

    method SetNode(ptr: nat, node: TreeNode) returns (r: Result<()>)
      requires Valid() && ptr < next && NodeFits(node)
      modifies pool`frames, pool`used, pool`guards, pool.store, pool.eviction
      ensures Valid() && Untouched(old(pool.Contents()), pages, pool.Contents(), pages)
      ensures r.Ok? ==> Nodes() == old(Nodes())[ptr := node]
      ensures pool.store.faults >= old(pool.store.faults)
      ensures r.Err? ==> Nodes() == old(Nodes())
      ensures r.Err? ==> ArenaExcused(r.error, pool.budget, pool.store.faults > old(pool.store.faults), false)
    {
      hide BufferPool.Valid, Overlay, ChunkStore.Pages, PutNode, NodeFits, Slots, BufferPool.Contents;
      SlotsWrite(pool.Contents(), pages, next, ptr, node);
      r := PutSlot(ptr, node);
    }

    /** The next node, on a fresh zeroed page if the last one is full: 2340 nodes go on a page. Running out
        of 32-bit pointers is reported as an error. */
    method AllocateNode(item: ItemId, weight: int, parent: nat) returns (r: Result<nat>)
      requires Valid() && item < TWO_32 && InI64(weight) && parent < TWO_32
      modifies this`pages, this`next, pool`frames, pool`used, pool`guards, pool.store, pool.eviction
      ensures Valid() && Untouched(old(pool.Contents()), old(pages), pool.Contents(), pages)
      ensures r.Ok? ==> r.value == old(next) < 0xFFFF_FFFF && next == old(next) + 1
      ensures r.Ok? ==> Nodes() == old(Nodes()) + [TreeNode(item, weight, parent, NIL, NIL, NIL)]
      ensures r.Ok? ==> |pages| == if old(next) / 2340 < |old(pages)| then |old(pages)| else old(next) / 2340 + 1
      ensures pool.store.faults >= old(pool.store.faults)
      ensures r.Err? ==> Nodes() == old(Nodes())
      ensures r.Err? ==> ArenaExcused(r.error, pool.budget, pool.store.faults > old(pool.store.faults),
                                      old(next) == 0xFFFF_FFFF)
    {
      hide BufferPool.Valid, Overlay, ChunkStore.Pages, PutNode, Slots, BufferPool.Contents;
      var ptr := next;
      if ptr == NIL { return Err(ArenaFull); }
      while ptr / NODES_PER_PAGE >= |pages|
        invariant Valid() && Untouched(old(pool.Contents()), old(pages), pool.Contents(), pages)
        invariant next == old(next) && Nodes() == old(Nodes()) && pool.store.faults >= old(pool.store.faults)
        invariant |pages| <= if ptr / 2340 < |old(pages)| then |old(pages)| else ptr / 2340 + 1
        decreases ptr / NODES_PER_PAGE + 1 - |pages|
      {
        var added := AddPage();
        if added.Err? { return Err(added.error); }
      }
      var node := TreeNode(item, weight, parent, NIL, NIL, NIL);
      SlotsWrite(pool.Contents(), pages, next, ptr, node);
      var w := PutSlot(ptr, node);
      if w.Err? { return Err(w.error); }
      next := next + 1;
      r := Ok(ptr);
    }

    method AddPage() returns (r: Result<()>)
      requires Valid()
      modifies this`pages, pool.store
      ensures Valid() && Nodes() == old(Nodes()) && Untouched(old(pool.Contents()), old(pages), pool.Contents(), pages)
      ensures |pages| == if r.Ok? then |old(pages)| + 1 else |old(pages)|
      ensures r.Ok? ==> var id := pages[|pages| - 1]; id in pool.Contents() && pool.Contents()[id] == seq(65536, _ => 0)
      ensures pool.store.faults >= old(pool.store.faults)
      ensures r.Err? ==> ArenaExcused(r.error, pool.budget, pool.store.faults > old(pool.store.faults), false)
    {
      hide BufferPool.Valid, BufferPool.Contents, Slots, NodeAt;
      var zeroes: seq<Byte> := seq(ARENA_PAGE_BYTES, _ => 0);
      var id := StorePage(pool, zeroes);
      if id.Err? {
        SlotsKept(old(pool.Contents()), pages, next, pool.Contents());
        return Err(id.error);
      }
      SlotsGrow(old(pool.Contents()), pages, next, pool.Contents(), id.value);
      pages := pages + [id.value];
      r := Ok(());
    }

    /** Discards every node from `saved` on, as assigning next_node_ptr does; the nodes below keep their contents. */
    method Reset(saved: nat)
      requires Valid() && saved <= next
      modifies this`next
      ensures Valid() && Nodes() == old(Nodes())[..saved]
    {
      next := saved;
    }
  }

  lemma SlotsKept(contents: Flat, pages: seq<PageId>, n: nat, contents': Flat)
    requires WellPaged(contents, pages) && n <= NODES_PER_PAGE * |pages|
    requires forall p | p in contents :: p in contents' && contents'[p] == contents[p]
    ensures WellPaged(contents', pages) && Slots(contents', pages, n) == Slots(contents, pages, n)
  {
    hide NodeAt;
  }
}
