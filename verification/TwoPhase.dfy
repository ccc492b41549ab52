/** The vertical depth-first engine behind Two-Phase: transaction-id lists intersected two at a time,
    siblings filtered by TWU (src/mining/algorithms/two_phase.rs). */
module TwoPhase {
  import opened Huim
  import opened Options
  import opened Bytes
  import opened PageLayout
  import opened Storage
  import opened Lru
  import opened Pool
  import opened TwuFilter
  import opened UtilityLists
  import opened Memory
  import opened Output

  /** An entry of the vertical index, and of a search node: a transaction and a utility in it. */
  datatype Node = Node(txIdx: nat, util: int)

  datatype NodeList = InMemory(nodes: seq<Node>) | OnDisk(page: PageId, len: nat)

  const SPILL_BYTES: nat := 4096

  function NodesOf(es: seq<ULEntry>): (s: seq<Node>)
    ensures |s| == |es| && forall k | 0 <= k < |s| :: s[k] == Node(es[k].tid, es[k].iutils)
  {
    seq(|es|, k requires 0 <= k < |es| => Node(es[k].tid, es[k].iutils))
  }

  /** The list of X: its supporting transactions with its utility in each. */
  ghost function Nodes(db: Database, X: ItemSet): seq<Node> {
    NodesOf(UL(db, X, {}))
  }

  // ----- bytes

  ghost predicate NodesFit(ns: seq<Node>) {
    forall k | 0 <= k < |ns| :: ns[k].txIdx < TWO_32 && InI64(ns[k].util)
  }

  ghost function NodeBytes(ns: seq<Node>): (b: seq<Byte>)
    requires NodesFit(ns)
    ensures |b| == 12 * |ns|
  {
    if ns == [] then []
    else NodeBytes(ns[..|ns| - 1]) + ToLe(ns[|ns| - 1].txIdx, 4) + I64ToLe(ns[|ns| - 1].util)
  }

  method SerializeNodes(ns: seq<Node>) returns (buf: seq<Byte>)
    requires NodesFit(ns)
    ensures buf == NodeBytes(ns)
  {
    buf := [];
    for k := 0 to |ns|
      invariant buf == NodeBytes(ns[..k])
    {
      assert ns[..k + 1][..k] == ns[..k];
      buf := buf + ToLe(ns[k].txIdx, 4) + I64ToLe(ns[k].util);
    }
    assert ns[..|ns|] == ns;
  }

  /** Whole 12-byte chunks only; a shorter tail is ignored. */
  function DeserializeNodes(b: seq<Byte>): seq<Node> {
    seq(|b| / 12, k requires 0 <= k < |b| / 12 => Node(FromLe(b[12 * k..12 * k + 4]), I64FromLe(b[12 * k + 4..12 * k + 12])))
  }

  lemma {:induction false} NodeBytesAt(ns: seq<Node>, k: nat)
    requires NodesFit(ns) && k < |ns|
    ensures NodeBytes(ns)[12 * k..12 * k + 4] == ToLe(ns[k].txIdx, 4)
    ensures NodeBytes(ns)[12 * k + 4..12 * k + 12] == I64ToLe(ns[k].util)
  {
    var n := |ns| - 1;
    if k < n {
      NodeBytesAt(ns[..n], k);
      assert NodeBytes(ns)[12 * k..12 * k + 4] == NodeBytes(ns[..n])[12 * k..12 * k + 4];
      assert NodeBytes(ns)[12 * k + 4..12 * k + 12] == NodeBytes(ns[..n])[12 * k + 4..12 * k + 12];
    }
  }

  lemma {:induction false} NodesRoundTrip(ns: seq<Node>)
    requires NodesFit(ns)
    ensures DeserializeNodes(NodeBytes(ns)) == ns
  {
    forall k | 0 <= k < |ns| ensures DeserializeNodes(NodeBytes(ns))[k] == ns[k] {
      NodeBytesAt(ns, k);
      Widths();
      LeRoundTrip(ns[k].txIdx, 4);
      I64RoundTrip(ns[k].util);
    }
  }

  lemma NodesFitDatabase(db: Database, X: ItemSet)
    requires ValidDatabase(db) && FitsWidths(db)
    ensures NodesFit(Nodes(db, X)) && |Nodes(db, X)| <= |db| && 12 * |db| < TWO_32
  {
    TwuMonotone(db, {}, {});
    ULFits(db, X, {});
    ULSums(db, X, {});
  }

  // ----- intersection

  /** The fast intersection: the list of X + Y, its TWU and its exact utility in one pass. */
  method Intersect(ghost db: Database, ghost X: ItemSet, ghost Y: ItemSet, tids: seq<Node>, extList: seq<Node>, txTwus: seq<int>)
    returns (next: seq<Node>, twu: int, exact: int)
    requires ValidDatabase(db) && Numbered(db) && X !! Y
    requires tids == Nodes(db, X) && extList == Nodes(db, Y)
    requires |txTwus| == |db| && forall k | 0 <= k < |db| :: txTwus[k] == db[k].tu
    ensures next == Nodes(db, X + Y) && twu == Twu(db, X + Y) && exact == Utility(db, X + Y)
  {
    hide UL, SumI, SumR, ValidDatabase, UtilityIn, Twu, CoverSum, ItemsOf, Merged;
    next, twu, exact := [], 0, 0;
    ghost var Z, n: nat, es := X + Y, 0, [];
    var i, j := 0, 0;
    MergeStart(db, X, Y, Z, {}, {});
    TwuStart(db, Z);
    while i < |tids| && j < |extList|
      invariant n <= |db| && Merged(db, X, Y, Z, {}, {}, n, i, j, es)
      invariant next == NodesOf(es) && twu == Twu(db[..n], Z) && exact == SumI(es)
      decreases |tids| + |extList| - i - j
    {
      ghost var c := MergeStep(db, X, Y, Z, {}, {}, n, i, j, es);
      GapSums(db, Z, {}, n, c);
      PrefixStep(db, c, Z, {});
      n := c + 1;
      if tids[i].txIdx == extList[j].txIdx {
        UtilityInAdditive(db[c].items, X, Y);
        SumsSnoc(es, Entry(db[c], Z, {}));
        var newUtil := tids[i].util + extList[j].util;
        es := es + [Entry(db[c], Z, {})];
        next := next + [Node(tids[i].txIdx, newUtil)];
        twu, exact := twu + txTwus[tids[i].txIdx], exact + newUtil;
        i, j := i + 1, j + 1;
      } else if tids[i].txIdx < extList[j].txIdx {
        i := i + 1;
      } else {
        j := j + 1;
      }
    }
    MergeDone(db, X, Y, Z, {}, {}, n, i, j, es);
    GapSums(db, Z, {}, n, |db|);
    assert db[..|db|] == db;
    ULSums(db, Z, {});
  }

  lemma TwuStart(db: Database, Z: ItemSet)
    ensures Twu(db[..0], Z) == 0
  {
  }

  // ----- the search

  ghost predicate Holds(list: NodeList, contents: Flat, ns: seq<Node>) {
    match list
    case InMemory(nodes) => nodes == ns
    case OnDisk(p, _) => NodesFit(ns) && p in contents && contents[p] == NodeBytes(ns)
  }

  /** The vertical index: for every kept item, numbered 0, 1, ..., the page of its list. */
  ghost predicate Indexed(db: Database, orig: seq<ItemId>, pages: seq<PageId>, contents: Flat) {
    && |pages| == |orig| && Distinct(orig)
    && (forall m | 0 <= m < |orig| ::
          && NodesFit(Nodes(db, {orig[m]})) && pages[m] in contents
          && contents[pages[m]] == NodeBytes(Nodes(db, {orig[m]})))
  }

  lemma IndexedGrows(db: Database, orig: seq<ItemId>, pages: seq<PageId>, m: Flat, m': Flat)
    requires Indexed(db, orig, pages, m) && Grows(m, m')
    ensures Indexed(db, orig, pages, m')
  {
  }

  function ItemsAt(orig: seq<ItemId>, exts: seq<nat>): (s: seq<ItemId>)
    requires forall k | 0 <= k < |exts| :: exts[k] < |orig|
    ensures |s| == |exts| && forall k | 0 <= k < |s| :: s[k] == orig[exts[k]]
  {
    seq(|exts|, k requires 0 <= k < |exts| => orig[exts[k]])
  }

  /** Candidate extensions: rising positions of items outside the prefix. */
  ghost predicate Extensions(orig: seq<ItemId>, prefix: seq<ItemId>, exts: seq<nat>) {
    && Distinct(prefix)
    && (forall k | 0 <= k < |exts| :: exts[k] < |orig| && orig[exts[k]] !in prefix)
    && (forall a, b | 0 <= a < b < |exts| :: exts[a] < exts[b])
  }

  ghost predicate IsSingle(P: ItemSet, items: seq<ItemId>, X: ItemSet) {
    exists k :: 0 <= k < |items| && X == P + {items[k]}
  }

  ghost predicate AddsOne(P: ItemSet, X: ItemSet) {
    exists y :: y in X && y !in P && X == P + {y}
  }

  /** The one-item extensions among the first i candidates. */
  ghost function Singles(P: ItemSet, items: seq<ItemId>, i: nat): iset<ItemSet>
    requires i <= |items|
  {
    iset X: ItemSet | IsSingle(P, items[..i], X)
  }

  /** The itemsets that add more than one item to P. */
  ghost function Multi(P: ItemSet): iset<ItemSet> {
    iset X: ItemSet | !AddsOne(P, X)
  }

  /** How the search can fail: a disk operation failed, or an index page and a new list exceed the pool together. */
  ghost predicate Excused(e: Error, db: Database, budget: nat, faulted: bool) {
    (e == Io && faulted) || (e == PoolFull && 24 * |db| > budget)
  }

  ghost predicate Surviving(db: Database, min: int, X: ItemSet) {
    Supported(db, X) && Twu(db, X) >= min
  }

  /** What the first loop has established after i candidates. */
  ghost predicate Filtered(db: Database, min: int, orig: seq<ItemId>, prefix: seq<ItemId>, exts: seq<nat>, i: nat,
                           valid: seq<nat>, lists: seq<NodeList>, contents: Flat)
    requires i <= |exts| && Extensions(orig, prefix, exts)
  {
    && Extensions(orig, prefix, valid) && |valid| <= i && |lists| == |valid|
    && (forall k | 0 <= k < |valid| :: valid[k] in exts[..i])
    && (forall k | 0 <= k < i :: Surviving(db, min, Elems(prefix) + {orig[exts[k]]}) ==> exts[k] in valid)
    && (forall k | 0 <= k < |valid| :: Holds(lists[k], contents, Nodes(db, Elems(prefix) + {orig[valid[k]]})))
  }

  /** Intersects the prefix with one candidate while the candidate's index page stays pinned, and
      spills a long result. */
  method Extend(ghost db: Database, min: int, prefix: seq<ItemId>, e: nat, tids: seq<Node>, pages: seq<PageId>, txTwus: seq<int>,
                orig: seq<ItemId>, pool: BufferPool, out: ResultWriter)
    returns (r: Result<Option<NodeList>>, ghost found: seq<Hui>)
    requires ValidDatabase(db) && FitsWidths(db) && Numbered(db) && pool.Valid() && pool.Idle()
    requires Indexed(db, orig, pages, pool.Contents()) && e < |orig| && Distinct(prefix) && orig[e] !in prefix
    requires tids == Nodes(db, Elems(prefix)) && |txTwus| == |db| && forall k | 0 <= k < |db| :: txTwus[k] == db[k].tu
    modifies pool`frames, pool`used, pool`guards, pool.store, pool.eviction, out
    ensures pool.Valid() && pool.Idle() && Grows(old(pool.Contents()), pool.Contents())
    ensures pool.store.faults >= old(pool.store.faults)
    ensures r.Err? ==> Excused(r.error, db, pool.budget, pool.store.faults > old(pool.store.faults))
    ensures out.huis == old(out.huis) + found
    ensures out.Lost() >= old(out.Lost())
    ensures Reports(db, found, iset{Elems(prefix) + {orig[e]}} * Huis(db, min), r.Ok? && out.Lost() == old(out.Lost()))
    ensures r.Ok? ==> (r.value.Some? <==> Surviving(db, min, Elems(prefix) + {orig[e]}))
    ensures r.Ok? && r.value.Some? ==> Holds(r.value.value, pool.Contents(), Nodes(db, Elems(prefix) + {orig[e]}))
  {
    hide Consistent, Overlay, ResidentBytes, PinnedBytes, Data, PagesOf, ChunkStore.Pages, ChunkStore.Valid,
         ChunkStore.Stored,
         LruPolicy.Valid, Codec.Valid, BufferPool.Valid, ValidDatabase, FitsWidths, Numbered, Reports, Huis, Nodes,
         DeserializeNodes, NodesFit, NodeBytes,
         Supported, Twu, Indexed;
    ghost var P := Elems(prefix);
    var x := orig[e];
    found := [];
    IndexAt(db, orig, pages, pool.Contents(), e);
    pool.IdlePinsNothing();
    var pin := pool.Pin(pages[e]);
    if pin.Err? {
      ReportsNothing(db, iset{P + {x}} * Huis(db, min));
      return Err(pin.error), [];
    }
    var bytes := pool.Read(pages[e]);
    NodesRoundTrip(Nodes(db, {x}));
    var next, twu, exact := Intersect(db, P, {x}, tids, DeserializeNodes(bytes), txTwus);
    NodesFitDatabase(db, P + {x});
    NodesSupport(db, P + {x});
    found := WriteSingle(db, min, prefix, x, next, exact, out);
    ReportsWeaken(db, found, iset{P + {x}} * Huis(db, min), out.Lost() == old(out.Lost()));
    r := Ok(None);
    if next != [] && twu >= min {
      r := KeepList(db, P + {x}, next, pages[e], pool);
    }
    pool.DropPin(pages[e]);
    BackToIdle(old(pool.guards), pages[e], pool.guards);
  }

  /** Writes a candidate of high utility; a failed write drops the line, not the search. */
  method WriteSingle(ghost db: Database, min: int, prefix: seq<ItemId>, x: ItemId, next: seq<Node>, exact: int, out: ResultWriter)
    returns (ghost found: seq<Hui>)
    requires Distinct(prefix) && x !in prefix && next == Nodes(db, Elems(prefix) + {x})
    requires exact == Utility(db, Elems(prefix) + {x})
    modifies out
    ensures out.huis == old(out.huis) + found && (out.Lost() >= old(out.Lost()))
    ensures Reports(db, found, iset{Elems(prefix) + {x}} * Huis(db, min), out.Lost() == old(out.Lost()))
  {
    hide Nodes, Utility, Reports, Huis, Elems, Distinct;
    found := [];
    if next != [] && exact >= min {
      var w := out.WriteHui(prefix + [x], exact);
      if w.Ok? { found := [Hui(prefix + [x], exact)]; }
    }
    if out.Lost() == old(out.Lost()) {
      SingleEmitted(db, min, prefix, x, next, exact, found);
    } else {
      ReportsNothing(db, iset{Elems(prefix) + {x}} * Huis(db, min));
    }
  }

  /** Keeps a node list for the second loop: in memory, or from 4096 bytes on as a page. */
  method KeepList(ghost db: Database, ghost X: ItemSet, next: seq<Node>, ghost pinned: PageId, pool: BufferPool)
    returns (r: Result<Option<NodeList>>)
    requires pool.Valid() && pool.guards == Guards(multiset{pinned}, multiset{}, multiset{})
    requires pinned in pool.Contents() && |pool.Contents()[pinned]| <= 12 * |db|
    requires next == Nodes(db, X) && NodesFit(next) && |next| <= |db| && 12 * |db| < TWO_32
    modifies pool`frames, pool`used, pool.store, pool.eviction
    ensures pool.Valid() && Grows(old(pool.Contents()), pool.Contents())
    ensures pool.store.faults >= old(pool.store.faults)
    ensures r.Err? ==> Excused(r.error, db, pool.budget, pool.store.faults > old(pool.store.faults))
    ensures r.Ok? ==> r.value.Some? && Holds(r.value.value, pool.Contents(), Nodes(db, X))
    ensures r.Ok? && r.value.Some? ==> (r.value.value.OnDisk? <==> 12 * |next| >= 4096)
  {
    hide Consistent, Overlay, ResidentBytes, PinnedBytes, Data, PagesOf, ChunkStore.Pages, ChunkStore.Valid,
         ChunkStore.Stored,
         LruPolicy.Valid, Codec.Valid, Nodes, NodesFit, NodeBytes;
    var bytes := SerializeNodes(next);
    if |bytes| >= SPILL_BYTES {
      pool.OnePinned(pinned);
      var page := pool.InsertNew(bytes);
      if page.Err? { return Err(page.error); }
      r := Ok(Some(OnDisk(page.value, |next|)));
    } else {
      r := Ok(Some(InMemory(next)));
    }
  }

  lemma IndexAt(db: Database, orig: seq<ItemId>, pages: seq<PageId>, contents: Flat, e: nat)
    requires ValidDatabase(db) && FitsWidths(db) && Indexed(db, orig, pages, contents) && e < |orig|
    ensures |pages| == |orig| && pages[e] in contents && NodesFit(Nodes(db, {orig[e]}))
    ensures contents[pages[e]] == NodeBytes(Nodes(db, {orig[e]})) && |contents[pages[e]]| <= 12 * |db|
    ensures |Nodes(db, {orig[e]})| <= |db|
  {
    NodesFitDatabase(db, {orig[e]});
  }

  lemma BackToIdle(g0: Guards, p: PageId, g: Guards)
    requires g0 == Guards(multiset{}, multiset{}, multiset{})
    requires g == g0.(readers := g0.readers + multiset{p} - multiset{p})
    ensures g == g0
  {
  }

  lemma NodesSupport(db: Database, X: ItemSet)
    ensures Nodes(db, X) != [] <==> Supported(db, X)
  {
    ULSums(db, X, {});
  }

  lemma SingleEmitted(db: Database, min: int, prefix: seq<ItemId>, x: ItemId, next: seq<Node>, exact: int, found: seq<Hui>)
    requires Distinct(prefix) && x !in prefix && next == Nodes(db, Elems(prefix) + {x})
    requires exact == Utility(db, Elems(prefix) + {x})
    requires found == if next != [] && exact >= min then [Hui(prefix + [x], exact)] else []
    ensures Reports(db, found, iset{Elems(prefix) + {x}} * Huis(db, min), true)
  {
    var X := Elems(prefix) + {x};
    NodesSupport(db, X);
    assert Elems(prefix + [x]) == X;
    assert x in X;
    if next != [] && exact >= min {
      EmitsSingle(db, found[0]);
      assert iset{X} * Huis(db, min) == iset{X};
      EmitsReports(db, found, iset{X});
    } else {
      ReportsNothing(db, iset{X} * Huis(db, min));
      assert iset{X} * Huis(db, min) == iset{};
    }
  }

  /** The search below a prefix: every high-utility itemset that extends it by candidate items, once. */
  method Dfs(ghost db: Database, min: int, prefix: seq<ItemId>, exts: seq<nat>, tids: seq<Node>, pages: seq<PageId>,
             txTwus: seq<int>,
             orig: seq<ItemId>, pool: BufferPool, out: ResultWriter)
    returns (r: Result<()>, ghost found: seq<Hui>)
    requires ValidDatabase(db) && FitsWidths(db) && Numbered(db) && pool.Valid() && pool.Idle()
    requires Indexed(db, orig, pages, pool.Contents()) && Extensions(orig, prefix, exts) && Distinct(orig)
    requires tids == Nodes(db, Elems(prefix)) && |txTwus| == |db| && forall k | 0 <= k < |db| :: txTwus[k] == db[k].tu
    modifies pool`frames, pool`used, pool`guards, pool.store, pool.eviction, out
    ensures pool.Valid() && pool.Idle() && Grows(old(pool.Contents()), pool.Contents())
    ensures pool.store.faults >= old(pool.store.faults)
    ensures r.Err? ==> Excused(r.error, db, pool.budget, pool.store.faults > old(pool.store.faults))
    ensures out.huis == old(out.huis) + found
    ensures out.Lost() >= old(out.Lost())
    ensures Reports(db, found, Family(Elems(prefix), Elems(ItemsAt(orig, exts))) * Huis(db, min),
                    r.Ok? && out.Lost() == old(out.Lost()))
    decreases |exts|, 2
  {
    hide Consistent, Overlay, ResidentBytes, PinnedBytes, Data, PagesOf, ChunkStore.Pages, ChunkStore.Valid,
         ChunkStore.Stored,
         LruPolicy.Valid, Codec.Valid, ValidDatabase, FitsWidths, Numbered, Reports, Huis, Nodes, Singles, Multi,
         Family, Filtered, Indexed,
         Surviving, Elems, Supported, Twu, Holds;
    var valid: seq<nat>, lists: seq<NodeList> := [], [];
    found := [];
    ghost var P, items := Elems(prefix), ItemsAt(orig, exts);
    FilterStart(db, min, orig, prefix, exts, pool.Contents());
    for i := 0 to |exts|
      invariant pool.Valid() && pool.Idle() && Grows(old(pool.Contents()), pool.Contents())
      invariant pool.store.faults >= old(pool.store.faults)
      invariant Indexed(db, orig, pages, pool.Contents())
      invariant out.huis == old(out.huis) + found
      invariant Filtered(db, min, orig, prefix, exts, i, valid, lists, pool.Contents())
      invariant out.Lost() >= old(out.Lost())
      invariant Reports(db, found, Singles(P, items, i) * Huis(db, min), out.Lost() == old(out.Lost()))
    {
      ghost var before, more, lost := pool.Contents(), [], out.Lost();
      var e;
      e, more := Extend(db, min, prefix, exts[i], tids, pages, txTwus, orig, pool, out);
      ghost var soFar, kept := found, out.Lost() == lost;
      found := found + more;
      SinglesStep(db, min, orig, prefix, exts, i, soFar, lost == old(out.Lost()), more, e.Ok? && kept);
      if e.Err? {
        ExtensionItems(orig, prefix, exts);
        SinglesCut(db, P, items, i + 1, Huis(db, min), found, false);
        return Err(e.error), found;
      }
      IndexedGrows(db, orig, pages, before, pool.Contents());
      FilterStep(db, min, orig, prefix, exts, i, valid, lists, before, pool.Contents(), e.value);
      if e.value.Some? {
        valid, lists := valid + [exts[i]], lists + [e.value.value];
      }
    }
    ghost var deep, lost := [], out.Lost();
    r, deep := Deepen(db, min, prefix, exts, valid, lists, pages, txTwus, orig, pool, out);
    ghost var soFar := found;
    found := found + deep;
    DfsEmitted(db, min, orig, prefix, exts, valid, lists, pool.Contents(), soFar, lost == old(out.Lost()), deep,
               r.Ok? && out.Lost() == lost);
  }

  /** The second loop: below each survivor, only the survivors after it are candidates. */
  method Deepen(ghost db: Database, min: int, prefix: seq<ItemId>, ghost exts: seq<nat>, valid: seq<nat>, lists: seq<NodeList>,
                pages: seq<PageId>, txTwus: seq<int>, orig: seq<ItemId>, pool: BufferPool, out: ResultWriter)
    returns (r: Result<()>, ghost found: seq<Hui>)
    requires ValidDatabase(db) && FitsWidths(db) && Numbered(db) && pool.Valid() && pool.Idle()
    requires Indexed(db, orig, pages, pool.Contents()) && Extensions(orig, prefix, exts) && Distinct(orig)
    requires Filtered(db, min, orig, prefix, exts, |exts|, valid, lists, pool.Contents())
    requires |txTwus| == |db| && forall k | 0 <= k < |db| :: txTwus[k] == db[k].tu
    modifies pool`frames, pool`used, pool`guards, pool.store, pool.eviction, out
    ensures pool.Valid() && pool.Idle() && Grows(old(pool.Contents()), pool.Contents())
    ensures Filtered(db, min, orig, prefix, exts, |exts|, valid, lists, pool.Contents())
    ensures pool.store.faults >= old(pool.store.faults)
    ensures r.Err? ==> Excused(r.error, db, pool.budget, pool.store.faults > old(pool.store.faults))
    ensures out.huis == old(out.huis) + found
    ensures out.Lost() >= old(out.Lost())
    ensures Extensions(orig, prefix, valid)
    ensures Reports(db, found, Covered(Elems(prefix), ItemsAt(orig, valid), |valid|) * Multi(Elems(prefix)) * Huis(db, min),
                    r.Ok? && out.Lost() == old(out.Lost()))
    decreases |exts|, 1
  {
    hide Consistent, Overlay, ResidentBytes, PinnedBytes, Data, PagesOf, ChunkStore.Pages, ChunkStore.Valid,
         ChunkStore.Stored,
         LruPolicy.Valid, Codec.Valid, ValidDatabase, FitsWidths, Numbered, Reports, Huis, Nodes, Singles, Multi,
         Family, Filtered, Indexed,
         Surviving, Elems, Supported, Twu, Covered, Holds;
    FilteredFacts(db, min, orig, prefix, exts, valid, lists, pool.Contents());
    found := [];
    ghost var P, items := Elems(prefix), ItemsAt(orig, valid);
    DeepStart(db, P, items, Huis(db, min));
    for i := 0 to |valid|
      invariant pool.Valid() && pool.Idle() && Grows(old(pool.Contents()), pool.Contents())
      invariant pool.store.faults >= old(pool.store.faults)
      invariant Indexed(db, orig, pages, pool.Contents())
      invariant Filtered(db, min, orig, prefix, exts, |exts|, valid, lists, pool.Contents())
      invariant out.huis == old(out.huis) + found
      invariant out.Lost() >= old(out.Lost())
      invariant Reports(db, found, Covered(P, items, i) * Multi(P) * Huis(db, min), out.Lost() == old(out.Lost()))
    {
      ghost var more, lost := [], out.Lost();
      r, more := Below(db, min, prefix, exts, valid, i, lists[i], lists, pages, txTwus, orig, pool, out);
      ghost var soFar := found;
      found := found + more;
      DeepStep(db, min, orig, prefix, valid, i, soFar, lost == old(out.Lost()), more, r.Ok? && out.Lost() == lost);
      if r.Err? {
        DeepCut(db, P, items, i + 1, Huis(db, min), found, false);
        return r, found;
      }
    }
    r := Ok(());
  }

  /** One turn of that loop: the survivor's list is read back and searched below. */
  method Below(ghost db: Database, min: int, prefix: seq<ItemId>, ghost exts: seq<nat>, valid: seq<nat>, i: nat, list: NodeList,
               ghost lists: seq<NodeList>, pages: seq<PageId>, txTwus: seq<int>, orig: seq<ItemId>, pool: BufferPool,
               out: ResultWriter)
    returns (r: Result<()>, ghost found: seq<Hui>)
    requires ValidDatabase(db) && FitsWidths(db) && Numbered(db) && pool.Valid() && pool.Idle()
    requires Indexed(db, orig, pages, pool.Contents()) && Extensions(orig, prefix, exts) && Distinct(orig)
    requires Filtered(db, min, orig, prefix, exts, |exts|, valid, lists, pool.Contents())
    requires Extensions(orig, prefix, valid) && i < |valid| == |lists| && list == lists[i]
    requires |txTwus| == |db| && forall k | 0 <= k < |db| :: txTwus[k] == db[k].tu
    modifies pool`frames, pool`used, pool`guards, pool.store, pool.eviction, out
    ensures pool.Valid() && pool.Idle() && Grows(old(pool.Contents()), pool.Contents())
    ensures Indexed(db, orig, pages, pool.Contents())
    ensures Filtered(db, min, orig, prefix, exts, |exts|, valid, lists, pool.Contents())
    ensures pool.store.faults >= old(pool.store.faults)
    ensures r.Err? ==> Excused(r.error, db, pool.budget, pool.store.faults > old(pool.store.faults))
    ensures out.huis == old(out.huis) + found
    ensures out.Lost() >= old(out.Lost())
    ensures Extensions(orig, prefix + [orig[valid[i]]], valid[i + 1..])
    ensures Reports(db, found, Family(Elems(prefix + [orig[valid[i]]]), Elems(ItemsAt(orig, valid[i + 1..]))) * Huis(db, min),
                    r.Ok? && out.Lost() == old(out.Lost()))
    decreases |exts|, 0
  {
    hide Consistent, Overlay, ResidentBytes, PinnedBytes, Data, PagesOf, ChunkStore.Pages, ChunkStore.Valid,
         ChunkStore.Stored,
         LruPolicy.Valid, Codec.Valid, ValidDatabase, FitsWidths, Numbered, Reports, Huis, Nodes, Family, Filtered,
         Indexed,
         Surviving, Elems, Supported, Twu, Covered, Holds;
    ghost var before, x := pool.Contents(), orig[valid[i]];
    DeepAt(db, min, orig, prefix, exts, valid, lists, before, i);
    var nodes := Resolve(db, Nodes(db, Elems(prefix) + {x}), list, pool);
    if nodes.Err? {
      found := [];
      ReportsNothing(db, Family(Elems(prefix + [x]), Elems(ItemsAt(orig, valid[i + 1..]))) * Huis(db, min));
      return Err(nodes.error), found;
    }
    r, found := Dfs(db, min, prefix + [orig[valid[i]]], valid[i + 1..], nodes.value, pages, txTwus, orig, pool, out);
    FilteredGrows(db, min, orig, prefix, exts, valid, lists, before, pool.Contents());
    IndexedGrows(db, orig, pages, before, pool.Contents());
  }

  method Resolve(ghost db: Database, ghost ns: seq<Node>, list: NodeList, pool: BufferPool) returns (r: Result<seq<Node>>)
    requires pool.Valid() && pool.Idle() && Holds(list, pool.Contents(), ns) && |ns| <= |db|
    modifies pool`frames, pool`used, pool`guards, pool.store, pool.eviction
    ensures pool.Valid() && pool.Idle() && pool.Contents() == old(pool.Contents())
    ensures r.Ok? ==> r.value == ns
    ensures pool.store.faults >= old(pool.store.faults)
    ensures r.Err? ==> Excused(r.error, db, pool.budget, pool.store.faults > old(pool.store.faults))
  {
    hide Consistent, Overlay, ResidentBytes, PinnedBytes, Data, PagesOf, ChunkStore.Pages, ChunkStore.Valid,
         ChunkStore.Stored,
         LruPolicy.Valid, Codec.Valid, NodeBytes, DeserializeNodes;
    match list
    case InMemory(nodes) =>
      r := Ok(nodes);
    case OnDisk(page, _) =>
      var bytes := pool.Fetch(page);
      if bytes.Err? { return Err(bytes.error); }
      NodesRoundTrip(ns);
      r := Ok(DeserializeNodes(bytes.value));
  }

  // ----- why the two loops cover everything

  lemma FilterStart(db: Database, min: int, orig: seq<ItemId>, prefix: seq<ItemId>, exts: seq<nat>, contents: Flat)
    requires Extensions(orig, prefix, exts)
    ensures Filtered(db, min, orig, prefix, exts, 0, [], [], contents)
    ensures Reports(db, [], Singles(Elems(prefix), ItemsAt(orig, exts), 0) * Huis(db, min), true)
  {
    ReportsNothing(db, Singles(Elems(prefix), ItemsAt(orig, exts), 0) * Huis(db, min));
    assert Singles(Elems(prefix), ItemsAt(orig, exts), 0) * Huis(db, min) == iset{};
  }

  lemma ExtensionItems(orig: seq<ItemId>, prefix: seq<ItemId>, exts: seq<nat>)
    requires Extensions(orig, prefix, exts) && Distinct(orig)
    ensures Distinct(ItemsAt(orig, exts)) && Elems(prefix) !! Elems(ItemsAt(orig, exts))
  {
    var s := ItemsAt(orig, exts);
    forall x | x in Elems(s) ensures x !in prefix {
      var k :| 0 <= k < |s| && s[k] == x;
    }
  }

  lemma SinglesStep(db: Database, min: int, orig: seq<ItemId>, prefix: seq<ItemId>, exts: seq<nat>, i: nat,
                    found: seq<Hui>, p: bool, more: seq<Hui>, q: bool)
    requires Extensions(orig, prefix, exts) && Distinct(orig) && i < |exts|
    requires Reports(db, found, Singles(Elems(prefix), ItemsAt(orig, exts), i) * Huis(db, min), p)
    requires Reports(db, more, iset{Elems(prefix) + {orig[exts[i]]}} * Huis(db, min), q)
    ensures Reports(db, found + more, Singles(Elems(prefix), ItemsAt(orig, exts), i + 1) * Huis(db, min), p && q)
  {
    hide Reports, Huis;
    var P, s := Elems(prefix), ItemsAt(orig, exts);
    var W, X := Huis(db, min), Elems(prefix) + {orig[exts[i]]};
    ExtensionItems(orig, prefix, exts);
    forall k | 0 <= k < i ensures P + {s[k]} != X {
      assert s[k] in P + {s[k]} && s[i] in X && s[k] != s[i] && s[k] in Elems(s) && s[i] in Elems(s);
    }
    ReportsConcat(db, found, Singles(P, s, i) * W, p, more, iset{X} * W, q);
    assert s[..i + 1] == s[..i] + [s[i]];
    forall Y ensures IsSingle(P, s[..i + 1], Y) <==> IsSingle(P, s[..i], Y) || Y == X {
      if IsSingle(P, s[..i], Y) {
        var k :| 0 <= k < i && Y == P + {s[..i][k]};
        assert s[..i + 1][k] == s[..i][k];
      }
      if Y == X { assert s[..i + 1][i] == s[i]; }
    }
    assert Singles(P, s, i + 1) == Singles(P, s, i) + iset{X};
    assert Singles(P, s, i) * W + iset{X} * W == Singles(P, s, i + 1) * W;
  }

  /** What was written before a loop gave up is part of what it is for. */
  lemma SinglesCut(db: Database, P: ItemSet, items: seq<ItemId>, i: nat, W: iset<ItemSet>, found: seq<Hui>, p: bool)
    requires i <= |items| && P !! Elems(items) && Reports(db, found, Singles(P, items, i) * W, p)
    ensures Reports(db, found, Family(P, Elems(items)) * W, false)
  {
    hide Reports;
    forall X | X in Singles(P, items, i) ensures X in Family(P, Elems(items)) {
      var k :| 0 <= k < i && X == P + {items[..i][k]};
      assert items[k] in Elems(items) && items[k] in X;
    }
    ReportsLess(db, found, Singles(P, items, i) * W, p, Family(P, Elems(items)) * W);
  }

  lemma DeepCut(db: Database, P: ItemSet, items: seq<ItemId>, i: nat, W: iset<ItemSet>, found: seq<Hui>, p: bool)
    requires i <= |items| && Reports(db, found, Covered(P, items, i) * Multi(P) * W, p)
    ensures Reports(db, found, Covered(P, items, |items|) * Multi(P) * W, false)
  {
    hide Reports, Covered, Multi;
    CoveredGrows(P, items, i, |items|);
    ReportsLess(db, found, Covered(P, items, i) * Multi(P) * W, p, Covered(P, items, |items|) * Multi(P) * W);
  }

  /** Stored lists survive later pool operations. */
  lemma HeldOn(lists: seq<NodeList>, prefix: seq<ItemId>, orig: seq<ItemId>, valid: seq<nat>, db: Database, m: Flat, m': Flat)
    requires |lists| == |valid| && Grows(m, m') && forall k | 0 <= k < |valid| :: valid[k] < |orig|
    requires forall k | 0 <= k < |valid| :: Holds(lists[k], m, Nodes(db, Elems(prefix) + {orig[valid[k]]}))
    ensures forall k | 0 <= k < |valid| :: Holds(lists[k], m', Nodes(db, Elems(prefix) + {orig[valid[k]]}))
  {
    hide Nodes, NodeBytes, Elems;
  }

  lemma FilterStep(db: Database, min: int, orig: seq<ItemId>, prefix: seq<ItemId>, exts: seq<nat>, i: nat,
                   valid: seq<nat>, lists: seq<NodeList>,
                   m: Flat, m': Flat, e: Option<NodeList>)
    requires Extensions(orig, prefix, exts) && i < |exts|
    requires Filtered(db, min, orig, prefix, exts, i, valid, lists, m) && Grows(m, m')
    requires e.Some? <==> Surviving(db, min, Elems(prefix) + {orig[exts[i]]})
    requires e.Some? ==> Holds(e.value, m', Nodes(db, Elems(prefix) + {orig[exts[i]]}))
    ensures e.Some? ==> Filtered(db, min, orig, prefix, exts, i + 1, valid + [exts[i]], lists + [e.value], m')
    ensures e.None? ==> Filtered(db, min, orig, prefix, exts, i + 1, valid, lists, m')
  {
    hide Surviving, Nodes, NodeBytes, Elems, Holds, Grows;
    assert exts[..i + 1] == exts[..i] + [exts[i]];
    HeldOn(lists, prefix, orig, valid, db, m, m');
    if e.Some? {
      forall a | 0 <= a < |valid| ensures valid[a] < exts[i] {
        var k :| 0 <= k < i && exts[..i][k] == valid[a];
        assert exts[k] == valid[a];
      }
    }
  }

  lemma FilteredFacts(db: Database, min: int, orig: seq<ItemId>, prefix: seq<ItemId>, exts: seq<nat>, valid: seq<nat>,
                      lists: seq<NodeList>, contents: Flat)
    requires Extensions(orig, prefix, exts) && Filtered(db, min, orig, prefix, exts, |exts|, valid, lists, contents)
    ensures Extensions(orig, prefix, valid) && |valid| <= |exts| && |lists| == |valid|
  {
  }

  lemma FilteredGrows(db: Database, min: int, orig: seq<ItemId>, prefix: seq<ItemId>, exts: seq<nat>, valid: seq<nat>,
                      lists: seq<NodeList>, m: Flat, m': Flat)
    requires Extensions(orig, prefix, exts) && Filtered(db, min, orig, prefix, exts, |exts|, valid, lists, m) && Grows(m, m')
    ensures Filtered(db, min, orig, prefix, exts, |exts|, valid, lists, m')
  {
    hide Nodes, NodeBytes, Surviving, Elems;
  }

  lemma DeepStart(db: Database, P: ItemSet, items: seq<ItemId>, W: iset<ItemSet>)
    ensures Reports(db, [], Covered(P, items, 0) * Multi(P) * W, true)
  {
    ReportsNothing(db, Covered(P, items, 0) * Multi(P) * W);
    assert Covered(P, items, 0) * Multi(P) * W == iset{};
  }

  lemma DeepAt(db: Database, min: int, orig: seq<ItemId>, prefix: seq<ItemId>, exts: seq<nat>, valid: seq<nat>,
               lists: seq<NodeList>, contents: Flat, i: nat)
    requires ValidDatabase(db) && FitsWidths(db) && Extensions(orig, prefix, exts) && Distinct(orig)
    requires Filtered(db, min, orig, prefix, exts, |exts|, valid, lists, contents) && i < |valid|
    ensures valid[i] < |orig| && Holds(lists[i], contents, Nodes(db, Elems(prefix) + {orig[valid[i]]}))
    ensures |Nodes(db, Elems(prefix) + {orig[valid[i]]})| <= |db|
    ensures Elems(prefix + [orig[valid[i]]]) == Elems(prefix) + {orig[valid[i]]}
    ensures Extensions(orig, prefix + [orig[valid[i]]], valid[i + 1..]) && |valid[i + 1..]| < |exts|
  {
    NodesFitDatabase(db, Elems(prefix) + {orig[valid[i]]});
  }

  lemma DeepStep(db: Database, min: int, orig: seq<ItemId>, prefix: seq<ItemId>, valid: seq<nat>, i: nat,
                 found: seq<Hui>, p: bool, more: seq<Hui>, q: bool)
    requires Extensions(orig, prefix, valid) && Distinct(orig) && i < |valid|
    requires Extensions(orig, prefix + [orig[valid[i]]], valid[i + 1..])
    requires Reports(db, found, Covered(Elems(prefix), ItemsAt(orig, valid), i) * Multi(Elems(prefix)) * Huis(db, min), p)
    requires Reports(db, more, Family(Elems(prefix + [orig[valid[i]]]), Elems(ItemsAt(orig, valid[i + 1..]))) * Huis(db, min), q)
    ensures Reports(db, found + more, Covered(Elems(prefix), ItemsAt(orig, valid), i + 1) * Multi(Elems(prefix)) * Huis(db, min),
                    p && q)
  {
    hide Reports, Huis, Covered, Branch;
    var P, s, x := Elems(prefix), ItemsAt(orig, valid), orig[valid[i]];
    var W, later := Huis(db, min), Elems(s[i + 1..]);
    ExtensionItems(orig, prefix, valid);
    assert ItemsAt(orig, valid[i + 1..]) == s[i + 1..];
    assert Elems(prefix + [x]) == P + {x};
    CoveredStep(P, s, i);
    BranchSplit(P, x, later);
    assert x !in P by { assert s[i] in Elems(s); }
    MultiBranch(P, x, later, s, i);
    var F, G := Covered(P, s, i), Family(P + {x}, later);
    ReportsConcat(db, found, F * Multi(P) * W, p, more, G * W, q);
    assert (F + (iset{P + {x}} + G)) * Multi(P) == F * Multi(P) + G;
    assert F * Multi(P) * W + G * W == (F * Multi(P) + G) * W;
  }

  lemma MultiBranch(P: ItemSet, x: ItemId, later: ItemSet, s: seq<ItemId>, i: nat)
    requires x !in P && i < |s| && s[i] == x && later == Elems(s[i + 1..]) && Distinct(s) && P !! Elems(s)
    ensures P + {x} !in Multi(P)
    ensures forall X | X in Family(P + {x}, later) :: X in Multi(P)
  {
    forall X, y | X in Family(P + {x}, later) && y in X && y !in P ensures X != P + {y} {
      assert X <= P + {x} ==> X == P + {x};
      var z :| z in X && z !in P + {x};
      assert x in X && !(x in P + {y} && z in P + {y});
    }
    assert x in P + {x};
    assert AddsOne(P, P + {x});
  }

  /** TWU is anti-monotone, so a high-utility itemset below this prefix uses surviving siblings only. */
  lemma SurvivorsSuffice(db: Database, min: int, orig: seq<ItemId>, prefix: seq<ItemId>, exts: seq<nat>,
                         valid: seq<nat>, lists: seq<NodeList>,
                         contents: Flat, X: ItemSet)
    requires ValidDatabase(db) && Extensions(orig, prefix, exts)
    requires Filtered(db, min, orig, prefix, exts, |exts|, valid, lists, contents)
    requires X in Family(Elems(prefix), Elems(ItemsAt(orig, exts))) && IsHui(db, min, X)
    ensures X in Family(Elems(prefix), Elems(ItemsAt(orig, valid)))
  {
    var P := Elems(prefix);
    forall y | y in X && y !in P ensures y in ItemsAt(orig, valid) {
      var k :| 0 <= k < |exts| && ItemsAt(orig, exts)[k] == y;
      HuiSubsetTwu(db, min, X, P + {y});
      assert Surviving(db, min, P + {orig[exts[k]]});
      var m :| 0 <= m < |valid| && valid[m] == exts[k];
      assert ItemsAt(orig, valid)[m] == y;
    }
  }

  lemma ValidItems(db: Database, min: int, orig: seq<ItemId>, prefix: seq<ItemId>, exts: seq<nat>, valid: seq<nat>,
                   lists: seq<NodeList>, contents: Flat)
    requires Extensions(orig, prefix, exts) && Filtered(db, min, orig, prefix, exts, |exts|, valid, lists, contents)
    ensures Extensions(orig, prefix, valid) && Elems(ItemsAt(orig, valid)) <= Elems(ItemsAt(orig, exts))
  {
    forall y | y in ItemsAt(orig, valid) ensures y in ItemsAt(orig, exts) {
      var m :| 0 <= m < |valid| && ItemsAt(orig, valid)[m] == y;
      assert valid[m] in exts[..|exts|];
      var k :| 0 <= k < |exts| && exts[k] == valid[m];
      assert ItemsAt(orig, exts)[k] == y;
    }
  }

  lemma DfsEmitted(db: Database, min: int, orig: seq<ItemId>, prefix: seq<ItemId>, exts: seq<nat>, valid: seq<nat>,
                   lists: seq<NodeList>,
                   contents: Flat, singles: seq<Hui>, p: bool, deep: seq<Hui>, q: bool)
    requires ValidDatabase(db) && Distinct(orig)
    requires Extensions(orig, prefix, exts)
    requires Filtered(db, min, orig, prefix, exts, |exts|, valid, lists, contents)
    requires Extensions(orig, prefix, valid)
    requires Reports(db, singles, Singles(Elems(prefix), ItemsAt(orig, exts), |exts|) * Huis(db, min), p)
    requires Reports(db, deep, Covered(Elems(prefix), ItemsAt(orig, valid), |valid|) * Multi(Elems(prefix)) * Huis(db, min), q)
    ensures Reports(db, singles + deep, Family(Elems(prefix), Elems(ItemsAt(orig, exts))) * Huis(db, min), p && q)
  {
    hide Reports, Filtered, ValidDatabase, IsHui, Covered;
    var P, s, v, W := Elems(prefix), ItemsAt(orig, exts), ItemsAt(orig, valid), Huis(db, min);
    ExtensionItems(orig, prefix, exts);
    ExtensionItems(orig, prefix, valid);
    CoveredEnds(P, v);
    ValidItems(db, min, orig, prefix, exts, valid, lists, contents);
    var F, G := Singles(P, s, |exts|) * W, Family(P, Elems(v)) * Multi(P) * W;
    forall X | X in F ensures X !in G {
      var k :| 0 <= k < |s| && X == P + {s[..|s|][k]};
      assert s[k] in Elems(s) && s[k] in X;
      assert AddsOne(P, X);
    }
    ReportsConcat(db, singles, F, p, deep, G, q);
    forall X ensures X in F + G <==> X in Family(P, Elems(s)) * W {
      if X in Family(P, Elems(s)) * W {
        SurvivorsSuffice(db, min, orig, prefix, exts, valid, lists, contents, X);
        if X !in Multi(P) {
          var y :| y in X && y !in P && X == P + {y};
          assert y in s;
          var k :| 0 <= k < |s| && s[k] == y;
          assert s[..|s|][k] == y;
          assert IsSingle(P, s[..|s|], X);
        }
      }
      if X in F {
        var k :| 0 <= k < |s| && X == P + {s[..|s|][k]};
        assert s[k] in Elems(s);
        assert s[k] in X && s[k] !in P;
      }
    }
    assert F + G == Family(P, Elems(s)) * W;
  }

  // ----- the run

  /** The same transactions, numbered by position as the engine counts them. */
  ghost function Renumber(db: Database): (r: Database)
    ensures |r| == |db| && forall k | 0 <= k < |db| :: r[k] == Transaction(k, db[k].tu, db[k].items)
  {
    seq(|db|, k requires 0 <= k < |db| => Transaction(k, db[k].tu, db[k].items))
  }

  /** Numbering changes no utility, no TWU and no support. */
  lemma {:induction false} RenumberSums(db: Database, X: ItemSet, S: ItemSet)
    ensures CoverSum(Renumber(db), X, S) == CoverSum(db, X, S)
    ensures Twu(Renumber(db), X) == Twu(db, X)
  {
    if db != [] {
      RenumberSums(db[..|db| - 1], X, S);
      assert Renumber(db)[..|db| - 1] == Renumber(db[..|db| - 1]);
    }
  }

  lemma RenumberHuis(db: Database, min: int)
    ensures Huis(Renumber(db), min) == Huis(db, min)
    ensures forall X :: Supported(Renumber(db), X) <==> Supported(db, X)
    ensures forall found, F, all :: Reports(Renumber(db), found, F, all) ==> Reports(db, found, F, all)
  {
    var db1 := Renumber(db);
    forall X ensures Supported(db1, X) <==> Supported(db, X) {
      if Supported(db1, X) {
        var k :| 0 <= k < |db1| && X <= ItemsOf(db1[k].items);
        assert X <= ItemsOf(db[k].items);
      }
      if Supported(db, X) {
        var k :| 0 <= k < |db| && X <= ItemsOf(db[k].items);
        assert X <= ItemsOf(db1[k].items);
      }
    }
    forall X ensures Utility(db1, X) == Utility(db, X) {
      RenumberSums(db, X, X);
    }
  }

  lemma RenumberValid(db: Database)
    requires ValidDatabase(db) && FitsWidths(db)
    ensures ValidDatabase(Renumber(db)) && FitsWidths(Renumber(db)) && Numbered(Renumber(db))
  {
    RenumberSums(db, {}, {});
    forall k | 0 <= k < |db| ensures ValidTransaction(Renumber(db)[k]) {
      assert ValidTransaction(db[k]);
    }
  }

  /** Rows of the index after n transactions and the entries of the items done in the next. */
  ghost predicate Rows(db: Database, orig: seq<ItemId>, n: nat, done: ItemSet, rows: seq<seq<Node>>)
    requires n <= |db|
  {
    && |rows| == |orig|
    && (forall m | 0 <= m < |orig| ::
          rows[m] == Nodes(db[..if orig[m] in done && n < |db| then n + 1 else n], {orig[m]}))
  }

  ghost predicate Positions(orig: seq<ItemId>, mapped: map<ItemId, nat>) {
    && (forall x | x in mapped :: mapped[x] < |orig| && orig[mapped[x]] == x)
    && (forall m | 0 <= m < |orig| :: orig[m] in mapped && mapped[orig[m]] == m)
  }

  lemma RowStep(db: Database, orig: seq<ItemId>, n: nat, k: nat, rows: seq<seq<Node>>, mapped: map<ItemId, nat>)
    requires n < |db| && k < |db[n].items| && Distinct(orig) && Positions(orig, mapped)
    requires Numbered(db) && DistinctItems(db[n].items)
    requires Rows(db, orig, n, ItemsOf(db[n].items[..k]), rows)
    ensures var e := db[n].items[k];
            var next := if e.item in mapped then rows[mapped[e.item] := rows[mapped[e.item]] + [Node(n, e.utility)]] else rows;
            Rows(db, orig, n, ItemsOf(db[n].items[..k + 1]), next)
  {
    hide Nodes, ItemsOf, UtilityIn;
    var es, x := db[n].items, db[n].items[k].item;
    ItemsBefore(es, k);
    RowEntry(db, n, k);
  }

  lemma ItemsBefore(es: seq<ItemEntry>, k: nat)
    requires k < |es| && DistinctItems(es)
    ensures ItemsOf(es[..k + 1]) == ItemsOf(es[..k]) + {es[k].item} && es[k].item !in ItemsOf(es[..k])
  {
    assert es[..k + 1] == es[..k] + [es[k]];
    ItemsOfSnoc(es[..k], es[k]);
    forall e | e in es[..k] ensures e.item != es[k].item {
      var i :| 0 <= i < k && es[i] == e;
    }
  }

  /** A transaction adds one entry to the row of each of its items. */
  lemma RowEntry(db: Database, n: nat, k: nat)
    requires n < |db| && k < |db[n].items| && Numbered(db) && DistinctItems(db[n].items)
    ensures var e := db[n].items[k]; Nodes(db[..n + 1], {e.item}) == Nodes(db[..n], {e.item}) + [Node(n, e.utility)]
  {
    hide UL, UtilityIn;
    var es := db[n].items;
    assert es[k].item in ItemsOf(es) by { assert es[k] in es; }
    ULStep(db, n, {es[k].item}, {});
    UtilityInSingle(es, k);
  }

  lemma RowsNext(db: Database, orig: seq<ItemId>, n: nat, rows: seq<seq<Node>>)
    requires n < |db| && Rows(db, orig, n, ItemsOf(db[n].items), rows)
    ensures Rows(db, orig, n + 1, {}, rows)
  {
    forall m | 0 <= m < |orig| ensures rows[m] == Nodes(db[..n + 1], {orig[m]}) {
      ULStep(db, n, {orig[m]}, {});
      assert {orig[m]} <= ItemsOf(db[n].items) <==> orig[m] in ItemsOf(db[n].items);
    }
  }

  /** Phase 2: the inverted database, one row per kept item, and the transaction utilities. */
  method BuildRows(db: Database, ghost db1: Database, orig: seq<ItemId>) returns (rows: seq<seq<Node>>, txTwus: seq<int>)
    requires ValidDatabase(db) && db1 == Renumber(db) && Distinct(orig)
    ensures |rows| == |orig| && forall m | 0 <= m < |orig| :: rows[m] == Nodes(db1, {orig[m]})
    ensures |txTwus| == |db1| && forall k | 0 <= k < |db1| :: txTwus[k] == db1[k].tu
  {
    hide UL, Nodes, Rows, ItemsOf;
    var mapped := NumberItems(orig);
    rows := seq(|orig|, _ => []);
    txTwus := [];
    RowsStart(db1, orig, rows);
    for n := 0 to |db|
      invariant Rows(db1, orig, n, {}, rows) && |rows| == |orig|
      invariant |txTwus| == n && forall k | 0 <= k < n :: txTwus[k] == db1[k].tu
    {
      txTwus := txTwus + [db[n].tu];
      var es := db[n].items;
      assert ValidTransaction(db[n]);
      NoItems(es);
      for k := 0 to |es|
        invariant Rows(db1, orig, n, ItemsOf(es[..k]), rows) && |rows| == |orig|
      {
        RowStep(db1, orig, n, k, rows, mapped);
        if es[k].item in mapped {
          var m := mapped[es[k].item];
          rows := rows[m := rows[m] + [Node(n, es[k].utility)]];
        }
      }
      assert es[..|es|] == es;
      RowsNext(db1, orig, n, rows);
    }
    RowsEnd(db1, orig, rows);
  }

  lemma NoItems(es: seq<ItemEntry>)
    ensures ItemsOf(es[..0]) == {}
  {
  }

  lemma RowsEnd(db: Database, orig: seq<ItemId>, rows: seq<seq<Node>>)
    requires Rows(db, orig, |db|, {}, rows)
    ensures |rows| == |orig| && forall m | 0 <= m < |orig| :: rows[m] == Nodes(db, {orig[m]})
  {
    assert db[..|db|] == db;
  }

  /** The kept items, numbered 0, 1, ... */
  method NumberItems(orig: seq<ItemId>) returns (mapped: map<ItemId, nat>)
    requires Distinct(orig)
    ensures Positions(orig, mapped)
  {
    mapped := map[];
    for m := 0 to |orig|
      invariant forall x | x in mapped :: mapped[x] < m && orig[mapped[x]] == x
      invariant forall i | 0 <= i < m :: orig[i] in mapped && mapped[orig[i]] == i
    {
      mapped := mapped[orig[m] := m];
    }
  }

  lemma RowsStart(db: Database, orig: seq<ItemId>, rows: seq<seq<Node>>)
    requires rows == seq(|orig|, _ => [])
    ensures Rows(db, orig, 0, {}, rows)
  {
  }

  /** Writes every row to its own page. */
  method StoreRows(ghost db: Database, orig: seq<ItemId>, rows: seq<seq<Node>>, pool: BufferPool)
    returns (r: Result<()>, pages: seq<PageId>)
    requires ValidDatabase(db) && FitsWidths(db) && Distinct(orig) && pool.Valid() && pool.Idle()
    requires |rows| == |orig| && forall m | 0 <= m < |orig| :: rows[m] == Nodes(db, {orig[m]})
    modifies pool`frames, pool`used, pool.store, pool.eviction
    ensures pool.Valid() && Grows(old(pool.Contents()), pool.Contents())
    ensures pool.store.faults >= old(pool.store.faults)
    ensures r.Err? ==> Excused(r.error, db, pool.budget, pool.store.faults > old(pool.store.faults))
    ensures r.Ok? ==> Indexed(db, orig, pages, pool.Contents())
  {
    hide Consistent, Overlay, ResidentBytes, PinnedBytes, Data, PagesOf, ChunkStore.Pages, ChunkStore.Valid,
         ChunkStore.Stored,
         LruPolicy.Valid, Codec.Valid, Nodes, NodesFit, NodeBytes;
    pages := [];
    for i := 0 to |orig|
      invariant pool.Valid() && pool.Idle() && Grows(old(pool.Contents()), pool.Contents())
      invariant pool.store.faults >= old(pool.store.faults)
      invariant |pages| == i
      invariant forall m | 0 <= m < i ::
          NodesFit(rows[m]) && pages[m] in pool.Contents() && pool.Contents()[pages[m]] == NodeBytes(rows[m])
    {
      NodesFitDatabase(db, {orig[i]});
      var bytes := SerializeNodes(rows[i]);
      pool.IdlePinsNothing();
      var page := pool.InsertNew(bytes);
      if page.Err? { return Err(page.error), []; }
      pages := pages + [page.value];
    }
    r := Ok(());
  }

  method SumNodes(ns: seq<Node>, ghost es: seq<ULEntry>) returns (total: int)
    requires ns == NodesOf(es)
    ensures total == SumI(es)
  {
    total := 0;
    for k := 0 to |ns|
      invariant total == SumI(es[..k])
    {
      assert es[..k + 1][..k] == es[..k];
      total := total + ns[k].util;
    }
    assert es[..|es|] == es;
  }

  /** One top-level task. A page that cannot be read is taken as an empty list, and an error below is
      dropped; `clean` tells whether either happened. */
  method Task(ghost db: Database, min: int, i: nat, pages: seq<PageId>, txTwus: seq<int>, orig: seq<ItemId>,
              pool: BufferPool, out: ResultWriter)
    returns (ghost clean: Result<()>, ghost found: seq<Hui>)
    requires ValidDatabase(db) && FitsWidths(db) && Numbered(db) && pool.Valid() && pool.Idle() && i < |orig| && Distinct(orig)
    requires Indexed(db, orig, pages, pool.Contents()) && Supported(db, {orig[i]})
    requires |txTwus| == |db| && forall k | 0 <= k < |db| :: txTwus[k] == db[k].tu
    modifies pool`frames, pool`used, pool`guards, pool.store, pool.eviction, out
    ensures pool.Valid() && pool.Idle() && Grows(old(pool.Contents()), pool.Contents())
    ensures pool.store.faults >= old(pool.store.faults)
    ensures clean.Err? ==> Excused(clean.error, db, pool.budget, pool.store.faults > old(pool.store.faults))
    ensures out.huis == old(out.huis) + found
    ensures out.Lost() >= old(out.Lost())
    ensures min > 0 || clean.Ok? ==>
              Reports(db, found, Branch({}, orig[i], Elems(orig[i + 1..])) * Huis(db, min),
                      clean.Ok? && out.Lost() == old(out.Lost()))
  {
    hide Consistent, Overlay, ResidentBytes, PinnedBytes, Data, PagesOf, ChunkStore.Pages, ChunkStore.Valid,
         ChunkStore.Stored,
         LruPolicy.Valid, Codec.Valid, BufferPool.Valid, BufferPool.Contents, ValidDatabase, FitsWidths, Numbered,
         Reports, Huis, DeserializeNodes, NodesFit, NodeBytes,
         Nodes, Supported, Indexed, UL, SumI, Family, Branch;
    var x := orig[i];
    var prefix := [x];
    assert Elems(prefix) == {x};
    clean, found := Ok(()), [];
    IndexAt(db, orig, pages, pool.Contents(), i);
    var nodes: seq<Node> := [];
    var row := FetchRow(db, x, pages[i], pool);
    if row.Ok? {
      nodes := row.value;
    } else {
      clean := Err(row.error);
    }
    found := WriteRoot(db, min, x, nodes, row.Ok?, out);
    ghost var root, lost := found, out.Lost();
    ghost var W, later := Huis(db, min), Elems(orig[i + 1..]);
    assert {} + {x} == {x} && root + [] == root;
    ReportsNothing(db, Family({x}, later) * W);
    if min > 0 || row.Ok? { ReportsBranch(db, W, {}, x, later, root, row.Ok? && out.Lost() == old(out.Lost()), [], false); }
    // An empty list intersects with nothing, so the search below it finds nothing.
    if row.Ok? {
      var exts := seq(|orig| - i - 1, k requires 0 <= k < |orig| - i - 1 => i + 1 + k);
      TaskExtensions(orig, i, exts);
      ghost var deeper;
      clean, deeper := Dfs(db, min, prefix, exts, nodes, pages, txTwus, orig, pool, out);
      found := found + deeper;
      ReportsBranch(db, W, {}, x, later, root, lost == old(out.Lost()), deeper, clean.Ok? && out.Lost() == lost);
    }
  }

  /** The row of an item. */
  method FetchRow(ghost db: Database, ghost x: ItemId, page: PageId, pool: BufferPool) returns (r: Result<seq<Node>>)
    requires pool.Valid() && pool.Idle() && NodesFit(Nodes(db, {x})) && |Nodes(db, {x})| <= |db|
    requires page in pool.Contents() && pool.Contents()[page] == NodeBytes(Nodes(db, {x}))
    modifies pool`frames, pool`used, pool`guards, pool.store, pool.eviction
    ensures pool.Valid() && pool.Idle() && pool.Contents() == old(pool.Contents())
    ensures pool.store.faults >= old(pool.store.faults)
    ensures r.Ok? ==> r.value == Nodes(db, {x})
    ensures r.Err? ==> Excused(r.error, db, pool.budget, pool.store.faults > old(pool.store.faults))
  {
    hide BufferPool.Valid, BufferPool.Contents, Nodes, DeserializeNodes, NodeBytes, NodesFit;
    var bytes := pool.Fetch(page);
    if bytes.Err? { return Err(bytes.error); }
    NodesRoundTrip(Nodes(db, {x}));
    r := Ok(DeserializeNodes(bytes.value));
  }

  /** Writes the task's own item; a failed write drops the line, not the search. */
  method WriteRoot(ghost db: Database, min: int, x: ItemId, nodes: seq<Node>, ghost fetched: bool, out: ResultWriter)
    returns (ghost found: seq<Hui>)
    requires Supported(db, {x}) && nodes == if fetched then Nodes(db, {x}) else []
    modifies out
    ensures out.huis == old(out.huis) + found && out.Lost() >= old(out.Lost())
    ensures min > 0 || fetched ==>
              Reports(db, found, iset{{x}} * Huis(db, min), fetched && out.Lost() == old(out.Lost()))
    ensures min <= 0 && !fetched && out.Lost() == old(out.Lost()) ==> found == [Hui([x], 0)]
  {
    hide Reports, Huis, Supported, UL;
    found := [];
    var exact := SumNodes(nodes, if fetched then UL(db, {x}, {}) else []);
    if exact >= min {
      var w := out.WriteHui([x], exact);
      if w.Ok? { found := [Hui([x], exact)]; }
    }
    if fetched && out.Lost() == old(out.Lost()) {
      RootEmitted(db, min, x, exact, found);
    } else if found == [] {
      ReportsNothing(db, iset{{x}} * Huis(db, min));
    }
  }

  lemma TaskExtensions(orig: seq<ItemId>, i: nat, exts: seq<nat>)
    requires i < |orig| && Distinct(orig)
    requires |exts| == |orig| - i - 1 && forall k | 0 <= k < |exts| :: exts[k] == i + 1 + k
    ensures Extensions(orig, [orig[i]], exts)
    ensures ItemsAt(orig, exts) == orig[i + 1..]
  {
  }

  lemma RootEmitted(db: Database, min: int, x: ItemId, exact: int, found: seq<Hui>)
    requires Supported(db, {x}) && exact == SumI(UL(db, {x}, {}))
    requires found == if exact >= min then [Hui([x], exact)] else []
    ensures Reports(db, found, iset{{x}} * Huis(db, min), true)
  {
    ULSums(db, {x}, {});
    assert Elems([x]) == {x};
    if exact >= min {
      EmitsSingle(db, found[0]);
      assert iset{{x}} * Huis(db, min) == iset{{x}};
      EmitsReports(db, found, iset{{x}});
    } else {
      ReportsNothing(db, iset{{x}} * Huis(db, min));
      assert iset{{x}} * Huis(db, min) == iset{};
    }
  }

  /** The whole run. When the guard has no room for the transaction utilities nothing is written;
      otherwise, on a disk that did not fail, with 24 bytes of pool per transaction and no line lost,
      exactly the high-utility itemsets are written, once each. `clean` records a dropped error. */
  method Run(db: Database, min: int, guard: MemoryGuard, pool: BufferPool, out: ResultWriter)
    returns (r: Result<()>, ghost clean: Result<()>, ghost found: seq<Hui>)
    requires ValidDatabase(db) && FitsWidths(db) && pool.Valid() && pool.Idle()
    modifies guard, pool`frames, pool`used, pool`guards, pool.store, pool.eviction, out
    ensures pool.Valid() && pool.Idle() && Grows(old(pool.Contents()), pool.Contents())
    ensures pool.store.faults >= old(pool.store.faults)
    ensures r.Err? ==> Excused(r.error, db, pool.budget, pool.store.faults > old(pool.store.faults))
    ensures clean.Err? ==> Excused(clean.error, db, pool.budget, pool.store.faults > old(pool.store.faults))
    ensures out.huis == old(out.huis) + found
    ensures guard.used == old(guard.used)
    ensures min > 0 || clean.Ok? ==> Sound(db, found, Huis(db, min))
    ensures old(guard.used) + 8 * |db| > guard.budget ==> found == []
    ensures r.Ok? && clean.Ok? && out.Lost() == old(out.Lost()) && old(guard.used) + 8 * |db| <= guard.budget ==>
              Emits(db, found, Huis(db, min))
    ensures pool.store.faults == old(pool.store.faults) && 24 * |db| <= pool.budget ==>
              && r.Ok?
              && (out.Lost() == old(out.Lost()) && old(guard.used) + 8 * |db| <= guard.budget ==> Emits(db, found, Huis(db, min)))
  {
    hide Consistent, Overlay, ResidentBytes, PinnedBytes, Data, PagesOf, ChunkStore.Pages, ChunkStore.Valid,
         ChunkStore.Stored,
         LruPolicy.Valid, Codec.Valid, ValidDatabase, FitsWidths, Numbered, Reports, Huis, Nodes, Indexed, Family,
         Covered, IsTwuFilter, Less,
         Supported, Branch, BufferPool.Valid;
    clean, found := Ok(()), [];
    ghost var db1 := Renumber(db);
    RenumberValid(db);
    RenumberHuis(db, min);
    var filter := Compute(db, min);
    var orig := SortedKeys(map[], filter.twu.Keys);
    var rows, txTwus := BuildRows(db, db1, orig);
    var stored, pages := StoreRows(db1, orig, rows, pool);
    ReportsNothing(db, Huis(db, min));
    ReportsParts(db, [], Huis(db, min), false);
    if stored.Err? { return stored, clean, found; }
    r := Ok(());
    var granted := guard.TryAlloc(8 * |txTwus|);
    if !granted { return; }
    TasksSupported(db, min, filter.twu, orig);
    clean, found := RunTasks(db1, min, pages, txTwus, orig, pool, out);
    guard.Free(8 * |txTwus|);
    AllCovered(db, min, filter.twu, orig);
    if min > 0 || clean.Ok? {
      ReportsParts(db, found, Huis(db, min), clean.Ok? && out.Lost() == old(out.Lost()));
    }
  }

  lemma TasksSupported(db: Database, min: int, twu: TwuMap, orig: seq<ItemId>)
    requires IsTwuFilter(db, min, twu) && Elems(orig) == twu.Keys
    ensures forall i | 0 <= i < |orig| :: Supported(Renumber(db), {orig[i]})
  {
    forall i | 0 <= i < |orig| ensures Supported(Renumber(db), {orig[i]}) { KeptSupported(db, min, twu, orig, i); }
  }

  /** The tasks, one per kept item. */
  method RunTasks(ghost db: Database, min: int, pages: seq<PageId>, txTwus: seq<int>, orig: seq<ItemId>,
                  pool: BufferPool, out: ResultWriter)
    returns (ghost clean: Result<()>, ghost found: seq<Hui>)
    requires ValidDatabase(db) && FitsWidths(db) && Numbered(db) && pool.Valid() && pool.Idle() && Distinct(orig)
    requires Indexed(db, orig, pages, pool.Contents()) && forall i | 0 <= i < |orig| :: Supported(db, {orig[i]})
    requires |txTwus| == |db| && forall k | 0 <= k < |db| :: txTwus[k] == db[k].tu
    modifies pool`frames, pool`used, pool`guards, pool.store, pool.eviction, out
    ensures pool.Valid() && pool.Idle() && Grows(old(pool.Contents()), pool.Contents())
    ensures pool.store.faults >= old(pool.store.faults)
    ensures clean.Err? ==> Excused(clean.error, db, pool.budget, pool.store.faults > old(pool.store.faults))
    ensures out.huis == old(out.huis) + found && (out.Lost() >= old(out.Lost()))
    ensures min > 0 || clean.Ok? ==>
              Reports(db, found, Covered({}, orig, |orig|) * Huis(db, min), clean.Ok? && out.Lost() == old(out.Lost()))
  {
    hide BufferPool.Valid, Data, PagesOf, ChunkStore.Pages, BufferPool.Contents, ValidDatabase, FitsWidths, Numbered,
         Reports, Huis,
         Indexed, Family, Covered, Supported, Branch;
    clean, found := Ok(()), [];
    ghost var W := Huis(db, min);
    assert {} !! Elems(orig);
    ReportsLoopStart(db, {}, orig, W);
    for i := 0 to |orig|
      invariant pool.Valid() && pool.Idle() && Grows(old(pool.Contents()), pool.Contents())
      invariant pool.store.faults >= old(pool.store.faults)
      invariant Indexed(db, orig, pages, pool.Contents())
      invariant clean.Err? ==> Excused(clean.error, db, pool.budget, pool.store.faults > old(pool.store.faults))
      invariant out.huis == old(out.huis) + found && (out.Lost() >= old(out.Lost()))
      invariant min > 0 || clean.Ok? ==>
                  Reports(db, found, Covered({}, orig, i) * W, clean.Ok? && out.Lost() == old(out.Lost()))
    {
      ghost var before, task, more, lost := pool.Contents(), Ok(()), [], out.Lost();
      task, more := Task(db, min, i, pages, txTwus, orig, pool, out);
      IndexedGrows(db, orig, pages, before, pool.Contents());
      if min > 0 || (clean.Ok? && task.Ok?) {
        ReportsLoopStep(db, {}, orig, i, W, found, clean.Ok? && lost == old(out.Lost()), more, task.Ok? && out.Lost() == lost);
      }
      found := found + more;
      if clean.Ok? { clean := task; }
    }
  }

  lemma KeptSupported(db: Database, min: int, twu: TwuMap, orig: seq<ItemId>, i: nat)
    requires IsTwuFilter(db, min, twu) && Elems(orig) == twu.Keys && i < |orig|
    ensures Supported(Renumber(db), {orig[i]})
  {
    assert orig[i] in Elems(orig);
    RenumberHuis(db, min);
  }

  lemma AllCovered(db: Database, min: int, twu: TwuMap, orig: seq<ItemId>)
    requires ValidDatabase(db) && IsTwuFilter(db, min, twu) && Elems(orig) == twu.Keys
    ensures Covered({}, orig, |orig|) * Huis(db, min) == Huis(db, min)
  {
    CoveredEnds({}, orig);
    forall X | X in Huis(db, min) ensures X in Family({}, Elems(orig)) {
      HuiKept(db, min, twu, X);
    }
  }
}
