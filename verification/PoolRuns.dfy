/** Any sequence of pool steps by any number of clients, against a flat page map. */
module PoolRuns {
  import opened Bytes
  import opened PageLayout
  import opened Storage
  import opened Lru
  import opened Pool

  datatype Op =
    | Pin(id: PageId)
    | PinMut(id: PageId)
    | Write(id: PageId, data: seq<Byte>)
    | DropPin(id: PageId)
    | MarkDirty(id: PageId)
    | FinishDrop(id: PageId)
    | NewId
    | Insert(id: PageId, data: seq<Byte>)
    | Flush(id: PageId)
    | Evict

  /** The pool as its clients see it: a flat map of pages, the guards alive, and the page ids handed out
      under which nothing has been inserted yet. Which pages are resident does not show. */
  datatype State = State(pages: Flat, guards: Guards, reserved: set<PageId>, next: PageId)

  /** The bytes of the pages some guard is alive for. */
  ghost function Pinned(s: State): nat {
    Sum(GuardedSizes(s.pages, s.guards))
  }

  ghost function GuardedSizes(pages: Flat, g: Guards): map<PageId, nat> {
    map p | p in pages && g.Count(p) > 0 :: |pages[p]|
  }

  /** What a page needs to be pinned: a guard that pins it already, or room beside the pinned pages. */
  ghost predicate Fits(s: State, budget: nat, id: PageId) {
    id in s.pages && (s.guards.Count(id) > 0 || Pinned(s) + |s.pages[id]| <= budget)
  }

  /** Whether a client can take the step, and the pool has the room. */
  ghost predicate Enabled(s: State, budget: nat, op: Op) {
    match op
    case Pin(id) => Fits(s, budget, id)
    case PinMut(id) => Fits(s, budget, id)
    case Write(id, data) => s.guards.writers[id] > 0 && id in s.pages && |data| == |s.pages[id]|
    case DropPin(id) => s.guards.readers[id] > 0
    case MarkDirty(id) => s.guards.writers[id] > 0
    case FinishDrop(id) => s.guards.closing[id] > 0
    case NewId => s.next < TWO_64
    case Insert(id, data) => id in s.reserved && |data| < TWO_32 && Pinned(s) + |data| <= budget
    case Flush(_) => true
    case Evict => true
  }

  /** What the step does to the state; flushing and evicting do nothing. */
  ghost function Taken(s: State, op: Op): State {
    var g := s.guards;
    match op
    case Pin(id) => s.(guards := g.(readers := g.readers + multiset{id}))
    case PinMut(id) => s.(guards := g.(writers := g.writers + multiset{id}))
    case Write(id, data) => s.(pages := s.pages[id := data])
    case DropPin(id) => s.(guards := g.(readers := g.readers - multiset{id}))
    case MarkDirty(id) => s.(guards := g.(writers := g.writers - multiset{id}, closing := g.closing + multiset{id}))
    case FinishDrop(id) => s.(guards := g.(closing := g.closing - multiset{id}))
    case NewId => s.(reserved := s.reserved + {s.next}, next := s.next + 1)
    case Insert(id, data) => s.(pages := s.pages[id := data], reserved := s.reserved - {id})
    case Flush(_) => s
    case Evict => s
  }

  ghost function After(s: State, ops: seq<Op>, done: seq<bool>): State
    requires |done| == |ops|
  {
    if ops == [] then s
    else
      var n := |ops| - 1;
      var before := After(s, ops[..n], done[..n]);
      if done[n] then Taken(before, ops[n]) else before
  }

  /** A step went through only if it was enabled; in a run without faults, exactly if it was. */
  ghost predicate Explained(s: State, budget: nat, ops: seq<Op>, done: seq<bool>, faultless: bool)
    requires |done| == |ops|
  {
    forall k | 0 <= k < |ops| ::
      && (done[k] ==> Enabled(After(s, ops[..k], done[..k]), budget, ops[k]))
      && (faultless && Enabled(After(s, ops[..k], done[..k]), budget, ops[k]) ==> done[k])
  }

  /** The run on a disk that does not fail: every enabled step is taken. */
  ghost function Ideal(s: State, budget: nat, ops: seq<Op>): State {
    if ops == [] then s
    else
      var before := Ideal(s, budget, ops[..|ops| - 1]);
      if Enabled(before, budget, ops[|ops| - 1]) then Taken(before, ops[|ops| - 1]) else before
  }

  /** A run without faults is that run: nothing is left to chance, to the replacement policy or to what
      happened to be resident. */
  lemma {:induction false} FaultlessIsIdeal(s: State, budget: nat, ops: seq<Op>, done: seq<bool>)
    requires |done| == |ops| && Explained(s, budget, ops, done, true)
    ensures After(s, ops, done) == Ideal(s, budget, ops)
  {
    if ops != [] {
      var n := |ops| - 1;
      forall k | 0 <= k < n ensures ops[..n][..k] == ops[..k] && done[..n][..k] == done[..k] {}
      FaultlessIsIdeal(s, budget, ops[..n], done[..n]);
    }
  }

  /** The position after the last write or insert of p that went through; 0 if there is none. */
  ghost function LastWrite(ops: seq<Op>, done: seq<bool>, p: PageId): (n: nat)
    requires |done| == |ops|
    ensures n <= |ops|
    ensures n > 0 ==> done[n - 1] && (ops[n - 1].Write? || ops[n - 1].Insert?) && ops[n - 1].id == p
    ensures forall k | n <= k < |ops| && done[k] && (ops[k].Write? || ops[k].Insert?) :: ops[k].id != p
  {
    if ops == [] then 0
    else
      var last := |ops| - 1;
      if done[last] && (ops[last].Write? || ops[last].Insert?) && ops[last].id == p then last + 1
      else LastWrite(ops[..last], done[..last], p)
  }

  /** After any run, a page holds the bytes last written to it. */
  lemma {:induction false} LastWriteWins(s: State, ops: seq<Op>, done: seq<bool>, p: PageId)
    requires |done| == |ops|
    ensures var n, pages := LastWrite(ops, done, p), After(s, ops, done).pages;
            if n > 0 then p in pages && pages[p] == ops[n - 1].data
            else (p in pages <==> p in s.pages) && (p in s.pages ==> pages[p] == s.pages[p])
  {
    if ops != [] { LastWriteWins(s, ops[..|ops| - 1], done[..|ops| - 1], p); }
  }

  ghost function StateOf(pool: BufferPool, reserved: set<PageId>): State
    reads pool, pool.store
  {
    State(pool.Contents(), pool.guards, reserved, pool.store.counter)
  }

  /** Ids that were handed out and name no page yet. */
  ghost predicate Reserved(pool: BufferPool, ids: set<PageId>)
    reads pool, pool.store
  {
    forall id | id in ids :: id < pool.store.counter && id !in pool.Contents()
  }

  /** Runs the steps. The clients hold the guards and the reserved ids; a step that is not enabled is
      skipped, and one that a disk fault stops changes nothing. */
  method Run(pool: BufferPool, ops: seq<Op>, held: Guards, ids: set<PageId>)
    returns (done: seq<bool>, now: Guards, left: set<PageId>)
    requires pool.Valid() && pool.guards == held && Reserved(pool, ids) && pool.used <= pool.budget
    modifies pool`frames, pool`used, pool`guards, pool.store, pool.eviction
    ensures |done| == |ops|
    ensures pool.Valid() && pool.guards == now && Reserved(pool, left) && pool.used <= pool.budget
    ensures StateOf(pool, left) == After(old(StateOf(pool, ids)), ops, done)
    ensures Explained(old(StateOf(pool, ids)), pool.budget, ops, done, pool.store.faults == old(pool.store.faults))
    ensures pool.store.faults == old(pool.store.faults) ==>
              StateOf(pool, left) == Ideal(old(StateOf(pool, ids)), pool.budget, ops)
  {
    hide *;
    ghost var start, before := StateOf(pool, ids), pool.store.faults;
    RunStart(start, pool.budget);
    done, now, left := [], held, ids;
    assert ops[..0] == [];
    for k := 0 to |ops|
      invariant |done| == k
      invariant pool.Valid() && pool.guards == now && Reserved(pool, left) && pool.used <= pool.budget
      invariant StateOf(pool, left) == After(start, ops[..k], done) && pool.store.faults >= before
      invariant Explained(start, pool.budget, ops[..k], done, pool.store.faults == before)
    {
      var ok;
      ghost var mid := pool.store.faults;
      ok, now, left := Step(pool, ops[k], now, left);
      RunSnoc(start, pool.budget, ops[..k], done, ops[k], ok, mid == before, pool.store.faults == before);
      assert ops[..k + 1] == ops[..k] + [ops[k]];
      done := done + [ok];
    }
    assert ops[..|ops|] == ops;
    if pool.store.faults == before { FaultlessIsIdeal(start, pool.budget, ops, done); }
  }

  lemma RunStart(s: State, budget: nat)
    ensures After(s, [], []) == s && Explained(s, budget, [], [], true)
  {
  }

  lemma RunSnoc(s: State, budget: nat, ops: seq<Op>, done: seq<bool>, op: Op, ok: bool, faultless: bool, still: bool)
    requires |done| == |ops| && Explained(s, budget, ops, done, faultless) && (still ==> faultless)
    requires ok ==> Enabled(After(s, ops, done), budget, op)
    requires still && Enabled(After(s, ops, done), budget, op) ==> ok
    ensures After(s, ops + [op], done + [ok]) == if ok then Taken(After(s, ops, done), op) else After(s, ops, done)
    ensures Explained(s, budget, ops + [op], done + [ok], still)
  {
    hide Enabled, Taken;
    assert (ops + [op])[..|ops|] == ops && (done + [ok])[..|ops|] == done;
    forall j | 0 <= j < |ops| ensures (done + [ok])[..j] == done[..j] && (ops + [op])[..j] == ops[..j] {}
  }

  /** One step. Without a fault it goes through exactly if it is enabled. */
  method Step(pool: BufferPool, op: Op, held: Guards, ids: set<PageId>) returns (ok: bool, now: Guards, left: set<PageId>)
    requires pool.Valid() && pool.guards == held && Reserved(pool, ids) && pool.used <= pool.budget
    modifies pool`frames, pool`used, pool`guards, pool.store, pool.eviction
    ensures pool.Valid() && pool.guards == now && Reserved(pool, left) && pool.used <= pool.budget
    ensures StateOf(pool, left) == if ok then Taken(old(StateOf(pool, ids)), op) else old(StateOf(pool, ids))
    ensures ok <==> old(Enabled(StateOf(pool, ids), pool.budget, op)) && pool.store.faults == old(pool.store.faults)
    ensures pool.store.faults >= old(pool.store.faults)
  {
    hide BufferPool.Valid, BufferPool.Contents;
    ok, now, left := false, held, ids;
    match op {
      case Pin(_) => ok, now := PinStep(pool, op, held, ids);
      case PinMut(_) => ok, now := PinStep(pool, op, held, ids);
      case NewId =>
        var id := TakeId(pool);
        if id.Ok? { ok, left := true, ids + {id.value}; }
      case Insert(id, data) =>
        if id in ids && |data| < TWO_32 {
          ok := InsertStep(pool, id, data, ids);
          if ok { left := ids - {id}; }
        }
      case Flush(id) =>
        var r := pool.Flush(id);
        ok := r.Ok?;
      case Evict =>
        var r := pool.EvictOne();
        ok := r.Ok?;
      case _ =>
        ok, now := GuardStep(pool, op, held);
    }
  }

  /** Pinning a page, for reading or for writing. */
  method PinStep(pool: BufferPool, op: Op, held: Guards, ghost ids: set<PageId>) returns (ok: bool, now: Guards)
    requires pool.Valid() && pool.guards == held && pool.used <= pool.budget && (op.Pin? || op.PinMut?)
    modifies pool`frames, pool`used, pool`guards, pool.store`files, pool.store`ops, pool.store`faults, pool.eviction
    ensures pool.Valid() && pool.guards == now && pool.used <= pool.budget && pool.Contents() == old(pool.Contents())
    ensures now == if ok then Taken(old(StateOf(pool, ids)), op).guards else held
    ensures ok <==> old(Enabled(StateOf(pool, ids), pool.budget, op)) && pool.store.faults == old(pool.store.faults)
    ensures pool.store.faults >= old(pool.store.faults)
  {
    hide Consistent, Overlay, ResidentBytes, PinnedBytes, Thinned, Data, PagesOf, ChunkStore.Pages, ChunkStore.Valid,
         ChunkStore.Stored, LruPolicy.Valid, Codec.Valid, Fits, BufferPool.Loadable, Pinned, GuardedSizes;
    ok, now := false, held;
    LoadableIs(pool, ids, op.id);
    if op.Pin? {
      var r := pool.Pin(op.id);
      if r.Ok? { ok, now := true, held.(readers := held.readers + multiset{op.id}); }
    } else {
      var r := pool.PinMut(op.id);
      if r.Ok? { ok, now := true, held.(writers := held.writers + multiset{op.id}); }
    }
  }

  /** Inserting a page under a reserved id. */
  method InsertStep(pool: BufferPool, id: PageId, data: seq<Byte>, ghost ids: set<PageId>) returns (ok: bool)
    requires pool.Valid() && Reserved(pool, ids) && pool.used <= pool.budget && id in ids && |data| < TWO_32
    modifies pool`frames, pool`used, pool.store`files, pool.store`ops, pool.store`faults, pool.eviction
    ensures pool.Valid() && pool.used <= pool.budget
    ensures pool.Contents() == if ok then old(pool.Contents())[id := data] else old(pool.Contents())
    ensures ok <==> old(Enabled(StateOf(pool, ids), pool.budget, Insert(id, data))) && pool.store.faults == old(pool.store.faults)
    ensures pool.store.faults >= old(pool.store.faults)
  {
    hide Consistent, Overlay, ResidentBytes, PinnedBytes, Thinned, Data, PagesOf, ChunkStore.Pages, ChunkStore.Valid,
         ChunkStore.Stored, LruPolicy.Valid, Codec.Valid, Fits, BufferPool.Loadable, Pinned, GuardedSizes;
    PinnedIs(pool, ids);
    FrameBounds(pool.frames, pool.store.Pages(), pool.guards, pool.store.counter, id);
    var r := pool.InsertPage(id, data);
    ok := r.Ok?;
  }

  /** The bytes pinned in the cache are the bytes of the pages with a guard. */
  lemma PinnedIs(pool: BufferPool, ids: set<PageId>)
    requires pool.Valid()
    ensures PinnedBytes(pool.frames) == Pinned(StateOf(pool, ids))
  {
    hide Sum;
    PinnedSizesAre(pool.frames, pool.store.Pages(), pool.guards, pool.store.counter);
  }

  lemma PinnedSizesAre(fs: Frames, pages: Flat, g: Guards, limit: nat)
    requires Consistent(fs, pages, g, limit)
    ensures PinnedSizes(fs) == GuardedSizes(Overlay(pages, fs), g)
  {
  }

  /** Within the budget a resident page always fits, so whether a page can be pinned does not depend on
      what is resident. */
  lemma LoadableIs(pool: BufferPool, ids: set<PageId>, id: PageId)
    requires pool.Valid() && pool.used <= pool.budget
    ensures pool.Loadable(id) <==> Fits(StateOf(pool, ids), pool.budget, id)
    ensures pool.Loadable(id) ==> id in pool.Contents()
  {
    hide PinnedBytes, ResidentBytes, Pinned, GuardedSizes;
    PinnedIs(pool, ids);
    FrameBounds(pool.frames, pool.store.Pages(), pool.guards, pool.store.counter, id);
    if id in pool.frames && pool.frames[id].pinCount == 0 { UnpinnedFits(pool.frames, id); }
  }

  lemma UnpinnedFits(fs: Frames, id: PageId)
    requires id in fs && fs[id].pinCount == 0
    ensures PinnedBytes(fs) + |fs[id].data| <= ResidentBytes(fs)
  {
    RemoveFrame(fs, id);
    PinnedBelowResident(fs - {id});
  }

  /** A new page id changes no page. */
  method TakeId(pool: BufferPool) returns (r: Result<PageId>)
    requires pool.Valid()
    modifies pool.store`counter, pool.store`faults
    ensures pool.Valid() && pool.Contents() == old(pool.Contents())
    ensures r.Ok? <==> old(pool.store.counter) < TWO_64
    ensures r.Ok? ==> r.value == old(pool.store.counter) && r.value !in pool.Contents()
    ensures pool.store.counter == old(pool.store.counter) + if r.Ok? then 1 else 0
    ensures pool.store.faults == old(pool.store.faults) + if r.Ok? then 0 else 1
  {
    hide ResidentBytes, PinnedBytes, Data, PagesOf, Consistent, Overlay, ChunkStore.Stored, LruPolicy.Valid,
         Codec.Valid;
    IdIsNew(pool.frames, pool.store.Pages(), pool.guards, pool.store.counter);
    r := pool.store.NextPageId();
    LimitGrows(pool.frames, pool.store.Pages(), pool.guards, old(pool.store.counter), pool.store.counter);
  }

  lemma IdIsNew(fs: Frames, pages: Flat, g: Guards, limit: nat)
    requires Consistent(fs, pages, g, limit)
    ensures limit !in Overlay(pages, fs)
  {
  }

  /** The steps of a client that already holds a guard. */
  method GuardStep(pool: BufferPool, op: Op, held: Guards) returns (ok: bool, now: Guards)
    requires pool.Valid() && pool.guards == held
    requires op.Write? || op.DropPin? || op.MarkDirty? || op.FinishDrop?
    modifies pool`frames, pool`guards
    ensures pool.Valid() && pool.guards == now
    ensures StateOf(pool, {}) == if ok then Taken(old(StateOf(pool, {})), op) else old(StateOf(pool, {}))
    ensures ok <==> old(Enabled(StateOf(pool, {}), pool.budget, op))
  {
    hide BufferPool.Loadable, Consistent, Overlay, ResidentBytes, PinnedBytes, Thinned, Data, PagesOf, ChunkStore.Pages,
         ChunkStore.Valid, ChunkStore.Stored, LruPolicy.Valid, Codec.Valid, Fits;
    ok, now := false, held;
    match op {
      case Write(id, data) =>
        if held.writers[id] > 0 {
          var current := pool.Read(id);
          if |current| == |data| {
            pool.Write(id, data);
            ok := true;
          }
        }
      case DropPin(id) =>
        if held.readers[id] > 0 {
          pool.DropPin(id);
          ok, now := true, held.(readers := held.readers - multiset{id});
        }
      case MarkDirty(id) =>
        if held.writers[id] > 0 {
          pool.MarkDirty(id);
          ok, now := true, held.(writers := held.writers - multiset{id}, closing := held.closing + multiset{id});
        }
      case FinishDrop(id) =>
        if held.closing[id] > 0 {
          pool.FinishDrop(id);
          ok, now := true, held.(closing := held.closing - multiset{id});
        }
      case _ =>
    }
  }

  /** Dropping a clean frame is harmless exactly when it equals its stored copy. */
  lemma CleanDrop(pages: Flat, fs: Frames, id: PageId)
    requires id in fs
    ensures Overlay(pages, fs - {id}) == Overlay(pages, fs) <==> id in pages && pages[id] == fs[id].data
  {
    DataRemove(fs, id);
    if id in pages && pages[id] == fs[id].data {
      OverlayDrop(pages, Data(fs), id);
    } else {
      assert id in Overlay(pages, fs) && Overlay(pages, fs)[id] == fs[id].data;
      assert id in Overlay(pages, fs - {id}) ==> id in pages && Overlay(pages, fs - {id})[id] == pages[id];
    }
  }

  /** Why a mutable guard marks the page dirty before it unpins it: in the other order an eviction in
      between drops an unpinned, clean frame and with it every changed byte. */
  lemma UnpinningFirstLosesWrites(pages: Flat, fs: Frames, id: PageId, written: seq<Byte>)
    requires id in fs && id in pages && pages[id] == fs[id].data && !fs[id].dirty && fs[id].pinCount == 1 && written != pages[id]
    ensures var changed := fs[id := fs[id].(data := written)];
            var unpinned := changed[id := changed[id].(pinCount := 0)];
            && unpinned[id].pinCount == 0 && !unpinned[id].dirty
            && Overlay(pages, unpinned)[id] == written && Overlay(pages, unpinned - {id})[id] == pages[id] != written
  {
    var unpinned := fs[id := fs[id].(data := written)][id := fs[id].(data := written, pinCount := 0)];
    CleanDrop(pages, unpinned, id);
  }
}
