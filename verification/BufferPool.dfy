/** The page cache: a byte budget, pinned frames, write-back on eviction
    (src/buffer_pool/pool.rs, src/buffer_pool/frame.rs). Every method is one atomic step; guards held
    by any number of clients live between steps. */
module Pool {
  import opened Bytes
  import opened PageLayout
  import opened Storage
  import opened Lru
  import opened Options

  datatype Frame = Frame(data: seq<Byte>, pinCount: nat, dirty: bool)

  type Frames = map<PageId, Frame>

  function SaturatingSub(a: nat, b: nat): (r: nat)
    ensures r + b == a || (r == 0 && a < b)
  {
    if a < b then 0 else a - b
  }

  // ----- byte counts

  ghost function Sum(m: map<PageId, nat>): nat {
    if m == map[] then 0 else var k :| k in m; m[k] + Sum(m - {k})
  }

  lemma {:induction false} SumRemove(m: map<PageId, nat>, k: PageId)
    requires k in m
    ensures Sum(m) == m[k] + Sum(m - {k})
    decreases |m|
  {
    var j :| j in m && Sum(m) == m[j] + Sum(m - {j});
    if j != k {
      SumRemove(m - {j}, k);
      SumRemove(m - {k}, j);
      assert m - {j} - {k} == m - {k} - {j};
    }
  }

  lemma SumInsert(m: map<PageId, nat>, k: PageId, v: nat)
    requires k !in m
    ensures Sum(m[k := v]) == Sum(m) + v
  {
    SumRemove(m[k := v], k);
    assert m[k := v] - {k} == m;
  }

  lemma {:induction false} SumSubset(m: map<PageId, nat>, n: map<PageId, nat>)
    requires m.Keys <= n.Keys && forall k | k in m :: m[k] == n[k]
    ensures Sum(m) <= Sum(n)
    decreases |m|
  {
    if m != map[] {
      var k :| k in m;
      SumRemove(m, k);
      SumRemove(n, k);
      SumSubset(m - {k}, n - {k});
    }
  }

  ghost function Sizes(fs: Frames): map<PageId, nat> {
    map p | p in fs :: |fs[p].data|
  }

  ghost function PinnedSizes(fs: Frames): map<PageId, nat> {
    map p | p in fs && fs[p].pinCount > 0 :: |fs[p].data|
  }

  ghost function ResidentBytes(fs: Frames): nat {
    Sum(Sizes(fs))
  }

  ghost function PinnedBytes(fs: Frames): nat {
    Sum(PinnedSizes(fs))
  }

  lemma PinnedBelowResident(fs: Frames)
    ensures PinnedBytes(fs) <= ResidentBytes(fs)
    ensures (forall p | p in fs :: fs[p].pinCount > 0) ==> PinnedBytes(fs) == ResidentBytes(fs)
  {
    SumSubset(PinnedSizes(fs), Sizes(fs));
    if forall p | p in fs :: fs[p].pinCount > 0 {
      assert PinnedSizes(fs) == Sizes(fs);
    }
  }

  lemma RemoveFrame(fs: Frames, p: PageId)
    requires p in fs
    ensures ResidentBytes(fs - {p}) == ResidentBytes(fs) - |fs[p].data|
    ensures fs[p].pinCount == 0 ==> PinnedBytes(fs - {p}) == PinnedBytes(fs)
  {
    SumRemove(Sizes(fs), p);
    assert Sizes(fs - {p}) == Sizes(fs) - {p};
    if fs[p].pinCount == 0 { assert PinnedSizes(fs - {p}) == PinnedSizes(fs); }
  }

  lemma InsertFrame(fs: Frames, p: PageId, f: Frame)
    requires p !in fs
    ensures ResidentBytes(fs[p := f]) == ResidentBytes(fs) + |f.data|
  {
    SumInsert(Sizes(fs), p, |f.data|);
    assert Sizes(fs[p := f]) == Sizes(fs)[p := |f.data|];
  }

  lemma UpdateFrame(fs: Frames, p: PageId, f: Frame)
    requires p in fs && |f.data| == |fs[p].data|
    ensures ResidentBytes(fs[p := f]) == ResidentBytes(fs)
    ensures (f.pinCount > 0 <==> fs[p].pinCount > 0) ==> PinnedBytes(fs[p := f]) == PinnedBytes(fs)
  {
    assert Sizes(fs[p := f]) == Sizes(fs);
    if f.pinCount > 0 <==> fs[p].pinCount > 0 {
      assert PinnedSizes(fs[p := f]) == PinnedSizes(fs);
    }
  }

  /** Pages are only ever added. */
  ghost predicate Grows(m: Flat, m': Flat) {
    forall p | p in m :: p in m' && m'[p] == m[p]
  }

  // ----- the pages behind and in the cache, as maps

  ghost function Data(fs: Frames): Flat {
    map p | p in fs :: fs[p].data
  }

  /** What the pool stands for: resident pages as they are now, all others as stored. */
  ghost function Overlay(pages: Flat, fs: Frames): Flat {
    pages + Data(fs)
  }

  /** The guards alive: shared ones, mutable ones, and mutable ones whose drop has marked the page
      dirty but not yet unpinned it. */
  datatype Guards = Guards(readers: multiset<PageId>, writers: multiset<PageId>, closing: multiset<PageId>)
  {
    function Count(p: PageId): nat {
      readers[p] + writers[p] + closing[p]
    }
  }

  /** The cache invariant: pin counts are the guards alive, and a clean frame nobody is writing to
      equals its stored copy. */
  ghost predicate Consistent(fs: Frames, pages: Flat, g: Guards, limit: nat) {
    && (forall p | p in fs :: fs[p].pinCount == g.Count(p) && |fs[p].data| < TWO_32 && p < limit)
    && (forall p: PageId | g.Count(p) > 0 :: p in fs)
    && (forall p | p in fs && !fs[p].dirty && g.writers[p] == 0 :: p in pages && pages[p] == fs[p].data)
    && (forall p | p in pages :: |pages[p]| < TWO_32 && p < limit)
  }

  /** What eviction may do to the other frames: drop unpinned ones and write dirty ones back. */
  ghost predicate Thinned(before: Frames, after: Frames) {
    && after.Keys <= before.Keys
    && (forall p | p in after :: after[p].data == before[p].data && after[p].pinCount == before[p].pinCount)
    && (forall p | p in before && p !in after :: before[p].pinCount == 0)
  }

  lemma ThinnedSelf(a: Frames)
    ensures Thinned(a, a)
  {
  }

  lemma ThinnedTwice(a: Frames, b: Frames, c: Frames)
    requires Thinned(a, b) && Thinned(b, c)
    ensures Thinned(a, c)
  {
  }

  lemma ThinnedKeys(a: Frames, b: Frames, id: PageId)
    requires Thinned(a, b) && id !in a
    ensures id !in b
  {
  }

  lemma ThinnedPinned(a: Frames, b: Frames)
    requires Thinned(a, b)
    ensures PinnedBytes(a) == PinnedBytes(b)
  {
    assert PinnedSizes(a) == PinnedSizes(b);
  }

  lemma DataUpdate(fs: Frames, id: PageId, f: Frame)
    ensures Data(fs[id := f]) == Data(fs)[id := f.data]
  {
  }

  lemma DataRemove(fs: Frames, id: PageId)
    ensures Data(fs - {id}) == Data(fs) - {id}
  {
  }

  lemma OverlayResident(pages: Flat, pages': Flat, d: Flat, id: PageId)
    requires id in d && pages' in {pages, pages[id := d[id]], pages - {id}}
    ensures pages' + d == pages + d
  {
  }

  lemma OverlayDrop(pages: Flat, d: Flat, id: PageId)
    requires id in d && id in pages && pages[id] == d[id]
    ensures pages + (d - {id}) == pages + d
  {
  }

  lemma OverlayUpdate(pages: Flat, d: Flat, id: PageId, v: seq<Byte>)
    ensures pages + d[id := v] == (pages + d)[id := v]
  {
  }

  lemma FrameBounds(fs: Frames, pages: Flat, g: Guards, limit: nat, id: PageId)
    requires Consistent(fs, pages, g, limit)
    ensures id in fs ==> id < limit && |fs[id].data| < TWO_32 && fs[id].pinCount == g.Count(id)
    ensures id !in fs ==> g.Count(id) == 0
    ensures id !in fs && id in Overlay(pages, fs) ==> id in pages
    ensures id in pages ==> id in Overlay(pages, fs)
    ensures id in pages && id !in fs ==> Overlay(pages, fs)[id] == pages[id]
    ensures id in fs ==> id in Overlay(pages, fs) && Overlay(pages, fs)[id] == fs[id].data
  {
  }

  lemma FlushStep(fs: Frames, pages: Flat, g: Guards, limit: nat, id: PageId)
    requires Consistent(fs, pages, g, limit) && id in fs
    ensures var fs' := fs[id := fs[id].(dirty := false)];
            var pages' := pages[id := fs[id].data];
            && Consistent(fs', pages', g, limit) && Overlay(pages', fs') == Overlay(pages, fs)
            && ResidentBytes(fs') == ResidentBytes(fs) && Thinned(fs, fs')
  {
    hide Consistent, ResidentBytes, Overlay, Thinned;
    FlushConsistent(fs, pages, g, limit, id);
    FlushOverlay(fs, pages, id);
    FlushThinned(fs, id);
    UpdateFrame(fs, id, fs[id].(dirty := false));
  }

  lemma FlushOverlay(fs: Frames, pages: Flat, id: PageId)
    requires id in fs
    ensures Overlay(pages[id := fs[id].data], fs[id := fs[id].(dirty := false)]) == Overlay(pages, fs)
  {
    var f := fs[id].(dirty := false);
    DataUpdate(fs, id, f);
    assert Data(fs)[id := f.data] == Data(fs);
    OverlayResident(pages, pages[id := f.data], Data(fs), id);
  }

  lemma FlushThinned(fs: Frames, id: PageId)
    requires id in fs
    ensures Thinned(fs, fs[id := fs[id].(dirty := false)])
  {
  }

  lemma FlushConsistent(fs: Frames, pages: Flat, g: Guards, limit: nat, id: PageId)
    requires Consistent(fs, pages, g, limit) && id in fs
    ensures Consistent(fs[id := fs[id].(dirty := false)], pages[id := fs[id].data], g, limit)
  {
  }

  lemma FailedFlushStep(fs: Frames, pages: Flat, pages': Flat, g: Guards, limit: nat, id: PageId)
    requires Consistent(fs, pages, g, limit) && id in fs && fs[id].dirty
    requires pages' in {pages, pages[id := fs[id].data], pages - {id}}
    ensures Consistent(fs, pages', g, limit) && Overlay(pages', fs) == Overlay(pages, fs)
  {
    OverlayResident(pages, pages', Data(fs), id);
  }

  lemma EvictStep(fs: Frames, pages: Flat, g: Guards, limit: nat, v: PageId)
    requires Consistent(fs, pages, g, limit) && v in fs && fs[v].pinCount == 0 && !fs[v].dirty
    ensures Consistent(fs - {v}, pages, g, limit) && Overlay(pages, fs - {v}) == Overlay(pages, fs)
    ensures ResidentBytes(fs - {v}) == ResidentBytes(fs) - |fs[v].data| && Thinned(fs, fs - {v})
  {
    RemoveFrame(fs, v);
    DataRemove(fs, v);
    assert g.writers[v] == 0;
    OverlayDrop(pages, Data(fs), v);
  }

  /** Dropping a frame that has just been written back drops nothing else. */
  lemma FlushedDrop(before: Frames, after: Frames, v: PageId)
    requires v in before && before[v].pinCount == 0
    requires after == before || after == before[v := before[v].(dirty := false)]
    ensures after - {v} == before - {v} && Thinned(before, before - {v})
  {
  }

  lemma LoadStep(fs: Frames, pages: Flat, g: Guards, limit: nat, id: PageId, g': Guards)
    requires Consistent(fs, pages, g, limit) && id !in fs && id in pages
    requires g'.Count(id) == 1 && forall p: PageId | p != id :: g'.Count(p) == g.Count(p) && g'.writers[p] == g.writers[p]
    ensures var fs' := fs[id := Frame(pages[id], 1, false)];
            && Consistent(fs', pages, g', limit) && Overlay(pages, fs') == Overlay(pages, fs)
            && ResidentBytes(fs') == ResidentBytes(fs) + |pages[id]|
  {
    var f := Frame(pages[id], 1, false);
    InsertFrame(fs, id, f);
    DataUpdate(fs, id, f);
    OverlayUpdate(pages, Data(fs), id, pages[id]);
    assert Overlay(pages, fs)[id := pages[id]] == Overlay(pages, fs);
  }

  lemma NewPageStep(fs: Frames, pages: Flat, g: Guards, limit: nat, id: PageId, data: seq<Byte>)
    requires Consistent(fs, pages, g, limit) && id !in fs && id < limit && |data| < TWO_32
    ensures var fs' := fs[id := Frame(data, 0, true)];
            && Consistent(fs', pages, g, limit) && Overlay(pages, fs') == Overlay(pages, fs)[id := data]
            && ResidentBytes(fs') == ResidentBytes(fs) + |data| && PinnedBytes(fs') == PinnedBytes(fs)
  {
    InsertFrame(fs, id, Frame(data, 0, true));
    assert PinnedSizes(fs[id := Frame(data, 0, true)]) == PinnedSizes(fs);
    DataUpdate(fs, id, Frame(data, 0, true));
    OverlayUpdate(pages, Data(fs), id, data);
  }

  /** A resident frame changes its pin count, its bytes or its dirty mark together with the guards. */
  lemma TouchStep(fs: Frames, pages: Flat, g: Guards, limit: nat, id: PageId, f: Frame, g': Guards)
    requires Consistent(fs, pages, g, limit) && id in fs
    requires |f.data| == |fs[id].data| && f.pinCount == g'.Count(id)
    requires forall p: PageId | p != id :: g'.Count(p) == g.Count(p) && g'.writers[p] == g.writers[p]
    requires !f.dirty && g'.writers[id] == 0 ==> f.data == fs[id].data && !fs[id].dirty && g.writers[id] == 0
    ensures Consistent(fs[id := f], pages, g', limit)
    ensures Overlay(pages, fs[id := f]) == Overlay(pages, fs)[id := f.data]
    ensures ResidentBytes(fs[id := f]) == ResidentBytes(fs)
  {
    UpdateFrame(fs, id, f);
    DataUpdate(fs, id, f);
    OverlayUpdate(pages, Data(fs), id, f.data);
  }

  lemma LimitGrows(fs: Frames, pages: Flat, g: Guards, limit: nat, limit': nat)
    requires Consistent(fs, pages, g, limit) && limit <= limit'
    ensures Consistent(fs, pages, g, limit')
    ensures forall p | p in fs || p in Overlay(pages, fs) :: p < limit
  {
  }

  /** What eviction left had been touched after what it took, or was pinned. */
  ghost predicate Spared(before: Frames, after: Frames, touched: map<PageId, nat>) {
    forall v, p | v in before && v !in after && p in after && after[p].pinCount == 0 ::
      v in touched && p in touched && touched[v] <= touched[p]
  }

  /** Without the last frame it took there would not have been room. */
  ghost predicate Needed(before: Frames, after: Frames, filled: nat, budget: nat) {
    exists v :: v in before && v !in after && filled + |before[v].data| > budget
  }

  ghost predicate Remembered(before: map<PageId, nat>, now: map<PageId, nat>) {
    forall p | p in now :: p in before && before[p] == now[p]
  }

  /** The eviction loop so far. */
  ghost predicate Making(start: Frames, fs: Frames, touched: map<PageId, nat>, now: map<PageId, nat>, before: nat, used: nat,
                         size: nat, budget: nat) {
    && Thinned(start, fs) && Spared(start, fs, touched) && Remembered(touched, now) && used <= before
    && ((used == before && fs == start) || Needed(start, fs, used + size, budget))
    && (before + size <= budget ==> used == before && fs == start)
  }

  lemma MakingStart(fs: Frames, touched: map<PageId, nat>, used: nat, size: nat, budget: nat)
    ensures Making(fs, fs, touched, touched, used, used, size, budget)
  {
  }

  lemma MakingStep(start: Frames, fs: Frames, touched: map<PageId, nat>, now: map<PageId, nat>, before: nat, used: nat,
                   size: nat, budget: nat, v: PageId)
    requires Making(start, fs, touched, now, before, used, size, budget) && used + size > budget
    requires v in fs && fs.Keys == now.Keys && |fs[v].data| <= used
    requires fs[v].pinCount == 0 && forall p | p in fs && fs[p].pinCount == 0 :: now[v] <= now[p]
    ensures Making(start, fs - {v}, touched, now - {v}, before, used - |fs[v].data|, size, budget)
  {
    var after, left := fs - {v}, used - |fs[v].data|;
    assert v in start && start[v].data == fs[v].data;
    assert Needed(start, after, left + size, budget);
    forall u, p | u in start && u !in after && p in after && after[p].pinCount == 0
      ensures u in touched && p in touched && touched[u] <= touched[p]
    {
      if u == v { assert now[v] <= now[p]; }
    }
  }

  lemma MakingEnds(start: Frames, fs: Frames, touched: map<PageId, nat>, now: map<PageId, nat>, before: nat, used: nat,
                   size: nat, budget: nat)
    requires Making(start, fs, touched, now, before, used, size, budget)
    ensures Thinned(start, fs) && Spared(start, fs, touched) && used <= before && PinnedBytes(start) == PinnedBytes(fs)
    ensures fs == start || Needed(start, fs, used + size, budget)
    ensures before + size <= budget ==> fs == start && used == before
  {
    ThinnedPinned(start, fs);
  }

  lemma OneLess(fs: Frames, v: PageId)
    requires v in fs
    ensures |fs - {v}| == |fs| - 1
  {
    assert (fs - {v}).Keys == fs.Keys - {v};
    assert |fs - {v}| == |(fs - {v}).Keys| && |fs| == |fs.Keys|;
  }

  class BufferPool {
    var budget: nat
    var used: nat
    var frames: Frames
    const eviction: LruPolicy
    const store: ChunkStore
    ghost var guards: Guards

    ghost predicate Valid()
      reads this, eviction, store
    {
      && store.Valid() && eviction.Valid()
      && eviction.lastAccess.Keys == frames.Keys
      && used == ResidentBytes(frames)
      && Consistent(frames, store.Pages(), guards, store.counter)
    }

    /** The flat page map the pool stands for. */
    ghost function Contents(): Flat
      reads this`frames, store`files
    {
      Overlay(store.Pages(), frames)
    }

    constructor (budget: nat, store: ChunkStore, eviction: LruPolicy)
      requires store.Valid() && store.files == map[] && eviction.Valid() && eviction.lastAccess == map[]
      ensures Valid() && this.budget == budget && this.store == store && this.eviction == eviction
      ensures used == 0 && frames == map[] && guards == Guards(multiset{}, multiset{}, multiset{}) && Contents() == map[]
    {
      this.budget := budget;
      this.store := store;
      this.eviction := eviction;
      used := 0;
      frames := map[];
      guards := Guards(multiset{}, multiset{}, multiset{});
    }

    method SetBudget(bytes: nat)
      requires Valid()
      modifies this`budget
      ensures Valid() && budget == bytes
    {
      budget := bytes;
    }

    /** Writes a dirty frame back; a failed write leaves the frame dirty, so nothing is lost. */
    method Flush(id: PageId) returns (r: Result<()>)
      requires Valid()
      modifies this`frames, store`files, store`ops, store`faults
      ensures Valid() && Contents() == old(Contents())
      ensures frames == old(frames) || (id in old(frames) && frames == old(frames)[id := old(frames)[id].(dirty := false)])
      ensures r.Ok? && id in frames ==> !frames[id].dirty
      ensures r.Err? ==> r.error == Io && frames == old(frames)
      ensures if id in old(frames) && old(frames)[id].dirty
              then store.ops == old(store.ops) + 1
              else store.ops == old(store.ops) && r.Ok?
      ensures r.Ok? && id in old(frames) && old(frames)[id].dirty ==>
                id in store.files && store.files[id] == EncodeFile(store.codec, store.compressing, id, old(frames)[id].data, 0)
      ensures store.faults == old(store.faults) + if r == Err(Io) then 1 else 0
    {
      hide Consistent, Overlay, ResidentBytes, PinnedBytes, Thinned, Data, PagesOf, ChunkStore.Pages, ChunkStore.Valid,
           ChunkStore.Stored, LruPolicy.Valid, Codec.Valid, EncodeFile;
      if id in frames && frames[id].dirty {
        var data := frames[id].data;
        ghost var pages := store.Pages();
        FrameBounds(frames, pages, guards, store.counter, id);
        var w := store.WritePage(id, data, NO_FLAGS);
        if w.Err? {
          FailedFlushStep(frames, pages, store.Pages(), guards, store.counter, id);
          return Err(w.error);
        }
        FlushStep(frames, pages, guards, store.counter, id);
        frames := frames[id := frames[id].(dirty := false)];
      }
      r := Ok(());
    }

    /** The pages with their pin state, in whatever order the concurrent map yields them. */
    method Snapshot() returns (pairs: seq<(PageId, bool)>)
      ensures forall p, pinned :: (p, pinned) in pairs <==> p in frames && pinned == (frames[p].pinCount > 0)
    {
      pairs := [];
      var rest := frames.Keys;
      while rest != {}
        invariant rest <= frames.Keys
        invariant forall p, pinned :: (p, pinned) in pairs <==> p in frames && p !in rest && pinned == (frames[p].pinCount > 0)
        decreases rest
      {
        var p :| p in rest;
        pairs := pairs + [(p, frames[p].pinCount > 0)];
        rest := rest - {p};
      }
    }

    /** The policy's choice over a snapshot: the unpinned page touched longest ago. */
    method ChooseVictim() returns (victim: Option<PageId>)
      requires Valid()
      ensures victim.None? <==> forall p | p in frames :: frames[p].pinCount > 0
      ensures victim.Some? ==> victim.value in frames && frames[victim.value].pinCount == 0
      ensures victim.Some? ==> forall p | p in frames && frames[p].pinCount == 0 ::
                eviction.lastAccess[victim.value] <= eviction.lastAccess[p]
    {
      var pairs := Snapshot();
      victim := eviction.PickVictim(pairs);
      assert forall p | p in frames :: (p, frames[p].pinCount > 0) in pairs;
      if victim.Some? { assert (victim.value, false) in pairs; }
    }

    /** Evicts the unpinned page touched longest ago, writing it back first. Nothing is evicted
        exactly when every frame is pinned. */
    method EvictOne() returns (r: Result<Option<PageId>>)
      requires Valid()
      modifies this`frames, this`used, store`files, store`ops, store`faults, eviction`lastAccess
      ensures Valid() && Contents() == old(Contents()) && Thinned(old(frames), frames)
      ensures r.Ok? ==> (r.value.None? <==> forall p | p in old(frames) :: old(frames)[p].pinCount > 0)
      ensures r.Ok? && r.value.None? ==> frames == old(frames)
      ensures r.Ok? && r.value.Some? ==>
        var v := r.value.value;
        && v in old(frames) && old(frames)[v].pinCount == 0
        && frames == old(frames) - {v}
        && (forall p | p in old(frames) && old(frames)[p].pinCount == 0 ::
              old(eviction.lastAccess)[v] <= old(eviction.lastAccess)[p])
      ensures eviction.lastAccess ==
              if r.Ok? && r.value.Some? then old(eviction.lastAccess) - {r.value.value} else old(eviction.lastAccess)
      ensures used == old(used) - if r.Ok? && r.value.Some? then |old(frames)[r.value.value].data| else 0
      ensures r.Err? ==> r.error == Io && frames == old(frames)
      ensures store.faults == old(store.faults) + if r == Err(Io) then 1 else 0
    {
      hide Consistent, Overlay, ResidentBytes, PinnedBytes, Thinned, Data, PagesOf, ChunkStore.Pages, ChunkStore.Valid,
           ChunkStore.Stored, LruPolicy.Valid, Codec.Valid;
      var victim := ChooseVictim();
      ThinnedSelf(frames);
      if victim.None? { return Ok(None); }
      var v := victim.value;
      var f := Flush(v);
      if f.Err? { return Err(f.error); }
      FlushedDrop(old(frames), frames, v);
      EvictStep(frames, store.Pages(), guards, store.counter, v);
      var size := |frames[v].data|;
      frames := frames - {v};
      used := used - size;
      eviction.OnEvict(v);
      r := Ok(Some(v));
    }

    /** The eviction loop in front of every load. It ends, it gives up exactly when the pinned bytes leave
        no room, and it evicts no more than it has to, in the order the pages were last touched. */
    method MakeRoom(size: nat) returns (r: Result<()>)
      requires Valid()
      modifies this`frames, this`used, store`files, store`ops, store`faults, eviction`lastAccess
      ensures Valid() && Contents() == old(Contents()) && Thinned(old(frames), frames)
      ensures used <= old(used)
      ensures old(used) + size <= budget ==> r.Ok? && frames == old(frames)
      ensures Spared(old(frames), frames, old(eviction.lastAccess))
      ensures r.Ok? ==> used + size <= budget && old(PinnedBytes(frames)) + size <= budget
      ensures r.Ok? ==> frames == old(frames) || Needed(old(frames), frames, used + size, budget)
      ensures r.Err? ==> r.error == Io || (r.error == PoolFull && old(PinnedBytes(frames)) + size > budget)
      ensures store.faults == old(store.faults) + if r == Err(Io) then 1 else 0
    {
      hide *;
      ghost var start, touched, before := frames, eviction.lastAccess, used;
      MakingStart(frames, eviction.lastAccess, used, size, budget);
      while used + size > budget
        invariant Valid() && Contents() == old(Contents()) && store.faults == old(store.faults)
        invariant Making(start, frames, touched, eviction.lastAccess, before, used, size, budget)
        decreases |frames|
      {
        BytesUsed();
        ghost var fs, now, held := frames, eviction.lastAccess, used;
        var e := EvictOne();
        MakingEnds(start, fs, touched, now, before, held, size, budget);
        if e.Err? { return Err(e.error); }
        if e.value.None? { return Err(PoolFull); }
        MakingStep(start, fs, touched, now, before, held, size, budget, e.value.value);
        assert |frames| == |fs| - 1 by { OneLess(fs, e.value.value); }
      }
      MakingEnds(start, frames, touched, eviction.lastAccess, before, used, size, budget);
      BytesUsed();
      r := Ok(());
    }

    lemma BytesUsed()
      requires Valid()
      ensures PinnedBytes(frames) <= used && frames.Keys == eviction.lastAccess.Keys
      ensures (forall p | p in frames :: frames[p].pinCount > 0) ==> PinnedBytes(frames) == used
    {
      PinnedBelowResident(frames);
    }

    /** The guards after one more pin of id. */
    ghost predicate OnePinMore(id: PageId, g: Guards)
      reads this
    {
      && g.Count(id) == guards.Count(id) + 1 && g.writers[id] >= guards.writers[id]
      && (forall p: PageId | p != id :: g.Count(p) == guards.Count(p) && g.writers[p] == guards.writers[p])
    }

    /** A hit: one more pin, and the page becomes the most recently touched. */
    method Hit(id: PageId, ghost g: Guards)
      requires Valid() && id in frames && OnePinMore(id, g)
      modifies this`frames, this`guards, eviction
      ensures Valid() && Contents() == old(Contents()) && guards == g
      ensures frames.Keys == old(frames.Keys) && eviction.lastAccess[id] == eviction.clock
    {
      hide Consistent, Overlay, ResidentBytes, PinnedBytes, Thinned, Data, PagesOf, ChunkStore.Pages, ChunkStore.Valid,
           ChunkStore.Stored, LruPolicy.Valid, Codec.Valid;
      FrameBounds(frames, store.Pages(), guards, store.counter, id);
      var f := frames[id].(pinCount := frames[id].pinCount + 1);
      TouchStep(frames, store.Pages(), guards, store.counter, id, f, g);
      assert Contents()[id := f.data] == Contents();
      frames := frames[id := f];
      guards := g;
      eviction.Touch(id);
    }

    /** A miss: read the page, make room, insert it with one pin. The load is refused as full exactly
        when the pinned bytes and the page together exceed the budget. */
    method Load(id: PageId, ghost g: Guards) returns (r: Result<()>)
      requires Valid() && id !in frames && OnePinMore(id, g)
      modifies this`frames, this`used, this`guards, store`files, store`ops, store`faults, eviction
      ensures Valid() && Contents() == old(Contents())
      ensures guards == if r.Ok? then g else old(guards)
      ensures r.Ok? ==> id in frames && eviction.lastAccess[id] == eviction.clock
      ensures r.Ok? && id !in old(frames) && old(used) + |old(Contents())[id]| <= budget ==>
                frames.Keys == old(frames.Keys) + {id}
      ensures used <= old(used) || used <= budget
      ensures r.Ok? ==> id in old(Contents()) && old(PinnedBytes(frames)) + |old(Contents())[id]| <= budget
      ensures r.Err? && r.error == PoolFull ==>
        id in old(Contents()) && old(PinnedBytes(frames)) + |old(Contents())[id]| > budget
      ensures r.Err? && id in old(Contents()) ==> r.error in {Io, PoolFull}
      ensures store.faults == old(store.faults) + if r == Err(Io) then 1 else 0
    {
      hide Consistent, Overlay, ResidentBytes, PinnedBytes, Thinned, Data, PagesOf, ChunkStore.Pages, ChunkStore.Valid,
           ChunkStore.Stored, LruPolicy.Valid, Codec.Valid;
      FrameBounds(frames, store.Pages(), guards, store.counter, id);
      var page := store.ReadPage(id);
      if page.Err? { return Err(page.error); }
      var data := page.value.0;
      var room := MakeRoom(|data|);
      if room.Err? { return Err(room.error); }
      ThinnedKeys(old(frames), frames, id);
      FrameBounds(frames, store.Pages(), guards, store.counter, id);
      Place(id, data, g);
      r := Ok(());
    }

    /** The frame of a page just read, with its one pin. */
    method Place(id: PageId, data: seq<Byte>, ghost g: Guards)
      requires Valid() && id !in frames && OnePinMore(id, g) && id in store.Pages() && data == store.Pages()[id]
      modifies this`frames, this`used, this`guards, eviction
      ensures Valid() && Contents() == old(Contents()) && guards == g && used == old(used) + |data|
      ensures frames.Keys == old(frames.Keys) + {id}
      ensures id in frames && eviction.lastAccess[id] == eviction.clock
    {
      hide Consistent, Overlay, ResidentBytes, PinnedBytes, Thinned, Data, PagesOf, ChunkStore.Pages, ChunkStore.Valid,
           ChunkStore.Stored, LruPolicy.Valid, Codec.Valid;
      FrameBounds(frames, store.Pages(), guards, store.counter, id);
      LoadStep(frames, store.Pages(), guards, store.counter, id, g);
      used := used + |data|;
      frames := frames[id := Frame(data, 1, false)];
      guards := g;
      eviction.Touch(id);
    }

    /** pin: a shared guard. */
    method Pin(id: PageId) returns (r: Result<()>)
      requires Valid()
      modifies this`frames, this`used, this`guards, store`files, store`ops, store`faults, eviction
      ensures Valid() && Contents() == old(Contents())
      ensures guards == if r.Ok? then old(guards).(readers := old(guards).readers + multiset{id}) else old(guards)
      ensures r.Ok? ==> id in Contents() && id in frames && eviction.lastAccess[id] == eviction.clock
      ensures r.Ok? && id !in old(frames) && old(used) + |old(Contents())[id]| <= budget ==>
                frames.Keys == old(frames.Keys) + {id}
      ensures id in old(frames) ==> r.Ok? && frames.Keys == old(frames.Keys) && store.ops == old(store.ops)
      ensures used <= old(used) || used <= budget
      ensures r.Err? && id in old(Contents()) ==> r.error == Io || (r.error == PoolFull && !old(Loadable(id)))
      ensures r.Ok? ==> old(Loadable(id))
      ensures store.faults == old(store.faults) + if r == Err(Io) then 1 else 0
    {
      hide Consistent, Overlay, ResidentBytes, PinnedBytes, Thinned, Data, PagesOf, ChunkStore.Pages, ChunkStore.Valid,
           ChunkStore.Stored, LruPolicy.Valid, Codec.Valid;
      ghost var g := guards.(readers := guards.readers + multiset{id});
      if id in frames {
        Hit(id, g);
        r := Ok(());
      } else {
        r := Load(id, g);
      }
      FrameBounds(frames, store.Pages(), guards, store.counter, id);
    }

    /** A page that is resident, or would fit beside the pinned ones. */
    ghost predicate Loadable(id: PageId)
      reads this, store
    {
      id in frames || (id in Contents() && PinnedBytes(frames) + |Contents()[id]| <= budget)
    }

    /** pin_mut: a guard through which the bytes can be changed. */
    method PinMut(id: PageId) returns (r: Result<()>)
      requires Valid()
      modifies this`frames, this`used, this`guards, store`files, store`ops, store`faults, eviction
      ensures Valid() && Contents() == old(Contents())
      ensures guards == if r.Ok? then old(guards).(writers := old(guards).writers + multiset{id}) else old(guards)
      ensures r.Ok? ==> id in Contents() && id in frames && eviction.lastAccess[id] == eviction.clock
      ensures r.Ok? && id !in old(frames) && old(used) + |old(Contents())[id]| <= budget ==>
                frames.Keys == old(frames.Keys) + {id}
      ensures id in old(frames) ==> r.Ok? && frames.Keys == old(frames.Keys) && store.ops == old(store.ops)
      ensures used <= old(used) || used <= budget
      ensures r.Err? && id in old(Contents()) ==> r.error == Io || (r.error == PoolFull && !old(Loadable(id)))
      ensures r.Ok? ==> old(Loadable(id))
      ensures store.faults == old(store.faults) + if r == Err(Io) then 1 else 0
    {
      hide Consistent, Overlay, ResidentBytes, PinnedBytes, Thinned, Data, PagesOf, ChunkStore.Pages, ChunkStore.Valid,
           ChunkStore.Stored, LruPolicy.Valid, Codec.Valid;
      ghost var g := guards.(writers := guards.writers + multiset{id});
      if id in frames {
        Hit(id, g);
        r := Ok(());
      } else {
        r := Load(id, g);
      }
      FrameBounds(frames, store.Pages(), guards, store.counter, id);
    }

    /** Dereferencing a guard yields the page's last bytes. */
    method Read(id: PageId) returns (data: seq<Byte>)
      requires Valid() && guards.Count(id) > 0
      ensures id in Contents() && data == Contents()[id]
    {
      data := frames[id].data;
    }

    /** Writing through a mutable guard. */
    method Write(id: PageId, data: seq<Byte>)
      requires Valid() && guards.writers[id] > 0 && id in Contents() && |data| == |Contents()[id]|
      modifies this`frames
      ensures Valid() && Contents() == old(Contents())[id := data]
    {
      hide Consistent, Overlay, ResidentBytes, PinnedBytes, Thinned, Data, PagesOf, ChunkStore.Pages, ChunkStore.Valid,
           ChunkStore.Stored, LruPolicy.Valid, Codec.Valid;
      assert guards.Count(id) > 0;
      FrameBounds(frames, store.Pages(), guards, store.counter, id);
      var f := frames[id].(data := data);
      TouchStep(frames, store.Pages(), guards, store.counter, id, f, guards);
      frames := frames[id := f];
    }

    method Unpin(id: PageId, ghost g: Guards)
      requires Valid() && guards.Count(id) > 0 && g.writers == guards.writers
      requires g.Count(id) == guards.Count(id) - 1 && forall p: PageId | p != id :: g.Count(p) == guards.Count(p)
      modifies this`frames, this`guards
      ensures Valid() && Contents() == old(Contents()) && guards == g
    {
      hide Consistent, Overlay, ResidentBytes, PinnedBytes, Thinned, Data, PagesOf, ChunkStore.Pages, ChunkStore.Valid,
           ChunkStore.Stored, LruPolicy.Valid, Codec.Valid;
      FrameBounds(frames, store.Pages(), guards, store.counter, id);
      assert id in frames;
      if id in frames {
        var f := frames[id].(pinCount := SaturatingSub(frames[id].pinCount, 1));
        TouchStep(frames, store.Pages(), guards, store.counter, id, f, g);
        assert Contents()[id := f.data] == Contents();
        frames := frames[id := f];
        guards := g;
      }
    }

    /** Dropping a shared guard. */
    method DropPin(id: PageId)
      requires Valid() && guards.readers[id] > 0
      modifies this`frames, this`guards
      ensures Valid() && Contents() == old(Contents())
      ensures guards == old(guards).(readers := old(guards).readers - multiset{id})
    {
      Unpin(id, guards.(readers := guards.readers - multiset{id}));
    }

    /** Dropping a mutable guard, first half: the page is marked dirty while it is still pinned. */
    method MarkDirty(id: PageId)
      requires Valid() && guards.writers[id] > 0
      modifies this`frames, this`guards
      ensures Valid() && Contents() == old(Contents())
      ensures guards == old(guards).(writers := old(guards).writers - multiset{id}, closing := old(guards).closing + multiset{id})
    {
      hide Consistent, Overlay, ResidentBytes, PinnedBytes, Thinned, Data, PagesOf, ChunkStore.Pages, ChunkStore.Valid,
           ChunkStore.Stored, LruPolicy.Valid, Codec.Valid;
      assert guards.Count(id) > 0;
      FrameBounds(frames, store.Pages(), guards, store.counter, id);
      assert id in frames;
      ghost var g := guards.(writers := guards.writers - multiset{id}, closing := guards.closing + multiset{id});
      if id in frames {
        var f := frames[id].(dirty := true);
        TouchStep(frames, store.Pages(), guards, store.counter, id, f, g);
        assert Contents()[id := f.data] == Contents();
        frames := frames[id := f];
        guards := g;
      }
    }

    /** Dropping a mutable guard, second half. */
    method FinishDrop(id: PageId)
      requires Valid() && guards.closing[id] > 0
      modifies this`frames, this`guards
      ensures Valid() && Contents() == old(Contents())
      ensures guards == old(guards).(closing := old(guards).closing - multiset{id})
    {
      Unpin(id, guards.(closing := guards.closing - multiset{id}));
    }

    /** insert_page: a new page enters the cache dirty and unpinned. Refused as full exactly when the
        pinned bytes leave no room. */
    method InsertPage(id: PageId, data: seq<Byte>) returns (r: Result<()>)
      requires Valid() && id !in frames && id < store.counter && |data| < TWO_32
      modifies this`frames, this`used, store`files, store`ops, store`faults, eviction
      ensures Valid()
      ensures Contents() == if r.Ok? then old(Contents())[id := data] else old(Contents())
      ensures PinnedBytes(frames) == old(PinnedBytes(frames))
      ensures old(used) + |data| <= budget ==> r.Ok? && frames.Keys == old(frames.Keys) + {id}
      ensures used <= old(used) || used <= budget
      ensures r.Ok? ==> old(PinnedBytes(frames)) + |data| <= budget
      ensures r.Err? ==> r.error == Io || (r.error == PoolFull && old(PinnedBytes(frames)) + |data| > budget)
      ensures store.faults == old(store.faults) + if r == Err(Io) then 1 else 0
    {
      hide Consistent, Overlay, ResidentBytes, PinnedBytes, Thinned, Data, PagesOf, ChunkStore.Pages, ChunkStore.Valid,
           ChunkStore.Stored, LruPolicy.Valid, Codec.Valid;
      var room := MakeRoom(|data|);
      ThinnedPinned(old(frames), frames);
      if room.Err? { return Err(room.error); }
      ThinnedKeys(old(frames), frames, id);
      NewPageStep(frames, store.Pages(), guards, store.counter, id, data);
      used := used + |data|;
      frames := frames[id := Frame(data, 0, true)];
      eviction.Touch(id);
      r := Ok(());
    }

    /** No guard is alive. */
    ghost predicate Idle()
      reads this
    {
      guards == Guards(multiset{}, multiset{}, multiset{})
    }

    lemma IdlePinsNothing()
      requires Valid() && Idle()
      ensures PinnedBytes(frames) == 0
    {
      assert PinnedSizes(frames) == map[];
    }

    /** With one guard alive, only its page is pinned. */
    lemma OnePinned(id: PageId)
      requires Valid() && guards == Guards(multiset{id}, multiset{}, multiset{})
      ensures id in Contents() && PinnedBytes(frames) == |Contents()[id]|
    {
      assert guards.Count(id) == 1;
      FrameBounds(frames, store.Pages(), guards, store.counter, id);
      assert PinnedSizes(frames) == map[id := |frames[id].data|] by {
        forall p ensures p in PinnedSizes(frames) <==> p == id {
          assert p in frames ==> frames[p].pinCount == guards.Count(p);
        }
      }
      SumRemove(PinnedSizes(frames), id);
      assert PinnedSizes(frames) - {id} == map[];
    }

    /** What every spilling caller does: take a new page id and insert the page under it. */
    method InsertNew(data: seq<Byte>) returns (r: Result<PageId>)
      requires Valid() && |data| < TWO_32
      modifies this`frames, this`used, store`files, store`ops, store`faults, store`counter, eviction
      ensures Valid()
      ensures r.Ok? ==> r.value !in old(Contents()) && Contents() == old(Contents())[r.value := data]
      ensures r.Err? ==> Contents() == old(Contents())
      ensures r.Err? ==> r.error == Io || (r.error == PoolFull && old(PinnedBytes(frames)) + |data| > budget)
      ensures store.faults == old(store.faults) + if r == Err(Io) then 1 else 0
    {
      hide ResidentBytes, PinnedBytes, Data, PagesOf, Consistent, Overlay, ChunkStore.Stored, LruPolicy.Valid,
           Codec.Valid;
      var id := store.NextPageId();
      if id.Err? { return Err(id.error); }
      LimitGrows(frames, old(store.Pages()), guards, old(store.counter), store.counter);
      var w := InsertPage(id.value, data);
      if w.Err? { return Err(w.error); }
      r := Ok(id.value);
    }

    /** What every reading caller does: pin, copy the bytes, drop the guard. */
    method Fetch(id: PageId) returns (r: Result<seq<Byte>>)
      requires Valid() && Idle() && id in Contents()
      modifies this`frames, this`used, this`guards, store`files, store`ops, store`faults, eviction
      ensures Valid() && Idle() && Contents() == old(Contents())
      ensures r.Ok? ==> r.value == Contents()[id]
      ensures r.Err? ==> r.error == Io || (r.error == PoolFull && |Contents()[id]| > budget)
      ensures store.faults == old(store.faults) + if r == Err(Io) then 1 else 0
    {
      hide Consistent, Overlay, ResidentBytes, PinnedBytes, Data, PagesOf, ChunkStore.Pages, ChunkStore.Valid,
           ChunkStore.Stored,
           LruPolicy.Valid, Codec.Valid;
      IdlePinsNothing();
      var pin := Pin(id);
      if pin.Err? { return Err(pin.error); }
      var bytes := Read(id);
      DropPin(id);
      assert guards.readers == multiset{};
      r := Ok(bytes);
    }
  }
}
