/** Packing filtered transactions into pages, and finding the page of a transaction id again
    (src/preprocessing/chunker.rs). */
module Chunking {
  import opened Huim
  import opened Options
  import opened Bytes
  import opened PageLayout
  import opened Storage
  import opened TwuFilter

  // ----- the page format

  ghost predicate EntryFits(e: ItemEntry) {
    e.item < TWO_32 && InI64(e.utility)
  }

  /** The integer types of the format, and a transaction that fits a page of below 4 GiB. */
  ghost predicate TxFits(t: FilteredTransaction) {
    && t.tid < TWO_32 && InI64(t.tu) && 20 + 16 * |t.items| < TWO_32
    && forall k | 0 <= k < |t.items| :: EntryFits(t.items[k])
  }

  /** Item, padding, utility. */
  function EntryBytes(e: ItemEntry): (b: seq<Byte>)
    requires EntryFits(e)
    ensures |b| == 16
  {
    ToLe(e.item, 4) + [0, 0, 0, 0] + I64ToLe(e.utility)
  }

  function EntryFromBytes(b: seq<Byte>): ItemEntry
    requires |b| == 16
  {
    ItemEntry(FromLe(b[..4]), I64FromLe(b[8..16]))
  }

  ghost function EntriesBytes(es: seq<ItemEntry>): (b: seq<Byte>)
    requires forall k | 0 <= k < |es| :: EntryFits(es[k])
    ensures |b| == 16 * |es|
  {
    if es == [] then [] else EntryBytes(es[0]) + EntriesBytes(es[1..])
  }

  ghost function EntriesFromBytes(b: seq<Byte>, n: nat): seq<ItemEntry>
    requires |b| == 16 * n
  {
    if n == 0 then [] else [EntryFromBytes(b[..16])] + EntriesFromBytes(b[16..], n - 1)
  }

  ghost function TxBytes(t: FilteredTransaction): (b: seq<Byte>)
    requires TxFits(t)
    ensures |b| == 16 + 16 * |t.items|
  {
    ToLe(t.tid, 4) + I64ToLe(t.tu) + ToLe(|t.items|, 4) + EntriesBytes(t.items)
  }

  ghost predicate AllFit(ts: seq<FilteredTransaction>) {
    forall k | 0 <= k < |ts| :: TxFits(ts[k])
  }

  ghost function TxsBytes(ts: seq<FilteredTransaction>): seq<Byte>
    requires AllFit(ts)
  {
    if ts == [] then [] else TxBytes(ts[0]) + TxsBytes(ts[1..])
  }

  /** The count, then the transactions. */
  ghost function PageBytes(ts: seq<FilteredTransaction>): seq<Byte>
    requires AllFit(ts) && |ts| < TWO_32
  {
    ToLe(|ts|, 4) + TxsBytes(ts)
  }

  /** Reading a page back as the format describes it. */
  ghost function ParseTxs(b: seq<Byte>, n: nat): (r: Option<seq<FilteredTransaction>>)
    decreases n
  {
    if n == 0 then if b == [] then Some([]) else None
    else if |b| < 16 then None
    else
      var count := FromLe(b[12..16]);
      if |b| < 16 + 16 * count then None
      else
        var t := FilteredTransaction(FromLe(b[..4]), I64FromLe(b[4..12]), EntriesFromBytes(b[16..16 + 16 * count], count));
        match ParseTxs(b[16 + 16 * count..], n - 1)
        case None => None
        case Some(rest) => Some([t] + rest)
  }

  ghost function ParsePage(b: seq<Byte>): Option<seq<FilteredTransaction>> {
    if |b| < 4 then None else ParseTxs(b[4..], FromLe(b[..4]))
  }

  lemma EntryRoundTrip(e: ItemEntry)
    requires EntryFits(e)
    ensures EntryFromBytes(EntryBytes(e)) == e && EntryBytes(e)[4..8] == [0, 0, 0, 0]
  {
    var b := EntryBytes(e);
    Widths();
    LeRoundTrip(e.item, 4);
    I64RoundTrip(e.utility);
    assert b[..4] == ToLe(e.item, 4) && b[8..16] == I64ToLe(e.utility);
  }

  lemma {:induction false} EntriesRoundTrip(es: seq<ItemEntry>)
    requires forall k | 0 <= k < |es| :: EntryFits(es[k])
    ensures EntriesFromBytes(EntriesBytes(es), |es|) == es
  {
    if es != [] {
      var b := EntriesBytes(es);
      EntryRoundTrip(es[0]);
      EntriesRoundTrip(es[1..]);
      assert b[..16] == EntryBytes(es[0]) && b[16..] == EntriesBytes(es[1..]);
      assert es == [es[0]] + es[1..];
    }
  }

  lemma {:induction false} TxsRoundTrip(ts: seq<FilteredTransaction>)
    requires AllFit(ts)
    ensures ParseTxs(TxsBytes(ts), |ts|) == Some(ts)
  {
    hide EntriesBytes, EntriesFromBytes;
    if ts != [] {
      var t, b := ts[0], TxsBytes(ts);
      assert TxFits(t);
      Widths();
      LeRoundTrip(t.tid, 4);
      I64RoundTrip(t.tu);
      LeRoundTrip(|t.items|, 4);
      EntriesRoundTrip(t.items);
      var n := 16 * |t.items|;
      assert b == TxBytes(t) + TxsBytes(ts[1..]);
      assert b[..4] == ToLe(t.tid, 4) && b[4..12] == I64ToLe(t.tu) && b[12..16] == ToLe(|t.items|, 4);
      assert b[16..16 + n] == EntriesBytes(t.items) && b[16 + n..] == TxsBytes(ts[1..]);
      TxsRoundTrip(ts[1..]);
      assert ts == [t] + ts[1..];
    }
  }

  /** A page holds exactly its transactions. */
  lemma PageRoundTrip(ts: seq<FilteredTransaction>)
    requires AllFit(ts) && |ts| < TWO_32
    ensures ParsePage(PageBytes(ts)) == Some(ts)
  {
    var b := PageBytes(ts);
    Widths();
    LeRoundTrip(|ts|, 4);
    TxsRoundTrip(ts);
    assert b[..4] == ToLe(|ts|, 4) && b[4..] == TxsBytes(ts);
  }

  lemma {:induction false} TxsBytesSnoc(ts: seq<FilteredTransaction>, t: FilteredTransaction)
    requires AllFit(ts) && TxFits(t)
    ensures AllFit(ts + [t]) && TxsBytes(ts + [t]) == TxsBytes(ts) + TxBytes(t)
  {
    hide TxBytes;
    if ts == [] {
      assert [t][1..] == [];
    } else {
      assert (ts + [t])[1..] == ts[1..] + [t];
      TxsBytesSnoc(ts[1..], t);
    }
  }

  lemma {:induction false} EntriesBytesSnoc(es: seq<ItemEntry>, e: ItemEntry)
    requires EntryFits(e) && forall k | 0 <= k < |es| :: EntryFits(es[k])
    ensures EntriesBytes(es + [e]) == EntriesBytes(es) + EntryBytes(e)
  {
    hide EntryBytes;
    if es == [] {
      assert [e][1..] == [];
    } else {
      assert (es + [e])[1..] == es[1..] + [e];
      EntriesBytesSnoc(es[1..], e);
    }
  }

  method SerializeTx(t: FilteredTransaction) returns (buf: seq<Byte>)
    requires TxFits(t)
    ensures buf == TxBytes(t)
  {
    hide EntryBytes, EntriesBytes;
    buf := ToLe(t.tid, 4) + I64ToLe(t.tu) + ToLe(|t.items|, 4);
    ghost var head := buf;
    NoEntries();
    assert t.items[..0] == [];
    for k := 0 to |t.items|
      invariant buf == head + EntriesBytes(t.items[..k])
    {
      assert t.items[..k + 1] == t.items[..k] + [t.items[k]];
      EntriesBytesSnoc(t.items[..k], t.items[k]);
      buf := buf + EntryBytes(t.items[k]);
    }
    assert t.items[..|t.items|] == t.items;
  }

  lemma NoEntries()
    ensures EntriesBytes([]) == []
  {
  }

  // ----- sizes

  /** 16 bytes for a transaction and 16 for each of its items. */
  ghost function TxLen(t: FilteredTransaction): nat {
    16 + 16 * |t.items|
  }

  /** 4 bytes for the count, then the transactions. */
  ghost function PageLen(ts: seq<FilteredTransaction>): nat {
    if ts == [] then 4 else PageLen(ts[..|ts| - 1]) + TxLen(ts[|ts| - 1])
  }

  lemma {:induction false} PageLenIs(ts: seq<FilteredTransaction>)
    requires AllFit(ts)
    ensures PageLen(ts) == 4 + |TxsBytes(ts)|
    ensures |ts| < TWO_32 ==> |PageBytes(ts)| == PageLen(ts)
  {
    hide TxBytes;
    if ts != [] {
      var n := |ts| - 1;
      PageLenIs(ts[..n]);
      TxsBytesSnoc(ts[..n], ts[n]);
      assert ts == ts[..n] + [ts[n]];
    }
  }

  lemma PageLenSnoc(ts: seq<FilteredTransaction>, t: FilteredTransaction)
    ensures PageLen(ts + [t]) == PageLen(ts) + TxLen(t)
  {
    assert (ts + [t])[..|ts|] == ts;
  }

  // ----- the directory

  datatype PageDirectoryEntry = PageDirectoryEntry(startTid: nat, endTid: nat, pageId: PageId, byteOffset: nat)

  class PageDirectory {
    var entries: map<nat, PageDirectoryEntry>

    constructor ()
      ensures entries == map[]
    {
      entries := map[];
    }

    method Add(entry: PageDirectoryEntry)
      modifies this
      ensures entries == old(entries)[entry.startTid := entry]
    {
      entries := entries[entry.startTid := entry];
    }

    function FindPage(tid: nat): Option<PageDirectoryEntry>
      reads this
    {
      FindIn(entries, tid)
    }

    function EntryCount(): nat
      reads this
    {
      |entries|
    }
  }

  lemma {:induction false} GreatestExists(s: set<nat>) returns (m: nat)
    requires s != {}
    ensures m in s && forall x | x in s :: x <= m
    decreases |s|
  {
    m :| m in s;
    if s != {m} {
      var n := GreatestExists(s - {m});
      forall x | x in s ensures x <= n || x == m {
        if x != m { assert x in s - {m}; }
      }
      m := if n < m then m else n;
    }
  }

  function Greatest(s: set<nat>): (m: nat)
    requires s != {}
    ensures m in s && forall x | x in s :: x <= m
  {
    assert exists m :: m in s && forall x | x in s :: x <= m by { var _ := GreatestExists(s); }
    var top :| top in s && forall x | x in s :: x <= top;
    top
  }

  /** The entry with the greatest start not above tid, if its range reaches tid. */
  function FindIn(entries: map<nat, PageDirectoryEntry>, tid: nat): Option<PageDirectoryEntry> {
    var below := set s | s in entries && s <= tid;
    if below == {} then None
    else
      var e := entries[Greatest(below)];
      if tid <= e.endTid then Some(e) else None
  }

  // ----- chunks

  /** A flushed page: its id and its transactions. */
  datatype Chunk = Chunk(id: PageId, txs: seq<FilteredTransaction>)

  ghost predicate Rising(ts: seq<FilteredTransaction>) {
    forall i, j | 0 <= i < j < |ts| :: ts[i].tid < ts[j].tid
  }

  function First(c: Chunk): nat {
    if c.txs == [] then 0 else c.txs[0].tid
  }

  function Last(c: Chunk): nat {
    if c.txs == [] then 0 else c.txs[|c.txs| - 1].tid
  }

  /** The pages are not empty, and their id ranges are disjoint and in order. */
  ghost predicate Ordered(chunks: seq<Chunk>) {
    && (forall k | 0 <= k < |chunks| :: chunks[k].txs != [] && Rising(chunks[k].txs) && First(chunks[k]) <= Last(chunks[k]))
    && (forall i, j | 0 <= i < j < |chunks| :: Last(chunks[i]) < First(chunks[j]))
  }

  function EntryOf(c: Chunk): PageDirectoryEntry {
    PageDirectoryEntry(First(c), Last(c), c.id, 0)
  }

  /** The directory has one entry for every page, and no other. */
  ghost predicate Indexes(entries: map<nat, PageDirectoryEntry>, chunks: seq<Chunk>) {
    (forall s | s in entries :: StartsOne(chunks, s)) && (forall k | 0 <= k < |chunks| :: IsEntry(entries, chunks[k]))
  }

  ghost predicate StartsOne(chunks: seq<Chunk>, s: nat) {
    exists k :: 0 <= k < |chunks| && s == First(chunks[k])
  }

  ghost predicate IsEntry(entries: map<nat, PageDirectoryEntry>, c: Chunk) {
    First(c) in entries && entries[First(c)] == EntryOf(c)
  }

  lemma Positions(chunks: seq<Chunk>, j: nat, k: nat)
    requires Ordered(chunks) && j < |chunks| && k < |chunks|
    ensures First(chunks[j]) <= Last(chunks[k]) ==> j <= k
    ensures First(chunks[j]) <= Last(chunks[j])
  {
  }

  lemma StartOf(entries: map<nat, PageDirectoryEntry>, chunks: seq<Chunk>, s: nat) returns (k: nat)
    requires Indexes(entries, chunks) && s in entries
    ensures k < |chunks| && s == First(chunks[k]) && entries[s] == EntryOf(chunks[k])
  {
    assert StartsOne(chunks, s);
    k :| k < |chunks| && s == First(chunks[k]);
    assert IsEntry(entries, chunks[k]);
  }

  ghost predicate Covers(c: Chunk, tid: nat) {
    First(c) <= tid <= Last(c)
  }

  /** Looking up an id returns exactly the page whose range contains it, and nothing outside all ranges. */
  lemma FindExact(entries: map<nat, PageDirectoryEntry>, chunks: seq<Chunk>, tid: nat)
    requires Ordered(chunks) && Indexes(entries, chunks)
    ensures FindIn(entries, tid).Some? <==> exists k :: 0 <= k < |chunks| && Covers(chunks[k], tid)
    ensures forall k | 0 <= k < |chunks| && Covers(chunks[k], tid) :: FindIn(entries, tid) == Some(EntryOf(chunks[k]))
  {
    hide Ordered, Indexes, First, Last;
    var below := set s | s in entries && s <= tid;
    forall k | 0 <= k < |chunks| && Covers(chunks[k], tid) ensures FindIn(entries, tid) == Some(EntryOf(chunks[k])) {
      FindOne(entries, chunks, tid, k);
    }
    if FindIn(entries, tid).Some? {
      var j := StartOf(entries, chunks, Greatest(below));
      assert Covers(chunks[j], tid) by { EntryRange(chunks[j], tid); }
    }
  }

  lemma EntryRange(c: Chunk, tid: nat)
    ensures Covers(c, tid) <==> First(c) <= tid <= EntryOf(c).endTid
  {
  }

  lemma FindOne(entries: map<nat, PageDirectoryEntry>, chunks: seq<Chunk>, tid: nat, k: nat)
    requires Ordered(chunks) && Indexes(entries, chunks) && k < |chunks| && Covers(chunks[k], tid)
    ensures FindIn(entries, tid) == Some(EntryOf(chunks[k]))
  {
    hide Ordered, First, Last;
    var below := set s | s in entries && s <= tid;
    assert IsEntry(entries, chunks[k]);
    assert First(chunks[k]) in below;
    var m := Greatest(below);
    var j := StartOf(entries, chunks, m);
    Positions(chunks, j, k);
    Positions(chunks, k, j);
    EntryRange(chunks[k], tid);
  }

  /** In particular, every stored transaction is found. */
  lemma FindStored(entries: map<nat, PageDirectoryEntry>, chunks: seq<Chunk>, k: nat, i: nat)
    requires Ordered(chunks) && Indexes(entries, chunks) && k < |chunks| && i < |chunks[k].txs|
    ensures FindIn(entries, chunks[k].txs[i].tid) == Some(EntryOf(chunks[k]))
  {
    var ts := chunks[k].txs;
    assert Rising(ts);
    assert Covers(chunks[k], ts[i].tid);
    FindExact(entries, chunks, ts[i].tid);
  }

  lemma OrderedSnoc(chunks: seq<Chunk>, c: Chunk)
    requires Ordered(chunks) && c.txs != [] && Rising(c.txs)
    requires chunks != [] ==> Last(chunks[|chunks| - 1]) < First(c)
    ensures Ordered(chunks + [c])
    ensures forall i | 0 <= i < |chunks| :: First(chunks[i]) < First(c)
  {
    hide First, Last, Rising;
    var more := chunks + [c];
    assert First(c) <= Last(c) by { RisingRange(c); }
    forall i | 0 <= i < |chunks| ensures Last(chunks[i]) < First(c) && First(chunks[i]) <= Last(chunks[i]) {
      Positions(chunks, i, |chunks| - 1);
      Positions(chunks, |chunks| - 1, |chunks| - 1);
      if i < |chunks| - 1 { assert Last(chunks[i]) < First(chunks[|chunks| - 1]); }
    }
  }

  lemma RisingRange(c: Chunk)
    requires c.txs != [] && Rising(c.txs)
    ensures First(c) <= Last(c)
  {
  }

  lemma IndexesSnoc(entries: map<nat, PageDirectoryEntry>, chunks: seq<Chunk>, c: Chunk)
    requires Indexes(entries, chunks) && forall i | 0 <= i < |chunks| :: First(chunks[i]) < First(c)
    ensures Indexes(entries[First(c) := EntryOf(c)], chunks + [c])
  {
    hide First, Last, EntryOf;
    var more, m := chunks + [c], entries[First(c) := EntryOf(c)];
    forall s | s in m ensures StartsOne(more, s) {
      if s in entries {
        var k := StartOf(entries, chunks, s);
        assert more[k] == chunks[k];
      } else {
        assert more[|chunks|] == c;
      }
    }
    forall k | 0 <= k < |more| ensures IsEntry(m, more[k]) {
      if k < |chunks| { assert IsEntry(entries, chunks[k]); }
    }
  }

  /** The transactions of all pages, in order. */
  ghost function Flatten(chunks: seq<Chunk>): seq<FilteredTransaction> {
    if chunks == [] then [] else Flatten(chunks[..|chunks| - 1]) + chunks[|chunks| - 1].txs
  }

  lemma {:induction false} InSomeChunk(chunks: seq<Chunk>, t: FilteredTransaction) returns (k: nat, i: nat)
    requires t in Flatten(chunks)
    ensures k < |chunks| && i < |chunks[k].txs| && chunks[k].txs[i] == t
  {
    var n := |chunks| - 1;
    if t in chunks[n].txs {
      k := n;
      i :| i < |chunks[n].txs| && chunks[n].txs[i] == t;
    } else {
      k, i := InSomeChunk(chunks[..n], t);
    }
  }

  /** From a transaction's id to the transaction: the directory names a page, and that page decodes to a
      list that contains it. */
  lemma FoundPageHolds(entries: map<nat, PageDirectoryEntry>, chunks: seq<Chunk>, pages: Flat, limit: nat, t: FilteredTransaction)
    requires Ordered(chunks) && Indexes(entries, chunks) && t in Flatten(chunks)
    requires forall k | 0 <= k < |chunks| :: ChunkStored(pages, limit, chunks[k])
    ensures var e := FindIn(entries, t.tid);
            && e.Some? && e.value.pageId in pages
            && var page := ParsePage(pages[e.value.pageId]); page.Some? && t in page.value
  {
    hide PageBytes, ParsePage, Ordered, Indexes;
    var k, i := InSomeChunk(chunks, t);
    FindStored(entries, chunks, k, i);
    assert ChunkStored(pages, limit, chunks[k]);
    PageRoundTrip(chunks[k].txs);
  }

  class Chunker {
    const store: ChunkStore
    const pageSizeBytes: nat
    var currentPageBuf: seq<Byte>
    var currentPageId: PageId
    var currentPageStartTid: nat
    var currentPageEndTid: nat
    var txCountInPage: nat
    const directory: PageDirectory
    // The flushed pages, and the transactions of the page being filled.
    ghost var chunks: seq<Chunk>
    ghost var current: seq<FilteredTransaction>

    ghost predicate Valid()
      reads this, store, directory
    {
      && store.Valid() && currentPageId < store.counter
      && txCountInPage == |current| && AllFit(current)
      && |currentPageBuf| >= 4 && currentPageBuf[4..] == TxsBytes(current)
      && (current != [] ==> currentPageStartTid == current[0].tid && currentPageEndTid == current[|current| - 1].tid)
      && (|currentPageBuf| <= pageSizeBytes || |current| <= 1) && |currentPageBuf| < TWO_32 && pageSizeBytes < TWO_32
      && Rising(current) && Ordered(chunks) && Indexes(directory.entries, chunks)
      && (chunks != [] && current != [] ==> Last(chunks[|chunks| - 1]) < current[0].tid)
      && Filed(store.Pages(), pageSizeBytes, chunks, currentPageId, store.counter)
    }

    /** Every transaction added so far. */
    ghost function Added(): seq<FilteredTransaction>
      reads this
    {
      Flatten(chunks) + current
    }

    /** Transaction ids must keep rising. */
    ghost predicate Above(tid: nat)
      reads this
    {
      && (current != [] ==> current[|current| - 1].tid < tid)
      && (current == [] && chunks != [] ==> Last(chunks[|chunks| - 1]) < tid)
    }

    constructor (store: ChunkStore, pageSizeBytes: nat, firstPage: PageId)
      requires store.Valid() && firstPage < store.counter && pageSizeBytes < TWO_32
      ensures Valid() && Added() == [] && chunks == [] && current == [] && this.store == store
      ensures this.pageSizeBytes == pageSizeBytes && fresh(directory)
    {
      this.store := store;
      this.pageSizeBytes := pageSizeBytes;
      currentPageId := firstPage;
      currentPageBuf := [0, 0, 0, 0];
      currentPageStartTid, currentPageEndTid, txCountInPage := 0, 0, 0;
      directory := new PageDirectory();
      chunks, current := [], [];
    }

    /** Writes the page being filled under its id, enters it in the directory, and starts a new one. After
        a failed write nothing has changed and the call can be repeated. */
    method FlushPage() returns (r: Result<()>)
      requires Valid()
      modifies this, store, directory
      ensures store.Valid() && store.faults >= old(store.faults)
      ensures r.Ok? ==> Valid() && Added() == old(Added()) && current == []
      ensures r.Ok? ==>
                chunks == if old(current) == [] then old(chunks) else old(chunks) + [Chunk(old(currentPageId), old(current))]
      ensures r.Ok? && old(current) != [] ==>
                var id := old(currentPageId);
                id in store.files && store.files[id] == EncodeFile(store.codec, store.compressing, id, PageBytes(old(current)), 4)
      ensures r.Err? ==> r.error == Io && store.faults > old(store.faults)
      ensures r.Err? && old(store.counter) < TWO_64 ==> Valid() && chunks == old(chunks) && current == old(current)
    {
      hide TxsBytes, TxBytes, PagesOf, Ordered, Indexes, Rising, EntryOf, Filed, ChunkStored, Flatten, AllFit, First,
           Last,
           EncodeFile, PageBytes, ChunkStore.Valid, ChunkStore.Pages, Codec.Valid, ToLe;
      if txCountInPage == 0 { return Ok(()); }
      CountFits(current, |currentPageBuf|);
      ghost var before, c := store.Pages(), Chunk(currentPageId, current);
      var w := WriteCurrent();
      if w.Err? { return w; }
      EntryFields(c);
      OrderedSnoc(chunks, c);
      IndexesSnoc(directory.entries, chunks, c);
      directory.Add(PageDirectoryEntry(currentPageStartTid, currentPageEndTid, currentPageId, 0));
      FiledSnoc(before, pageSizeBytes, chunks, c, currentPageBuf, store.counter);
      FlattenSnoc(chunks, c);
      chunks := chunks + [c];
      r := StartPage();
    }

    /** Takes a fresh id for the next page. */
    method StartPage() returns (r: Result<()>)
      requires store.Valid() && pageSizeBytes < TWO_32 && Ordered(chunks) && Indexes(directory.entries, chunks)
      requires Filed(store.Pages(), pageSizeBytes, chunks, store.counter, store.counter)
      modifies this`currentPageId, this`currentPageBuf, this`txCountInPage, this`current, store`counter, store`faults
      ensures store.Valid() && store.faults >= old(store.faults)
      ensures r.Ok? ==> Valid() && current == []
      ensures r.Err? ==> r.error == Io && store.faults > old(store.faults) && old(store.counter) >= TWO_64
    {
      hide TxsBytes, TxBytes, PagesOf, Ordered, Indexes, Rising, EntryOf, Filed, ChunkStored, Flatten, AllFit, First,
           Last, PageBytes, ChunkStore.Valid, ChunkStore.Pages, Codec.Valid, ToLe;
      ghost var pages := store.Pages();
      var id := store.NextPageId();
      if id.Err? { return Err(id.error); }
      FiledNext(pages, pageSizeBytes, chunks, id.value);
      current := [];
      NoTxs();
      currentPageId := id.value;
      currentPageBuf := [0, 0, 0, 0];
      txCountInPage := 0;
      r := Ok(());
    }

    /** Fills in the count and writes the page. */
    method WriteCurrent() returns (r: Result<()>)
      requires Valid() && |current| < TWO_32
      modifies this`currentPageBuf, store`files, store`ops, store`faults
      ensures store.Valid() && currentPageBuf == PageBytes(current) && |currentPageBuf| == |old(currentPageBuf)|
      ensures r.Ok? ==>
                store.Pages() == old(store.Pages())[currentPageId := PageBytes(current)] && store.faults == old(store.faults)
      ensures r.Ok? ==> var id := currentPageId;
                id in store.files && store.files[id] == EncodeFile(store.codec, store.compressing, id, PageBytes(current), 4)
      ensures r.Err? ==> Valid() && r.error == Io && store.faults > old(store.faults)
    {
      hide TxsBytes, TxBytes, PagesOf, Ordered, Indexes, Rising, EntryOf, Filed, ChunkStored, AllFit, First, Last,
           EncodeFile;
      ghost var before := store.Pages();
      currentPageBuf := ToLe(txCountInPage, 4) + currentPageBuf[4..];
      assert currentPageBuf == PageBytes(current);
      assert currentPageBuf[4..] == old(currentPageBuf)[4..];
      r := store.WritePage(currentPageId, currentPageBuf, TX_CHUNK);
      if r.Err? { FiledStill(before, store.Pages(), pageSizeBytes, chunks, currentPageId, store.counter); }
    }

    /** Appends a serialized transaction to the page being filled. */
    method Append(t: FilteredTransaction, bytes: seq<Byte>)
      requires Valid() && TxFits(t) && Above(t.tid) && bytes == TxBytes(t)
      requires txCountInPage == 0 || |currentPageBuf| + |bytes| <= pageSizeBytes
      modifies this
      ensures Valid() && Added() == old(Added()) + [t]
      ensures chunks == old(chunks) && current == old(current) + [t]
    {
      hide TxBytes, PagesOf, Ordered, Indexes, Filed, TxsBytes, Flatten, First, AllFit;
      if txCountInPage == 0 { currentPageStartTid := t.tid; }
      currentPageEndTid := t.tid;
      txCountInPage := txCountInPage + 1;
      TxsBytesSnoc(current, t);
      EmptyBuffer(current, currentPageBuf);
      assert (currentPageBuf + bytes)[4..] == currentPageBuf[4..] + bytes;
      RisingSnoc(current, t);
      currentPageBuf := currentPageBuf + bytes;
      current := current + [t];
    }

    /** The transaction goes on the page being filled: it is the first, or the page stays within the limit. */
    ghost predicate FitsPage(t: FilteredTransaction)
      reads this
    {
      current == [] || PageLen(current) + TxLen(t) <= pageSizeBytes
    }

    /** Adds one transaction, after flushing exactly if it would overfill the page. After a failed write
        nothing has changed and the call can be repeated. */
    method AddTransaction(t: FilteredTransaction) returns (r: Result<()>)
      requires Valid() && TxFits(t) && Above(t.tid)
      modifies this, store, directory
      ensures store.Valid() && store.faults >= old(store.faults)
      ensures r.Ok? ==> Valid() && Added() == old(Added()) + [t]
      ensures old(FitsPage(t)) ==> r.Ok? && chunks == old(chunks) && current == old(current) + [t]
      ensures r.Ok? && !old(FitsPage(t)) ==>
                chunks == old(chunks) + [Chunk(old(currentPageId), old(current))] && current == [t]
      ensures r.Ok? && old(Packed(pageSizeBytes, chunks, current)) ==> Packed(pageSizeBytes, chunks, current)
      ensures r.Err? ==> r.error == Io && store.faults > old(store.faults)
      ensures r.Err? && old(store.counter) < TWO_64 ==> Valid() && chunks == old(chunks) && current == old(current)
    {
      hide TxBytes, PagesOf, Ordered, Indexes, Filed, TxsBytes, Flatten, First, AllFit, Rising, PageLen, Packed,
           EncodeFile;
      var bytes := SerializeTx(t);
      PageLenIs(current);
      TxBytesLength(t);
      if txCountInPage > 0 && |currentPageBuf| + |bytes| > pageSizeBytes {
        var f := FlushPage();
        if f.Err? { return f; }
        assert Last(chunks[|chunks| - 1]) < t.tid;
        PackedFlush(pageSizeBytes, old(chunks), old(current), old(currentPageId), t);
      } else {
        PackedAppend(pageSizeBytes, chunks, current, t);
      }
      Append(t, bytes);
      r := Ok(());
    }

    /** Flushes what is left. In the result, every transaction added is in exactly one page, page
        ranges are disjoint and in order, and a page exceeds the size limit only if it holds one transaction. */
    method Finalize() returns (r: Result<PageDirectory>)
      requires Valid()
      modifies this, store, directory
      ensures r.Ok? ==> r.value == directory && Flatten(chunks) == old(Added())
      ensures r.Ok? ==> Ordered(chunks) && Indexes(directory.entries, chunks)
      ensures r.Ok? ==> forall k | 0 <= k < |chunks| :: ChunkStored(store.Pages(), pageSizeBytes, chunks[k])
      ensures r.Ok? && old(Packed(pageSizeBytes, chunks, current)) ==> Tight(pageSizeBytes, chunks)
      ensures r.Err? ==> r.error == Io && store.faults > old(store.faults)
      ensures r.Err? && old(store.counter) < TWO_64 ==> Valid() && chunks == old(chunks) && current == old(current)
    {
      hide TxsBytes, PagesOf, Ordered, Indexes, ChunkStored, Rising, AllFit, PageLen, EncodeFile, Tight, Packed;
      var f := FlushPage();
      if f.Err? { return Err(f.error); }
      assert Flatten(chunks) + [] == Flatten(chunks);
      PackedEnd(pageSizeBytes, old(chunks), old(current), old(currentPageId));
      r := Ok(directory);
    }
  }

  // ----- how full the pages are

  /** No page had room for the first transaction of the next one. */
  ghost predicate Tight(limit: nat, chunks: seq<Chunk>) {
    && (forall k | 0 <= k < |chunks| :: chunks[k].txs != [])
    && (forall k | 0 < k < |chunks| :: PageLen(chunks[k - 1].txs) + TxLen(chunks[k].txs[0]) > limit)
  }

  /** The same while a page is being filled: it was begun because the last one had no room. */
  ghost predicate Packed(limit: nat, chunks: seq<Chunk>, current: seq<FilteredTransaction>) {
    && Tight(limit, chunks)
    && (chunks != [] ==> current != [] && PageLen(chunks[|chunks| - 1].txs) + TxLen(current[0]) > limit)
  }

  lemma PackedAppend(limit: nat, chunks: seq<Chunk>, current: seq<FilteredTransaction>, t: FilteredTransaction)
    ensures Packed(limit, chunks, current) ==> Packed(limit, chunks, current + [t])
  {
    hide PageLen;
  }

  lemma PackedFlush(limit: nat, chunks: seq<Chunk>, current: seq<FilteredTransaction>, id: PageId, t: FilteredTransaction)
    requires current != [] && PageLen(current) + TxLen(t) > limit
    ensures Packed(limit, chunks, current) ==> Packed(limit, chunks + [Chunk(id, current)], [] + [t])
  {
    hide PageLen;
    if Packed(limit, chunks, current) {
      var more := chunks + [Chunk(id, current)];
      forall k | 0 < k < |more| ensures PageLen(more[k - 1].txs) + TxLen(more[k].txs[0]) > limit {
        if k < |chunks| { assert more[k - 1] == chunks[k - 1] && more[k] == chunks[k]; }
      }
    }
  }

  lemma PackedEnd(limit: nat, chunks: seq<Chunk>, current: seq<FilteredTransaction>, id: PageId)
    ensures Packed(limit, chunks, current) ==>
              Tight(limit, if current == [] then chunks else chunks + [Chunk(id, current)])
  {
    hide PageLen;
    if Packed(limit, chunks, current) && current != [] {
      var more := chunks + [Chunk(id, current)];
      forall k | 0 < k < |more| ensures PageLen(more[k - 1].txs) + TxLen(more[k].txs[0]) > limit {
        if k < |chunks| { assert more[k - 1] == chunks[k - 1] && more[k] == chunks[k]; }
      }
    }
  }

  // ----- no division of the stream into pages has fewer

  /** Where page k begins in the stream. */
  ghost function Start(chunks: seq<Chunk>, k: nat): nat
    requires k <= |chunks|
  {
    |Flatten(chunks[..k])|
  }

  lemma {:induction false} PageAt(chunks: seq<Chunk>, k: nat)
    requires k < |chunks|
    ensures var a, b := Start(chunks, k), Start(chunks, k + 1);
            b == a + |chunks[k].txs| <= |Flatten(chunks)| && Flatten(chunks)[a..b] == chunks[k].txs
  {
    var n := |chunks| - 1;
    assert chunks[..k + 1][..k] == chunks[..k];
    if k < n {
      PageAt(chunks[..n], k);
      assert chunks[..n][..k] == chunks[..k] && chunks[..n][..k + 1] == chunks[..k + 1];
    } else {
      assert chunks[..k + 1] == chunks;
    }
  }

  lemma {:induction false} PageLenConcat(a: seq<FilteredTransaction>, b: seq<FilteredTransaction>)
    ensures PageLen(a + b) + 4 == PageLen(a) + PageLen(b)
  {
    if b == [] {
      assert a + b == a;
    } else {
      var n := |b| - 1;
      PageLenConcat(a, b[..n]);
      PageLenSnoc(a + b[..n], b[n]);
      assert a + b == a + b[..n] + [b[n]];
    }
  }

  lemma {:induction false} PageLenLeast(ts: seq<FilteredTransaction>)
    ensures PageLen(ts) >= 4
  {
    if ts != [] { PageLenLeast(ts[..|ts| - 1]); }
  }

  /** Less of the stream, fewer bytes. */
  lemma PageLenWithin(ts: seq<FilteredTransaction>, a: nat, b: nat, c: nat, d: nat)
    requires a <= b <= c <= d <= |ts|
    ensures PageLen(ts[b..c]) <= PageLen(ts[a..d])
  {
    hide PageLen;
    PageLenConcat(ts[a..b], ts[b..c]);
    PageLenConcat(ts[a..b] + ts[b..c], ts[c..d]);
    assert ts[a..d] == ts[a..b] + ts[b..c] + ts[c..d];
    PageLenLeast(ts[a..b]);
    PageLenLeast(ts[c..d]);
  }

  ghost predicate WithinLimit(limit: nat, chunks: seq<Chunk>) {
    forall k | 0 <= k < |chunks| :: PageLen(chunks[k].txs) <= limit || |chunks[k].txs| <= 1
  }

  /** After as many pages, the tight packing has come at least as far. */
  lemma {:induction false} Ahead(limit: nat, chunks: seq<Chunk>, others: seq<Chunk>, j: nat)
    requires Tight(limit, chunks) && WithinLimit(limit, others) && Flatten(chunks) == Flatten(others)
    requires j <= |others| && j <= |chunks|
    ensures Start(others, j) <= Start(chunks, j)
  {
    hide PageLen, Flatten;
    if j > 0 {
      Ahead(limit, chunks, others, j - 1);
      PageAt(chunks, j - 1);
      PageAt(others, j - 1);
      var ts, a, b, c, d := Flatten(chunks), Start(others, j - 1), Start(chunks, j - 1), Start(chunks, j), Start(others, j);
      if j == |chunks| {
        assert chunks[..j] == chunks;
      } else if d > c {
        PageAt(chunks, j);
        PageLenSnoc(chunks[j - 1].txs, chunks[j].txs[0]);
        assert ts[c] == chunks[j].txs[0];
        assert ts[b..c + 1] == chunks[j - 1].txs + [chunks[j].txs[0]];
        PageLenWithin(ts, a, b, c + 1, d);
      }
    }
  }

  /** Filling every page until the next transaction does not fit uses the fewest pages of all ways to
      cut the stream into pages that keep the limit or hold one transaction. */
  lemma FewestPages(limit: nat, chunks: seq<Chunk>, others: seq<Chunk>)
    requires Tight(limit, chunks) && WithinLimit(limit, others) && Flatten(chunks) == Flatten(others)
    ensures |chunks| <= |others|
  {
    hide PageLen, Flatten;
    var n := |others|;
    if n < |chunks| {
      Ahead(limit, chunks, others, n);
      assert others[..n] == others;
      PageAt(chunks, n);
    }
  }

  lemma TxBytesLength(t: FilteredTransaction)
    requires TxFits(t)
    ensures |TxBytes(t)| == TxLen(t)
  {
  }

  lemma FiledStill(pages: Flat, pages': Flat, limit: nat, chunks: seq<Chunk>, id: PageId, counter: nat)
    requires Filed(pages, limit, chunks, id, counter) && forall p | p in pages && p != id :: p in pages' && pages'[p] == pages[p]
    ensures Filed(pages', limit, chunks, id, counter)
  {
    hide PageBytes, AllFit;
    forall k | 0 <= k < |chunks| ensures ChunkStored(pages', limit, chunks[k]) {
      assert ChunkStored(pages, limit, chunks[k]);
    }
  }

  /** The page is in the store with exactly its transactions, and is within the limit unless it holds
      a single one. */
  ghost predicate ChunkStored(pages: Flat, limit: nat, c: Chunk) {
    && AllFit(c.txs) && |c.txs| < TWO_32
    && c.id in pages && pages[c.id] == PageBytes(c.txs)
    && (|pages[c.id]| <= limit || |c.txs| == 1)
  }

  /** All flushed pages are stored, under ids that are taken. */
  ghost predicate Filed(pages: Flat, limit: nat, chunks: seq<Chunk>, next: PageId, counter: nat) {
    forall k | 0 <= k < |chunks| :: chunks[k].id < counter && chunks[k].id != next && ChunkStored(pages, limit, chunks[k])
  }

  /** The page just written joins the flushed ones; the next page's id is a new one. */
  lemma FiledSnoc(pages: Flat, limit: nat, chunks: seq<Chunk>, c: Chunk, data: seq<Byte>, counter: nat)
    requires Filed(pages, limit, chunks, c.id, counter) && c.id < counter
    requires AllFit(c.txs) && |c.txs| < TWO_32 && data == PageBytes(c.txs) && (|data| <= limit || |c.txs| == 1)
    ensures Filed(pages[c.id := data], limit, chunks + [c], counter, counter)
  {
    hide PageBytes, AllFit;
    var more := chunks + [c];
    forall k | 0 <= k < |more| ensures more[k].id < counter && ChunkStored(pages[c.id := data], limit, more[k]) {
      if k < |chunks| { assert more[k] == chunks[k] && chunks[k].id != c.id; }
    }
  }

  lemma FiledNext(pages: Flat, limit: nat, chunks: seq<Chunk>, id: PageId)
    requires Filed(pages, limit, chunks, id, id)
    ensures Filed(pages, limit, chunks, id, id + 1)
  {
  }

  lemma EntryFields(c: Chunk)
    requires c.txs != []
    ensures EntryOf(c) == PageDirectoryEntry(c.txs[0].tid, c.txs[|c.txs| - 1].tid, c.id, 0) && First(c) == c.txs[0].tid
  {
  }

  lemma FlattenSnoc(chunks: seq<Chunk>, c: Chunk)
    ensures Flatten(chunks + [c]) == Flatten(chunks) + c.txs
  {
    assert (chunks + [c])[..|chunks|] == chunks;
  }

  lemma NoTxs()
    ensures AllFit([]) && TxsBytes([]) == [] && Rising([])
  {
  }

  lemma {:induction false} TxsLonger(ts: seq<FilteredTransaction>)
    requires AllFit(ts)
    ensures |TxsBytes(ts)| >= 16 * |ts|
  {
    if ts != [] { TxsLonger(ts[1..]); }
  }

  lemma CountFits(ts: seq<FilteredTransaction>, n: nat)
    requires AllFit(ts) && |TxsBytes(ts)| <= n < TWO_32
    ensures |ts| < TWO_32
  {
    TxsLonger(ts);
  }

  lemma RisingSnoc(ts: seq<FilteredTransaction>, t: FilteredTransaction)
    requires Rising(ts) && (ts != [] ==> ts[|ts| - 1].tid < t.tid)
    ensures Rising(ts + [t])
  {
  }

  lemma EmptyBuffer(ts: seq<FilteredTransaction>, buf: seq<Byte>)
    requires AllFit(ts) && |buf| >= 4 && buf[4..] == TxsBytes(ts)
    ensures ts == [] ==> |buf| == 4
  {
  }
}
