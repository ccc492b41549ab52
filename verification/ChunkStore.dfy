/** The page store: one file per page, a header, a checksum and optional compression
    (src/storage/chunk_store.rs). The directory tree is a map from page id to file bytes. */
module Storage {
  import opened Bytes
  import opened PageLayout

  /** The checksum and compression routines the store calls. */
  datatype Codec = Codec(crc: seq<Byte> -> nat, compress: seq<Byte> -> seq<Byte>, decompress: seq<Byte> -> Result<seq<Byte>>)
  {
    ghost predicate Valid() {
      && (forall b :: crc(b) < TWO_32)
      && (forall b :: decompress(compress(b)) == Ok(b))
    }
  }

  /** Compression is kept only if it saves at least 15 percent. */
  function Payload(codec: Codec, compressing: bool, payload: seq<Byte>, flags: PageFlags): (seq<Byte>, PageFlags) {
    if compressing && |codec.compress(payload)| < |payload| * 85 / 100
    then (codec.compress(payload), WithCompressed(flags))
    else (payload, flags)
  }

  /** The bytes of a page file; the payload length is cut to 32 bits. */
  function EncodeFile(codec: Codec, compressing: bool, id: PageId, payload: seq<Byte>, flags: PageFlags): seq<Byte> {
    var (body, bodyFlags) := Payload(codec, compressing, payload, flags);
    HeaderBytes(PageHeader(PAGE_MAGIC, id, |body| % TWO_32, codec.crc(body), bodyFlags)) + body
  }

  /** Reading a page file back: header, magic, page id, length, checksum, decompression, in that order. */
  function DecodeFile(codec: Codec, file: seq<Byte>, id: PageId): (r: Result<(seq<Byte>, PageFlags)>)
    ensures r.Err? ==> r.error in {UnexpectedEof, InvalidFlags, BadMagic, PageIdMismatch, CrcMismatch, BadCompression}
  {
    if |file| < PAGE_HEADER_SIZE then Err(UnexpectedEof)
    else match FromBytes(file[..PAGE_HEADER_SIZE])
      case Err(e) => Err(e)
      case Ok(h) =>
        if h.magic != PAGE_MAGIC then Err(BadMagic)
        else if h.pageId != id then Err(PageIdMismatch)
        else if |file| < PAGE_HEADER_SIZE + h.payloadLen then Err(UnexpectedEof)
        else
          var body := file[PAGE_HEADER_SIZE..PAGE_HEADER_SIZE + h.payloadLen];
          if codec.crc(body) != h.payloadCrc32 then Err(CrcMismatch)
          else if IsCompressed(h.flags) then
            match codec.decompress(body)
            case Ok(b) => Ok((b, h.flags))
            case Err(_) => Err(BadCompression)
          else Ok((body, h.flags))
  }

  /** What reading a freshly written page yields: the checks pass, and what is left is the
      checksum and decompression of the (length-truncated) body. */
  lemma DecodeEncoded(codec: Codec, compressing: bool, id: PageId, payload: seq<Byte>, flags: PageFlags)
    requires codec.Valid() && id < TWO_64
    ensures var (body, bodyFlags) := Payload(codec, compressing, payload, flags);
            var cut := body[..|body| % TWO_32];
            DecodeFile(codec, EncodeFile(codec, compressing, id, payload, flags), id) ==
            if codec.crc(cut) != codec.crc(body) then Err(CrcMismatch)
            else if IsCompressed(bodyFlags) then
              match codec.decompress(cut)
              case Ok(b) => Ok((b, bodyFlags))
              case Err(_) => Err(BadCompression)
            else Ok((cut, bodyFlags))
  {
    hide FromBytes;
    var (body, bodyFlags) := Payload(codec, compressing, payload, flags);
    var h := PageHeader(PAGE_MAGIC, id, |body| % TWO_32, codec.crc(body), bodyFlags);
    var file := HeaderBytes(h) + body;
    HeaderRoundTrip(h);
    assert file[..PAGE_HEADER_SIZE] == HeaderBytes(h);
    assert file[PAGE_HEADER_SIZE..PAGE_HEADER_SIZE + h.payloadLen] == body[..|body| % TWO_32];
  }

  /** A page below 4 GiB reads back as written, compressed or not. */
  lemma StoreRoundTrip(codec: Codec, compressing: bool, id: PageId, payload: seq<Byte>, flags: PageFlags)
    requires codec.Valid() && id < TWO_64 && |payload| < TWO_32 && !IsCompressed(flags)
    ensures DecodeFile(codec, EncodeFile(codec, compressing, id, payload, flags), id) ==
            Ok((payload, Payload(codec, compressing, payload, flags).1))
  {
    hide DecodeFile, EncodeFile;
    DecodeEncoded(codec, compressing, id, payload, flags);
    var body := Payload(codec, compressing, payload, flags).0;
    assert |body| <= |payload|;
    assert |body| % TWO_32 == |body|;
    assert body[..|body|] == body;
  }

  /** Without compression, 4 GiB is exactly where the round trip stops: the length field of a larger page wraps. */
  lemma StoreRoundTripLimit(codec: Codec, id: PageId, payload: seq<Byte>, flags: PageFlags)
    requires codec.Valid() && id < TWO_64 && !IsCompressed(flags)
    ensures DecodeFile(codec, EncodeFile(codec, false, id, payload, flags), id) == Ok((payload, flags)) <==> |payload| < TWO_32
  {
    DecodeEncoded(codec, false, id, payload, flags);
    assert payload[..|payload| % TWO_32] == payload <==> |payload| < TWO_32 by {
      if |payload| < TWO_32 {
        assert payload[..|payload| % TWO_32] == payload;
      } else {
        assert |payload[..|payload| % TWO_32]| < |payload|;
      }
    }
  }

  /** A write cut short is never mistaken for a page. */
  lemma TornWrite(codec: Codec, compressing: bool, id: PageId, payload: seq<Byte>, flags: PageFlags, n: nat)
    requires codec.Valid() && id < TWO_64 && |payload| < TWO_32 && !IsCompressed(flags)
    requires n < |EncodeFile(codec, compressing, id, payload, flags)|
    ensures DecodeFile(codec, EncodeFile(codec, compressing, id, payload, flags)[..n], id) == Err(UnexpectedEof)
  {
    var (body, bodyFlags) := Payload(codec, compressing, payload, flags);
    var h := PageHeader(PAGE_MAGIC, id, |body| % TWO_32, codec.crc(body), bodyFlags);
    assert |payload| * 85 / 100 <= |payload|;
    var file := HeaderBytes(h) + body;
    if n >= PAGE_HEADER_SIZE {
      HeaderRoundTrip(h);
      assert file[..n][..PAGE_HEADER_SIZE] == HeaderBytes(h);
    }
  }

  /** A page is stored compressed exactly if that takes at most 85 percent, rounded down, and one byte less. */
  lemma CompressedIff(codec: Codec, compressing: bool, id: PageId, payload: seq<Byte>, flags: PageFlags)
    requires !IsCompressed(flags)
    ensures var (body, bodyFlags) := Payload(codec, compressing, payload, flags);
            && (IsCompressed(bodyFlags) <==> compressing && 100 * (|codec.compress(payload)| + 1) <= 85 * |payload|)
            && body == (if IsCompressed(bodyFlags) then codec.compress(payload) else payload)
            && bodyFlags == (if IsCompressed(bodyFlags) then flags + 1 else flags)
            && |EncodeFile(codec, compressing, id, payload, flags)| == 24 + |body|
  {
  }

  /** What is read as page id: 24 header bytes with the magic number, that id and known flags, in front of
      as many bytes as the header says, with the checksum it says. */
  ghost predicate IsPage(codec: Codec, file: seq<Byte>, id: PageId) {
    && |file| >= 24
    && file[..4] == [0x4D, 0x11, 0x88, 0xA1] && FromLe(file[4..12]) == id && file[20] < 8
    && var len := FromLe(file[12..16]); |file| >= 24 + len && codec.crc(file[24..24 + len]) == FromLe(file[16..20])
  }

  /** Nothing else is ever read as that page, and all of it is, unless it claims to be compressed and is not. */
  lemma OnlyPagesRead(codec: Codec, file: seq<Byte>, id: PageId)
    ensures DecodeFile(codec, file, id).Ok? <==>
            IsPage(codec, file, id) && (file[20] % 2 == 1 ==> codec.decompress(file[24..24 + FromLe(file[12..16])]).Ok?)
  {
    MagicBytes();
    if |file| >= 24 {
      var h := file[..24];
      assert h[0..4] == file[..4] && h[4..12] == file[4..12] && h[12..16] == file[12..16] && h[16..20] == file[16..20];
      LeInverse(file[..4]);
    }
  }

  lemma MagicBytes()
    ensures ToLe(PAGE_MAGIC, 4) == [0x4D, 0x11, 0x88, 0xA1] && FromLe([0x4D, 0x11, 0x88, 0xA1]) == PAGE_MAGIC
  {
    assert ToLe(PAGE_MAGIC, 4) == [0x4D] + ToLe(0xA18811, 3);
    assert ToLe(0xA18811, 3) == [0x11] + ToLe(0xA188, 2);
    assert ToLe(0xA188, 2) == [0x88] + ToLe(0xA1, 1);
    assert ToLe(0xA1, 1) == [0xA1];
    Widths();
    LeRoundTrip(PAGE_MAGIC, 4);
  }

  /** A stored page is not read under another id. */
  lemma ForeignPage(codec: Codec, compressing: bool, id: PageId, payload: seq<Byte>, flags: PageFlags, other: PageId)
    requires codec.Valid() && id < TWO_64 && other != id
    ensures DecodeFile(codec, EncodeFile(codec, compressing, id, payload, flags), other) == Err(PageIdMismatch)
  {
    hide FromBytes, HeaderBytes;
    var (body, bodyFlags) := Payload(codec, compressing, payload, flags);
    var h := PageHeader(PAGE_MAGIC, id, |body| % TWO_32, codec.crc(body), bodyFlags);
    HeaderRoundTrip(h);
    assert (HeaderBytes(h) + body)[..PAGE_HEADER_SIZE] == HeaderBytes(h);
  }

  /** Bytes changed on disk are noticed exactly if they change the checksum. */
  lemma CorruptionDetected(codec: Codec, id: PageId, payload: seq<Byte>, flags: PageFlags, changed: seq<Byte>)
    requires codec.Valid() && id < TWO_64 && |payload| < TWO_32 && !IsCompressed(flags) && |changed| == |payload|
    ensures var file := EncodeFile(codec, false, id, payload, flags)[..24] + changed;
            DecodeFile(codec, file, id) ==
            if codec.crc(changed) == codec.crc(payload) then Ok((changed, flags)) else Err(CrcMismatch)
  {
    hide FromBytes, HeaderBytes;
    var h := PageHeader(PAGE_MAGIC, id, |payload| % TWO_32, codec.crc(payload), flags);
    HeaderRoundTrip(h);
    assert (HeaderBytes(h) + payload)[..24] == HeaderBytes(h);
    var file := HeaderBytes(h) + changed;
    assert file[..PAGE_HEADER_SIZE] == HeaderBytes(h);
    assert file[PAGE_HEADER_SIZE..PAGE_HEADER_SIZE + |payload|] == changed;
  }

  type Flat = map<PageId, seq<Byte>>

  /** The pages that read back. */
  ghost function PagesOf(codec: Codec, files: Flat): Flat {
    map p | p in files && DecodeFile(codec, files[p], p).Ok? :: DecodeFile(codec, files[p], p).value.0
  }

  lemma PagesUpdate(codec: Codec, files: Flat, id: PageId, file: seq<Byte>)
    ensures DecodeFile(codec, file, id).Ok? ==>
              PagesOf(codec, files[id := file]) == PagesOf(codec, files)[id := DecodeFile(codec, file, id).value.0]
    ensures DecodeFile(codec, file, id).Err? ==> PagesOf(codec, files[id := file]) == PagesOf(codec, files) - {id}
  {
    hide DecodeFile;
    var before, after, d := PagesOf(codec, files), PagesOf(codec, files[id := file]), DecodeFile(codec, file, id);
    forall p | p != id ensures p in after <==> p in before {}
    forall p | p in after && p != id ensures after[p] == before[p] {}
    if d.Ok? {
      assert after == before[id := d.value.0];
    } else {
      assert after == before - {id};
    }
  }

  /** What the disk does with one operation. A write it cuts short has put that many bytes of the new
      file on disk; one cut at or past the end of the file is one that could not be flushed. */
  datatype Outcome = Done | Refused | CutShort(written: nat)

  type Disk = nat -> Outcome

  /** How many of the first n disk operations fail. */
  ghost function Failures(disk: Disk, n: nat): nat {
    if n == 0 then 0 else Failures(disk, n - 1) + if disk(n - 1).Done? then 0 else 1
  }

  lemma {:induction false} NoFailures(disk: Disk, n: nat)
    ensures Failures(disk, n) == 0 <==> forall k | 0 <= k < n :: disk(k).Done?
  {
    if n > 0 {
      NoFailures(disk, n - 1);
      assert disk(n - 1).Done? || exists k | 0 <= k < n :: !disk(k).Done?;
    }
  }

  /** The files after a write of `file`. */
  function FilesAfter(files: Flat, id: PageId, file: seq<Byte>, o: Outcome): Flat {
    match o
    case Done => files[id := file]
    case Refused => files
    case CutShort(n) => files[id := if n < |file| then file[..n] else file]
  }

  /** After a failed write the page reads back as before, as the new payload, or not at all. */
  lemma WriteReadsBack(codec: Codec, compressing: bool, files: Flat, id: PageId, payload: seq<Byte>, flags: PageFlags, o: Outcome)
    requires codec.Valid() && id < TWO_64 && |payload| < TWO_32 && !IsCompressed(flags)
    ensures var before, after := PagesOf(codec, files),
                                 PagesOf(codec, FilesAfter(files, id, EncodeFile(codec, compressing, id, payload, flags), o));
            && after in {before, before[id := payload], before - {id}}
            && (o.Done? ==> after == before[id := payload])
  {
    hide EncodeFile, DecodeFile, PagesOf;
    var file := EncodeFile(codec, compressing, id, payload, flags);
    StoreRoundTrip(codec, compressing, id, payload, flags);
    PagesUpdate(codec, files, id, file);
    if o.CutShort? && o.written < |file| {
      TornWrite(codec, compressing, id, payload, flags, o.written);
      PagesUpdate(codec, files, id, file[..o.written]);
    }
  }

  class ChunkStore {
    var files: map<PageId, seq<Byte>>
    var counter: nat
    const compressing: bool
    const codec: Codec
    // What will happen to every disk operation, and how many there have been.
    const disk: Disk
    var ops: nat
    // Operations that failed so far, ids refused for want of 64-bit numbers included.
    ghost var faults: nat

    ghost predicate Valid()
      reads this
    {
      && codec.Valid()
      && counter <= TWO_64
      && (forall p | p in files :: p < counter)
      && faults >= Failures(disk, ops) && (counter < TWO_64 ==> faults == Failures(disk, ops))
    }

    constructor (compressing: bool, codec: Codec, disk: Disk)
      requires codec.Valid()
      ensures Valid() && files == map[] && counter == 1 && ops == 0 && faults == 0
      ensures this.compressing == compressing && this.codec == codec && this.disk == disk
    {
      this.compressing := compressing;
      this.codec := codec;
      this.disk := disk;
      files := map[];
      counter := 1;
      ops := 0;
      faults := 0;
    }

    /** On a disk that has not failed, and while 64-bit ids last, no fault is recorded. */
    lemma NoFaults()
      requires Valid() && counter < TWO_64
      ensures faults == 0 <==> forall k | 0 <= k < ops :: disk(k).Done?
    {
      NoFailures(disk, ops);
    }

    /** What read_page finds for this id. */
    function Stored(id: PageId): Result<(seq<Byte>, PageFlags)>
      reads this`files
    {
      if id in files then DecodeFile(codec, files[id], id) else Err(NotFound)
    }

    /** The pages that read back. */
    ghost function Pages(): Flat
      reads this`files
    {
      PagesOf(codec, files)
    }

    /** Ids are handed out once; running out of 64-bit ids is reported as an error. */
    method NextPageId() returns (r: Result<PageId>)
      requires Valid()
      modifies this`counter, this`faults
      ensures Valid()
      ensures r == if old(counter) < 0x1_0000_0000_0000_0000 then Ok(old(counter)) else Err(Io)
      ensures counter == old(counter) + if r.Ok? then 1 else 0
      ensures faults == old(faults) + if r.Ok? then 0 else 1
    {
      if counter == TWO_64 {
        faults := faults + 1;
        return Err(Io);
      }
      r := Ok(counter);
      counter := counter + 1;
    }

    /** Replaces the file, as far as the disk lets it. */
    method WritePage(id: PageId, payload: seq<Byte>, flags: PageFlags) returns (r: Result<()>)
      requires Valid() && id < counter && |payload| < TWO_32 && !IsCompressed(flags)
      modifies this`files, this`ops, this`faults
      ensures Valid() && ops == old(ops) + 1
      ensures r == if disk(old(ops)).Done? then Ok(()) else Err(Io)
      ensures files == FilesAfter(old(files), id, EncodeFile(codec, compressing, id, payload, flags), disk(old(ops)))
      ensures r.Ok? ==> Pages() == old(Pages())[id := payload]
      ensures Pages() in {old(Pages()), old(Pages())[id := payload], old(Pages()) - {id}}
      ensures faults == old(faults) + if r.Ok? then 0 else 1
    {
      var file := EncodeFile(codec, compressing, id, payload, flags);
      var outcome := disk(ops);
      WriteReadsBack(codec, compressing, files, id, payload, flags, outcome);
      ops := ops + 1;
      match outcome {
        case Done =>
          files := files[id := file];
          r := Ok(());
        case Refused =>
          faults := faults + 1;
          r := Err(Io);
        case CutShort(n) =>
          files := files[id := if n < |file| then file[..n] else file];
          faults := faults + 1;
          r := Err(Io);
      }
    }

    /** Reads a page. */
    method ReadPage(id: PageId) returns (r: Result<(seq<Byte>, PageFlags)>)
      requires Valid()
      modifies this`ops, this`faults
      ensures Valid() && ops == old(ops) + 1
      ensures r == if disk(old(ops)).Done? then Stored(id) else Err(Io)
      ensures r.Ok? ==> id in Pages() && r.value.0 == Pages()[id]
      ensures r.Err? ==> r.error == Io || (id !in Pages() && r.error != PoolFull)
      ensures faults == old(faults) + if r == Err(Io) then 1 else 0
    {
      var outcome := disk(ops);
      ops := ops + 1;
      if !outcome.Done? {
        faults := faults + 1;
        return Err(Io);
      }
      r := Stored(id);
    }
  }
}
