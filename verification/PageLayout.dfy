/** The 24-byte header in front of every stored page (src/storage/page_layout.rs). */
module PageLayout {
  import opened Bytes

  const PAGE_MAGIC: nat := 0xA188_114D
  const PAGE_HEADER_SIZE: nat := 24

  datatype Error =
    | NotFound | UnexpectedEof | InvalidFlags | BadMagic | PageIdMismatch | CrcMismatch | BadCompression
    | PoolFull | ArenaFull | Io

  datatype Result<T> = Ok(value: T) | Err(error: Error)

  /** COMPRESSED = 1, UL_BODY = 2, TX_CHUNK = 4. */
  type PageFlags = f: Byte | f < 8

  const NO_FLAGS: PageFlags := 0
  const TX_CHUNK: PageFlags := 4

  predicate IsCompressed(f: PageFlags) {
    f % 2 == 1
  }

  function WithCompressed(f: PageFlags): PageFlags {
    if f % 2 == 1 then f else f + 1
  }

  type PageId = nat

  datatype PageHeader = PageHeader(magic: nat, pageId: PageId, payloadLen: nat, payloadCrc32: nat, flags: PageFlags)
  {
    predicate Valid() {
      magic < TWO_32 && pageId < TWO_64 && payloadLen < TWO_32 && payloadCrc32 < TWO_32
    }
  }

  /** The header layout, field by field. */
  function HeaderBytes(h: PageHeader): (b: seq<Byte>)
    ensures |b| == PAGE_HEADER_SIZE
  {
    ToLe(h.magic, 4) + ToLe(h.pageId, 8) + ToLe(h.payloadLen, 4) + ToLe(h.payloadCrc32, 4) + [h.flags, 0, 0, 0]
  }

  method CopyInto(buf: array<Byte>, at: nat, bytes: seq<Byte>)
    requires at + |bytes| <= buf.Length
    modifies buf
    ensures buf[..] == old(buf[..at]) + bytes + old(buf[at + |bytes|..])
  {
    for i := 0 to |bytes|
      invariant buf[..] == old(buf[..at]) + bytes[..i] + old(buf[at + i..])
    {
      buf[at + i] := bytes[i];
      assert bytes[..i + 1] == bytes[..i] + [bytes[i]];
    }
    assert bytes[..|bytes|] == bytes;
  }

  /** Fills a zeroed 24-byte buffer in place. */
  method ToBytes(h: PageHeader) returns (buf: array<Byte>)
    ensures fresh(buf) && buf[..] == HeaderBytes(h)
  {
    buf := new Byte[PAGE_HEADER_SIZE](_ => 0);
    var magic, id, len, crc := ToLe(h.magic, 4), ToLe(h.pageId, 8), ToLe(h.payloadLen, 4), ToLe(h.payloadCrc32, 4);
    CopyInto(buf, 0, magic);
    assert buf[..] == magic + Zeros(20);
    CopyInto(buf, 4, id);
    assert buf[..] == magic + id + Zeros(12);
    CopyInto(buf, 12, len);
    assert buf[..] == magic + id + len + Zeros(8);
    CopyInto(buf, 16, crc);
    assert buf[..] == magic + id + len + crc + Zeros(4);
    buf[20] := h.flags;
    assert buf[..] == magic + id + len + crc + [h.flags, 0, 0, 0];
  }

  ghost function Zeros(n: nat): seq<Byte> {
    seq(n, _ => 0)
  }

  /** Decodes a header; an unknown flag bit is an error. */
  function FromBytes(b: seq<Byte>): Result<PageHeader>
    requires |b| == PAGE_HEADER_SIZE
  {
    if b[20] >= 8 then Err(InvalidFlags)
    else
      Ok(PageHeader(FromLe(b[0..4]), FromLe(b[4..12]), FromLe(b[12..16]), FromLe(b[16..20]), b[20]))
  }

  lemma HeaderRoundTrip(h: PageHeader)
    requires h.Valid()
    ensures FromBytes(HeaderBytes(h)) == Ok(h)
  {
    var b := HeaderBytes(h);
    assert b[0..4] == ToLe(h.magic, 4);
    assert b[4..12] == ToLe(h.pageId, 8);
    assert b[12..16] == ToLe(h.payloadLen, 4);
    assert b[16..20] == ToLe(h.payloadCrc32, 4);
    Widths();
    LeRoundTrip(h.magic, 4);
    LeRoundTrip(h.pageId, 8);
    LeRoundTrip(h.payloadLen, 4);
    LeRoundTrip(h.payloadCrc32, 4);
  }

  /** Decoding loses only the three reserved bytes, so two headers that decode alike agree on every
      other byte; and decoding fails exactly on an unknown flag bit. */
  lemma HeaderInverse(b: seq<Byte>)
    requires |b| == PAGE_HEADER_SIZE
    ensures FromBytes(b).Ok? <==> b[20] < 8
    ensures FromBytes(b).Ok? ==> FromBytes(b).value.Valid() && HeaderBytes(FromBytes(b).value) == b[..21] + [0, 0, 0]
  {
    Widths();
    LeInverse(b[0..4]);
    LeInverse(b[4..12]);
    LeInverse(b[12..16]);
    LeInverse(b[16..20]);
    assert b[..21] == b[0..4] + b[4..12] + b[12..16] + b[16..20] + [b[20]];
  }
}
