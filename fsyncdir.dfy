/**
  The FSYNCDIR operation: decoding the kernel's `fuse_fsync_in` into an
  `FsyncdirRequest` (node, open directory handle, `datasync`) and encoding
  the empty `FsyncdirResponse`, a reply header with nothing after it.
 */
module Fsyncdir {
  import opened Ints
  import opened Wrappers
  import opened LittleEndian
  import opened Errors
  import opened FuseKernel

  /** sizeof(fuse_fsync_in): `fh: u64`, `fsync_flags: u32`, `padding: u32`. */
  const FSYNC_IN_SIZE: nat := 16

  /** Bit of `fsync_flags` asking for a data-only sync (`fdatasync`). */
  const FSYNC_FDATASYNC: bv32 := 0x1

  datatype FsyncdirRequestFlags = FsyncdirRequestFlags(datasync: bool)

  /** `FsyncdirRequestFlags::from_bits`: bits other than the datasync bit are ignored. */
  function FlagsFromBits(bits: bv32): (f: FsyncdirRequestFlags)
    ensures f.datasync <==> bits & FSYNC_FDATASYNC != 0
  {
    FsyncdirRequestFlags(bits & FSYNC_FDATASYNC == FSYNC_FDATASYNC)
  }

  /** The bits a flag record stands for. */
  function FlagsToBits(f: FsyncdirRequestFlags): (bits: bv32)
    ensures bits & !FSYNC_FDATASYNC == 0
  {
    if f.datasync then FSYNC_FDATASYNC else 0
  }

  /** Decoding the bits of a record gives the record back; encoding decoded bits keeps exactly the datasync bit. */
  lemma FlagsRoundTrip(f: FsyncdirRequestFlags, bits: bv32)
    ensures FlagsFromBits(FlagsToBits(f)) == f
    ensures FlagsToBits(FlagsFromBits(bits)) == bits & FSYNC_FDATASYNC
  {
  }

  /** `from_bits(0x1)` asks for datasync; plain fsync (no bits) does not. */
  lemma FlagsWitnesses()
    ensures FlagsFromBits(0x1).datasync
    ensures !FlagsFromBits(0).datasync
  {
  }

  datatype FsyncdirRequest = FsyncdirRequest(nodeId: u64, handle: u64, flags: FsyncdirRequestFlags)

  /** Decodes the body of an FSYNCDIR request; a body shorter than `fuse_fsync_in` is a truncated message. */
  function DecodeFsyncdirBody(h: InHeader, body: seq<u8>): (r: Result<FsyncdirRequest, Error>)
    ensures r.Err? <==> |body| < FSYNC_IN_SIZE
    ensures r.Err? ==> r.error.kind == UnexpectedEof
    ensures r.Ok? ==> r.value.nodeId == h.nodeid
                      && r.value.handle == ReadU64(body, 0)
                      && (r.value.flags.datasync <==> ReadU32(body, 8) as bv32 & FSYNC_FDATASYNC != 0)
  {
    if |body| < FSYNC_IN_SIZE then Err(Error(UnexpectedEof))
    else Ok(FsyncdirRequest(h.nodeid, ReadU64(body, 0), FlagsFromBits(ReadU32(body, 8) as bv32)))
  }

  /** Decodes an FSYNCDIR request frame. */
  function DecodeFsyncdirRequest(frame: seq<u8>): (r: Result<FsyncdirRequest, Error>)
    ensures SplitFrame(frame).Err? ==> r == Err(SplitFrame(frame).error)
    ensures SplitFrame(frame).Ok? ==> r == DecodeFsyncdirBody(SplitFrame(frame).value.0, SplitFrame(frame).value.1)
  {
    match SplitFrame(frame)
    case Err(e) => Err(e)
    case Ok((h, body)) => DecodeFsyncdirBody(h, body)
  }

  /** The kernel's `fuse_fsync_in`. */
  function EncodeFsyncIn(fh: u64, fsyncFlags: bv32, padding: u32): (s: seq<u8>)
    ensures |s| == FSYNC_IN_SIZE
  {
    LeU64(fh) + LeU32(fsyncFlags as int as u32) + LeU32(padding)
  }

  /** `fh` and `fsync_flags` read back from their offsets, whatever follows the struct. */
  lemma FsyncInReadBack(fh: u64, fsyncFlags: bv32, padding: u32, tail: seq<u8>)
    ensures var body := EncodeFsyncIn(fh, fsyncFlags, padding) + tail;
            ReadU64(body, 0) == fh && ReadU32(body, 8) as bv32 == fsyncFlags
  {
    var body := EncodeFsyncIn(fh, fsyncFlags, padding) + tail;
    var f := fsyncFlags as int as u32;
    LongTwoWords(LeU64(fh), LeU32(f), LeU32(padding), tail);
    ReadLeU64(body, 0, fh);
    ReadLeU32(body, 8, f);
  }

  /**
    Whatever the kernel puts in the header and after the struct, the decoded
    request carries the header's node, `fh` as its handle, and `datasync`
    exactly when bit 0x1 of `fsync_flags` is set.
   */
  lemma {:induction false} DecodeFsyncdirRoundTrip(h: InHeader, fh: u64, fsyncFlags: bv32, padding: u32, tail: seq<u8>)
    requires IN_HEADER_SIZE + FSYNC_IN_SIZE + |tail| < 0x1_0000_0000
    ensures DecodeFsyncdirRequest(BuildFrame(h, EncodeFsyncIn(fh, fsyncFlags, padding) + tail))
         == Ok(FsyncdirRequest(h.nodeid, fh, FlagsFromBits(fsyncFlags)))
  {
    var body := EncodeFsyncIn(fh, fsyncFlags, padding) + tail;
    var h' := h.(len := (IN_HEADER_SIZE + |body|) as u32);
    SplitBuiltFrame(h, body, []);
    assert BuildFrame(h, body) + [] == BuildFrame(h, body);
    assert SplitFrame(BuildFrame(h, body)) == Ok((h', body));
    FsyncInReadBack(fh, fsyncFlags, padding, tail);
    assert DecodeFsyncdirBody(h', body) == Ok(FsyncdirRequest(h.nodeid, fh, FlagsFromBits(fsyncFlags)));
  }

  /** A request whose body stops short of a whole `fuse_fsync_in` is refused as truncated. */
  lemma {:induction false} DecodeTruncatedFsyncdir(h: InHeader, body: seq<u8>)
    requires |body| < FSYNC_IN_SIZE
    ensures DecodeFsyncdirRequest(BuildFrame(h, body)) == Err(Error(UnexpectedEof))
  {
    SplitBuiltFrame(h, body, []);
    assert BuildFrame(h, body) + [] == BuildFrame(h, body);
  }

  /** The decoding test: node 123, handle 3, `fsync_flags` 0x1; and a plain fsync of handle 12345 on node 2. */
  lemma RequestTestVectors(h: InHeader)
    ensures var frame := BuildFrame(h.(opcode := FUSE_FSYNCDIR, nodeid := 123), EncodeFsyncIn(3, 0x1, 0));
            DecodeFsyncdirRequest(frame) == Ok(FsyncdirRequest(123, 3, FsyncdirRequestFlags(true)))
    ensures var frame := BuildFrame(h.(opcode := FUSE_FSYNCDIR, nodeid := 2), EncodeFsyncIn(12345, 0, 0));
            DecodeFsyncdirRequest(frame) == Ok(FsyncdirRequest(2, 12345, FsyncdirRequestFlags(false)))
  {
    var h1 := h.(opcode := FUSE_FSYNCDIR, nodeid := 123);
    DecodeFsyncdirRoundTrip(h1, 3, 0x1, 0, []);
    assert EncodeFsyncIn(3, 0x1, 0) + [] == EncodeFsyncIn(3, 0x1, 0);
    var h2 := h.(opcode := FUSE_FSYNCDIR, nodeid := 2);
    DecodeFsyncdirRoundTrip(h2, 12345, 0, 0, []);
    assert EncodeFsyncIn(12345, 0, 0) + [] == EncodeFsyncIn(12345, 0, 0);
  }

  /** `FsyncdirResponse::new()`: a success with no payload. */
  datatype FsyncdirResponse = FsyncdirResponse

  function EncodeFsyncdirResponse(response: FsyncdirResponse, unique: u64): (s: seq<u8>)
    ensures |s| == OUT_HEADER_SIZE
  {
    EncodeReply(unique, [])
  }

  /**
    The empty response is one `fuse_out_header` and nothing else: its `len`
    is the header's own size, `error` is 0 and `unique` is the request's.
   */
  lemma EmptyResponseIsHeaderOnly(unique: u64)
    ensures EncodeFsyncdirResponse(FsyncdirResponse, unique)
         == EncodeOutHeader(OutHeader(OUT_HEADER_SIZE as u32, 0, unique))
    ensures DecodeOutHeader(EncodeFsyncdirResponse(FsyncdirResponse, unique))
         == OutHeader(OUT_HEADER_SIZE as u32, 0, unique)
  {
    ReplyFraming(unique, []);
    assert EncodeOutHeader(OutHeader(OUT_HEADER_SIZE as u32, 0, unique)) + []
        == EncodeOutHeader(OutHeader(OUT_HEADER_SIZE as u32, 0, unique));
  }
}
