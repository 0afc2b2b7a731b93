/**
  The parts of the Linux FUSE kernel ABI (protocol major version 7) that the
  modelled messages use: constants, the request header `fuse_in_header`,
  the reply header `fuse_out_header`, splitting a request frame into header
  and body, and framing a reply.
 */
module FuseKernel {
  import opened Ints
  import opened Wrappers
  import opened LittleEndian
  import opened Errors

  const FUSE_KERNEL_VERSION: u32 := 7
  /** The newest minor version the library speaks. */
  const FUSE_KERNEL_MINOR_VERSION: u32 := 31

  const FUSE_INIT: u32 := 26
  const FUSE_FSYNCDIR: u32 := 30

  /** sizeof(fuse_in_header) */
  const IN_HEADER_SIZE: nat := 40
  /** sizeof(fuse_out_header) */
  const OUT_HEADER_SIZE: nat := 16

  /** fuse_in_header: len, opcode, unique, nodeid, uid, gid, pid, padding. */
  datatype InHeader = InHeader(
    len: u32, opcode: u32, unique: u64, nodeid: u64,
    uid: u32, gid: u32, pid: u32, padding: u32)

  /** fuse_out_header: len, error (0 or a negated errno), unique. */
  datatype OutHeader = OutHeader(len: u32, error: i32, unique: u64)

  function EncodeInHeader(h: InHeader): (s: seq<u8>)
    ensures |s| == IN_HEADER_SIZE
  {
    LeU32(h.len) + LeU32(h.opcode) + LeU64(h.unique) + LeU64(h.nodeid)
      + LeU32(h.uid) + LeU32(h.gid) + LeU32(h.pid) + LeU32(h.padding)
  }

  function DecodeInHeader(s: seq<u8>): (h: InHeader)
    requires |s| >= IN_HEADER_SIZE
  {
    InHeader(ReadU32(s, 0), ReadU32(s, 4), ReadU64(s, 8), ReadU64(s, 16),
             ReadU32(s, 24), ReadU32(s, 28), ReadU32(s, 32), ReadU32(s, 36))
  }

  function EncodeOutHeader(h: OutHeader): (s: seq<u8>)
    ensures |s| == OUT_HEADER_SIZE
  {
    LeU32(h.len) + LeI32(h.error) + LeU64(h.unique)
  }

  function DecodeOutHeader(s: seq<u8>): (h: OutHeader)
    requires |s| >= OUT_HEADER_SIZE
  {
    OutHeader(ReadU32(s, 0), ReadI32(s, 4), ReadU64(s, 8))
  }

  lemma InHeaderRoundTrip(h: InHeader, rest: seq<u8>)
    ensures DecodeInHeader(EncodeInHeader(h) + rest) == h
  {
    var s := EncodeInHeader(h) + rest;
    ReadLeU32(s, 0, h.len);
    ReadLeU32(s, 4, h.opcode);
    ReadLeU64(s, 8, h.unique);
    ReadLeU64(s, 16, h.nodeid);
    ReadLeU32(s, 24, h.uid);
    ReadLeU32(s, 28, h.gid);
    ReadLeU32(s, 32, h.pid);
    ReadLeU32(s, 36, h.padding);
  }

  lemma OutHeaderRoundTrip(h: OutHeader, rest: seq<u8>)
    ensures DecodeOutHeader(EncodeOutHeader(h) + rest) == h
  {
    var s := EncodeOutHeader(h) + rest;
    ReadLeU32(s, 0, h.len);
    ReadLeI32(s, 4, h.error);
    ReadLeU64(s, 8, h.unique);
  }

  /** Decoding does not drift: re-encoding a decoded header reproduces its 16 bytes. */
  lemma OutHeaderBytesRoundTrip(s: seq<u8>)
    requires |s| >= OUT_HEADER_SIZE
    ensures EncodeOutHeader(DecodeOutHeader(s)) == s[..OUT_HEADER_SIZE]
  {
    LeReadU32(s, 0);
    LeReadI32(s, 4);
    LeReadU64(s, 8);
    assert s[..16] == s[0..4] + s[4..8] + s[8..16];
  }

  /**
    Splits a request frame into its header and the body the header's `len`
    delimits; a frame shorter than a header, or a declared length outside
    [header size, frame size], is a truncated message.
   */
  function SplitFrame(frame: seq<u8>): (r: Result<(InHeader, seq<u8>), Error>)
    ensures r.Err? <==> |frame| < IN_HEADER_SIZE
                        || !(IN_HEADER_SIZE <= DecodeInHeader(frame).len as int <= |frame|)
    ensures r.Err? ==> r.error.kind == UnexpectedEof
    ensures r.Ok? ==> r.value.0 == DecodeInHeader(frame)
                      && IN_HEADER_SIZE + |r.value.1| == r.value.0.len as int
                      && r.value.1 == frame[IN_HEADER_SIZE..r.value.0.len]
  {
    if |frame| < IN_HEADER_SIZE then Err(Error(UnexpectedEof))
    else
      var h := DecodeInHeader(frame);
      if h.len as int < IN_HEADER_SIZE || h.len as int > |frame| then Err(Error(UnexpectedEof))
      else Ok((h, frame[IN_HEADER_SIZE..h.len]))
  }

  /** The kernel side of a request: header `h` with its `len` set to the frame's length, then the body. */
  function BuildFrame(h: InHeader, body: seq<u8>): (frame: seq<u8>)
    requires IN_HEADER_SIZE + |body| < 0x1_0000_0000
    ensures |frame| == IN_HEADER_SIZE + |body|
  {
    EncodeInHeader(h.(len := (IN_HEADER_SIZE + |body|) as u32)) + body
  }

  /** Splitting a built frame, whatever padding follows it, gives back the header and exactly the body. */
  lemma SplitBuiltFrame(h: InHeader, body: seq<u8>, pad: seq<u8>)
    requires IN_HEADER_SIZE + |body| < 0x1_0000_0000
    ensures SplitFrame(BuildFrame(h, body) + pad) == Ok((h.(len := (IN_HEADER_SIZE + |body|) as u32), body))
  {
    var h' := h.(len := (IN_HEADER_SIZE + |body|) as u32);
    InHeaderRoundTrip(h', body + pad);
    assert BuildFrame(h, body) + pad == EncodeInHeader(h') + (body + pad);
    assert (EncodeInHeader(h') + (body + pad))[IN_HEADER_SIZE..h'.len] == body;
  }

  /** A success reply: header with `error = 0` and `len` the reply's actual length, then the payload. */
  function EncodeReply(unique: u64, payload: seq<u8>): (s: seq<u8>)
    requires OUT_HEADER_SIZE + |payload| < 0x1_0000_0000
    ensures |s| == OUT_HEADER_SIZE + |payload|
  {
    EncodeOutHeader(OutHeader((OUT_HEADER_SIZE + |payload|) as u32, 0, unique)) + payload
  }

  lemma ReplyFraming(unique: u64, payload: seq<u8>)
    requires OUT_HEADER_SIZE + |payload| < 0x1_0000_0000
    ensures var s := EncodeReply(unique, payload);
            && DecodeOutHeader(s) == OutHeader(|s| as u32, 0, unique)
            && s[OUT_HEADER_SIZE..] == payload
  {
    OutHeaderRoundTrip(OutHeader((OUT_HEADER_SIZE + |payload|) as u32, 0, unique), payload);
  }
}
