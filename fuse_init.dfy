/**
  The FUSE_INIT handshake: decoding the kernel's `fuse_init_in`, building
  and encoding the library's `fuse_init_out` reply in the layout its minor
  version calls for, and the capability flag set exchanged by both.
 */
module FuseInit {
  import opened Ints
  import opened Wrappers
  import opened LittleEndian
  import opened Errors
  import opened FuseKernel

  datatype ProtocolVersion = ProtocolVersion(major: u32, minor: u32)

  /** The newest version the library speaks. */
  const LATEST := ProtocolVersion(FUSE_KERNEL_VERSION, FUSE_KERNEL_MINOR_VERSION)

  // ---- Capability flags ----

  /** One capability: a mask with a single bit set. */
  type FuseInitFlag = m: bv32 | m != 0 && m & (m - 1) == 0 witness 1

  const ASYNC_READ: FuseInitFlag := 1 << 0
  const POSIX_LOCKS: FuseInitFlag := 1 << 1

  /** The bit set with `flag` switched on or off. */
  function SetFlag(bits: bv32, flag: bv32, on: bool): (r: bv32)
    ensures r & !flag == bits & !flag
    ensures r & flag == if on then flag else 0
  {
    if on then bits | flag else bits & !flag
  }

  predicate HasFlag(bits: bv32, flag: FuseInitFlag)
  {
    bits & flag == flag
  }

  /** Clearing a flag just set leaves the set as clearing alone would, and restores a set that lacked it. */
  lemma SetThenClear(bits: bv32, flag: FuseInitFlag)
    ensures SetFlag(SetFlag(bits, flag, true), flag, false) == SetFlag(bits, flag, false)
    ensures !HasFlag(bits, flag) ==> SetFlag(SetFlag(bits, flag, true), flag, false) == bits
  {
  }

  /** Setting one flag decides that flag and leaves every other flag as it was. */
  lemma SetLeavesOthers(bits: bv32, flag: FuseInitFlag, other: FuseInitFlag, on: bool)
    requires flag != other
    ensures HasFlag(SetFlag(bits, flag, on), flag) == on
    ensures HasFlag(SetFlag(bits, flag, on), other) == HasFlag(bits, other)
  {
    DistinctFlagsDisjoint(flag, other);
  }

  /** Two different single-bit masks share no bit. */
  lemma DistinctFlagsDisjoint(a: FuseInitFlag, b: FuseInitFlag)
    requires a != b
    ensures a & b == 0
  {
    var x: bv32, y: bv32 := a, b;
    assert x != 0 && x & (x - 1) == 0 && y != 0 && y & (y - 1) == 0 && x != y;
  }

  /** The sequence exercised on a fresh set: ASYNC_READ on, POSIX_LOCKS on, ASYNC_READ off. */
  lemma InitFlagsSequence()
    ensures SetFlag(SetFlag(SetFlag(0, ASYNC_READ, true), POSIX_LOCKS, true), ASYNC_READ, false)
         == POSIX_LOCKS
    ensures ASYNC_READ == 1 && POSIX_LOCKS == 2
  {
  }

  /** `FuseInitFlags`: a flag set updated in place. */
  class FuseInitFlags {
    var bits: bv32

    /** `FuseInitFlags::new()`: no flags. */
    constructor ()
      ensures bits == 0
    {
      bits := 0;
    }

    /** `FuseInitFlags(bits)` */
    constructor FromBits(b: bv32)
      ensures bits == b
    {
      bits := b;
    }

    method Set(flag: FuseInitFlag, on: bool)
      modifies this
      ensures bits == SetFlag(old(bits), flag, on)
    {
      if on {
        bits := bits | flag;
      } else {
        bits := bits & !(flag as bv32);
      }
    }
  }

  // ---- Layout selection by minor version ----

  /**
    The minor versions at which the request gains `max_readahead`/`flags`
    and the reply moves to the 24-byte and to the full 64-byte layout.
   */
  datatype Cutoffs = Cutoffs(requestFlagsFrom: u32, reply22From: u32, replyFullFrom: u32)

  /** Cutoffs consistent with the tested versions: request 7.1 short and 7.6 long; reply 7.1, 7.5 and 7.23 in the three layouts. */
  predicate PinnedByTests(cut: Cutoffs)
  {
    && 1 < cut.requestFlagsFrom <= 6
    && 1 < cut.reply22From <= 5
    && 5 < cut.replyFullFrom <= 23
  }

  /** The cutoffs of the Linux FUSE header. */
  const LINUX_CUTOFFS := Cutoffs(6, 5, 23)

  lemma LinuxCutoffsPinned()
    ensures PinnedByTests(LINUX_CUTOFFS)
  {
  }

  // ---- Request ----

  const INIT_IN_V7P1_SIZE: nat := 8
  const INIT_IN_SIZE: nat := 16

  datatype FuseInitRequest = FuseInitRequest(version: ProtocolVersion, maxReadahead: u32, flags: bv32)

  /**
    Decodes the body of an INIT request. A kernel of another major version,
    or one older than the flags cutoff, is read as major/minor only, with no
    readahead and no flags.
   */
  function DecodeInitBody(body: seq<u8>, cut: Cutoffs): (r: Result<FuseInitRequest, Error>)
    ensures r.Err? <==> || |body| < INIT_IN_V7P1_SIZE
                        || (&& ReadU32(body, 0) == FUSE_KERNEL_VERSION
                            && ReadU32(body, 4) >= cut.requestFlagsFrom
                            && |body| < INIT_IN_SIZE)
    ensures r.Err? ==> r.error.kind == UnexpectedEof
    ensures r.Ok? ==> |body| >= INIT_IN_V7P1_SIZE
                      && r.value.version == ProtocolVersion(ReadU32(body, 0), ReadU32(body, 4))
    ensures r.Ok? && (r.value.version.major != FUSE_KERNEL_VERSION
                      || r.value.version.minor < cut.requestFlagsFrom)
            ==> r.value.maxReadahead == 0 && r.value.flags == 0
    ensures r.Ok? && r.value.version.major == FUSE_KERNEL_VERSION
                  && r.value.version.minor >= cut.requestFlagsFrom
            ==> && |body| >= INIT_IN_SIZE
                && r.value.maxReadahead == ReadU32(body, 8)
                && r.value.flags == ReadU32(body, 12) as bv32
  {
    if |body| < INIT_IN_V7P1_SIZE then Err(Error(UnexpectedEof))
    else
      var version := ProtocolVersion(ReadU32(body, 0), ReadU32(body, 4));
      if version.major != FUSE_KERNEL_VERSION || version.minor < cut.requestFlagsFrom then
        Ok(FuseInitRequest(version, 0, 0))
      else if |body| < INIT_IN_SIZE then Err(Error(UnexpectedEof))
      else Ok(FuseInitRequest(version, ReadU32(body, 8), ReadU32(body, 12) as bv32))
  }

  /** Decodes an INIT request frame. */
  function DecodeInitRequest(frame: seq<u8>, cut: Cutoffs): (r: Result<FuseInitRequest, Error>)
    ensures SplitFrame(frame).Err? ==> r == Err(SplitFrame(frame).error)
    ensures SplitFrame(frame).Ok? ==> r == DecodeInitBody(SplitFrame(frame).value.1, cut)
  {
    match SplitFrame(frame)
    case Err(e) => Err(e)
    case Ok((_, body)) => DecodeInitBody(body, cut)
  }

  /** The kernel's `fuse_init_in` as sent by protocol 7.1: major and minor only. */
  function EncodeInitInV7p1(major: u32, minor: u32): (s: seq<u8>)
    ensures |s| == INIT_IN_V7P1_SIZE
  {
    LeU32(major) + LeU32(minor)
  }

  /** The kernel's `fuse_init_in` from 7.6 on. */
  function EncodeInitIn(major: u32, minor: u32, maxReadahead: u32, flags: bv32): (s: seq<u8>)
    ensures |s| == INIT_IN_SIZE
  {
    LeU32(major) + LeU32(minor) + LeU32(maxReadahead) + LeU32(flags as int as u32)
  }

  /** A `fuse_init_in` begins with the 7.1 struct: a reader of the old layout sees the same version. */
  lemma InitInExtendsV7p1(major: u32, minor: u32, maxReadahead: u32, flags: bv32)
    ensures EncodeInitIn(major, minor, maxReadahead, flags)
         == EncodeInitInV7p1(major, minor) + (LeU32(maxReadahead) + LeU32(flags as int as u32))
  {
  }

  /** The version, readahead and flags of a `fuse_init_in` read back from their offsets, whatever follows. */
  lemma InitInReadBack(major: u32, minor: u32, maxReadahead: u32, flags: bv32, tail: seq<u8>)
    ensures var body := EncodeInitIn(major, minor, maxReadahead, flags) + tail;
            && ReadU32(body, 0) == major && ReadU32(body, 4) == minor
            && ReadU32(body, 8) == maxReadahead && ReadU32(body, 12) as bv32 == flags
  {
    var body := EncodeInitIn(major, minor, maxReadahead, flags) + tail;
    var f := flags as int as u32;
    FourWords(LeU32(major), LeU32(minor), LeU32(maxReadahead), LeU32(f), tail);
    ReadLeU32(body, 0, major);
    ReadLeU32(body, 4, minor);
    ReadLeU32(body, 8, maxReadahead);
    ReadLeU32(body, 12, f);
  }

  /** An old or foreign kernel's request decodes to its version, no readahead and no flags, whatever follows. */
  lemma DecodeShortRequest(h: InHeader, major: u32, minor: u32, tail: seq<u8>, cut: Cutoffs)
    requires major != FUSE_KERNEL_VERSION || minor < cut.requestFlagsFrom
    requires IN_HEADER_SIZE + INIT_IN_V7P1_SIZE + |tail| < 0x1_0000_0000
    ensures DecodeInitRequest(BuildFrame(h, EncodeInitInV7p1(major, minor) + tail), cut)
         == Ok(FuseInitRequest(ProtocolVersion(major, minor), 0, 0))
  {
    var body := EncodeInitInV7p1(major, minor) + tail;
    var h' := h.(len := (IN_HEADER_SIZE + |body|) as u32);
    SplitBuiltFrame(h, body, []);
    assert BuildFrame(h, body) + [] == BuildFrame(h, body);
    assert SplitFrame(BuildFrame(h, body)) == Ok((h', body));
    ReadLeU32(body, 0, major);
    ReadLeU32(body, 4, minor);
    assert DecodeInitBody(body, cut) == Ok(FuseInitRequest(ProtocolVersion(major, minor), 0, 0));
  }

  /** A current kernel's request decodes with version, readahead and flags verbatim. */
  lemma DecodeFullRequest(h: InHeader, minor: u32, maxReadahead: u32, flags: bv32,
                          tail: seq<u8>, cut: Cutoffs)
    requires minor >= cut.requestFlagsFrom
    requires IN_HEADER_SIZE + INIT_IN_SIZE + |tail| < 0x1_0000_0000
    ensures DecodeInitRequest(BuildFrame(h, EncodeInitIn(FUSE_KERNEL_VERSION, minor, maxReadahead, flags) + tail), cut)
         == Ok(FuseInitRequest(ProtocolVersion(FUSE_KERNEL_VERSION, minor), maxReadahead, flags))
  {
    var body := EncodeInitIn(FUSE_KERNEL_VERSION, minor, maxReadahead, flags) + tail;
    var h' := h.(len := (IN_HEADER_SIZE + |body|) as u32);
    SplitBuiltFrame(h, body, []);
    assert BuildFrame(h, body) + [] == BuildFrame(h, body);
    assert SplitFrame(BuildFrame(h, body)) == Ok((h', body));
    InitInReadBack(FUSE_KERNEL_VERSION, minor, maxReadahead, flags, tail);
    assert DecodeInitBody(body, cut)
        == Ok(FuseInitRequest(ProtocolVersion(FUSE_KERNEL_VERSION, minor), maxReadahead, flags));
  }

  /**
    A current kernel's request that stops anywhere after the version and
    before the end of `fuse_init_in` is a truncated message.
   */
  lemma {:induction false} DecodeTruncatedRequest(h: InHeader, minor: u32, tail: seq<u8>, cut: Cutoffs)
    requires minor >= cut.requestFlagsFrom
    requires |tail| < INIT_IN_SIZE - INIT_IN_V7P1_SIZE
    ensures DecodeInitRequest(BuildFrame(h, EncodeInitInV7p1(FUSE_KERNEL_VERSION, minor) + tail), cut)
         == Err(Error(UnexpectedEof))
  {
    var body := EncodeInitInV7p1(FUSE_KERNEL_VERSION, minor) + tail;
    var h' := h.(len := (IN_HEADER_SIZE + |body|) as u32);
    SplitBuiltFrame(h, body, []);
    assert BuildFrame(h, body) + [] == BuildFrame(h, body);
    assert SplitFrame(BuildFrame(h, body)) == Ok((h', body));
    ReadLeU32(body, 0, FUSE_KERNEL_VERSION);
    ReadLeU32(body, 4, minor);
    assert DecodeInitBody(body, cut) == Err(Error(UnexpectedEof));
  }

  /** The three request frames of the handshake tests, each an INIT message. */
  lemma RequestTestVectors(h: InHeader, cut: Cutoffs)
    requires PinnedByTests(cut)
    ensures DecodeInitRequest(BuildFrame(h.(opcode := FUSE_INIT), EncodeInitInV7p1(7, 1)), cut)
         == Ok(FuseInitRequest(ProtocolVersion(7, 1), 0, 0))
    ensures DecodeInitRequest(BuildFrame(h.(opcode := FUSE_INIT), EncodeInitIn(7, 6, 9, 0xFFFF_FFFF)), cut)
         == Ok(FuseInitRequest(ProtocolVersion(7, 6), 9, 0xFFFF_FFFF))
    ensures DecodeInitRequest(BuildFrame(h.(opcode := FUSE_INIT), EncodeInitIn(0xFF, 0xFF, 0xFF, 0xFFFF_FFFF)), cut)
         == Ok(FuseInitRequest(ProtocolVersion(0xFF, 0xFF), 0, 0))
  {
    var hi := h.(opcode := FUSE_INIT);
    DecodeShortRequest(hi, 7, 1, [], cut);
    assert EncodeInitInV7p1(7, 1) + [] == EncodeInitInV7p1(7, 1);
    DecodeFullRequest(hi, 6, 9, 0xFFFF_FFFF, [], cut);
    assert EncodeInitIn(7, 6, 9, 0xFFFF_FFFF) + [] == EncodeInitIn(7, 6, 9, 0xFFFF_FFFF);
    InitInExtendsV7p1(0xFF, 0xFF, 0xFF, 0xFFFF_FFFF);
    DecodeShortRequest(hi, 0xFF, 0xFF, LeU32(0xFF) + LeU32(0xFFFF_FFFF), cut);
  }

  // ---- Reply ----

  /** sizeof(fuse_init_out) for protocol 7.1 */
  const FUSE_COMPAT_INIT_OUT_SIZE: nat := 8
  /** sizeof(fuse_init_out) for protocols 7.5 to 7.22 */
  const FUSE_COMPAT_22_INIT_OUT_SIZE: nat := 24
  /** sizeof(fuse_init_out) */
  const INIT_OUT_SIZE: nat := 64

  /** The fields of `fuse_init_out` (its nine trailing `unused` words are always zero). */
  datatype InitOut = InitOut(
    major: u32, minor: u32, maxReadahead: u32, flags: bv32,
    maxBackground: u16, congestionThreshold: u16, maxWrite: u32, timeGran: u32)

  /** `FuseInitResponse::new(version)`: every field but the version unset. */
  function NewInitOut(version: ProtocolVersion): (o: InitOut)
  {
    InitOut(version.major, version.minor, 0, 0, 0, 0, 0, 0)
  }

  datatype InitLayout = CompatLayout | Compat22Layout | FullLayout

  function LayoutFor(minor: u32, cut: Cutoffs): (layout: InitLayout)
  {
    if minor < cut.reply22From then CompatLayout
    else if minor < cut.replyFullFrom then Compat22Layout
    else FullLayout
  }

  function LayoutSize(layout: InitLayout): (n: nat)
  {
    match layout
    case CompatLayout => FUSE_COMPAT_INIT_OUT_SIZE
    case Compat22Layout => FUSE_COMPAT_22_INIT_OUT_SIZE
    case FullLayout => INIT_OUT_SIZE
  }

  /** The layouts of the tested minor versions, and of the library's own. */
  lemma TestedLayouts(cut: Cutoffs)
    requires PinnedByTests(cut)
    ensures LayoutFor(1, cut) == CompatLayout
    ensures LayoutFor(5, cut) == Compat22Layout
    ensures LayoutFor(23, cut) == FullLayout
    ensures LayoutFor(FUSE_KERNEL_MINOR_VERSION, cut) == FullLayout
  {
  }

  /** A newer minor version never gets a shorter reply. */
  lemma LayoutMonotone(m1: u32, m2: u32, cut: Cutoffs)
    requires cut.reply22From <= cut.replyFullFrom
    requires m1 <= m2
    ensures LayoutSize(LayoutFor(m1, cut)) <= LayoutSize(LayoutFor(m2, cut))
  {
  }

  /** `fuse_init_out_v7p1`: major and minor. */
  function EncodeInitOutV7p1(o: InitOut): (s: seq<u8>)
    ensures |s| == FUSE_COMPAT_INIT_OUT_SIZE
  {
    LeU32(o.major) + LeU32(o.minor)
  }

  /** The fields protocol 7.5 adds: readahead, flags, background, congestion threshold, max write. */
  function EncodeV7p5Part(o: InitOut): (s: seq<u8>)
    ensures |s| == FUSE_COMPAT_22_INIT_OUT_SIZE - FUSE_COMPAT_INIT_OUT_SIZE
  {
    LeU32(o.maxReadahead) + LeU32(o.flags as int as u32)
      + LeU16(o.maxBackground) + LeU16(o.congestionThreshold) + LeU32(o.maxWrite)
  }

  /** The fields protocol 7.23 adds: time granularity, then nine unused words. */
  function EncodeV7p23Part(o: InitOut): (s: seq<u8>)
    ensures |s| == INIT_OUT_SIZE - FUSE_COMPAT_22_INIT_OUT_SIZE
  {
    LittleEndian.Pow256Widths();
    LeU32(o.timeGran) + EncodeLe(0, 36)
  }

  /** All 64 bytes of `fuse_init_out`. */
  function EncodeInitOutFull(o: InitOut): (s: seq<u8>)
    ensures |s| == INIT_OUT_SIZE
  {
    EncodeInitOutV7p1(o) + EncodeV7p5Part(o) + EncodeV7p23Part(o)
  }

  /** The reply payload: the prefix of `fuse_init_out` that the minor version's layout has. */
  function EncodeInitOut(o: InitOut, cut: Cutoffs): (s: seq<u8>)
    ensures |s| == LayoutSize(LayoutFor(o.minor, cut))
  {
    EncodeInitOutFull(o)[..LayoutSize(LayoutFor(o.minor, cut))]
  }

  function EncodeInitResponse(o: InitOut, unique: u64, cut: Cutoffs): (s: seq<u8>)
    ensures |s| == OUT_HEADER_SIZE + LayoutSize(LayoutFor(o.minor, cut))
  {
    EncodeReply(unique, EncodeInitOut(o, cut))
  }

  /** The fields a layout carries, the others zero. */
  function Project(o: InitOut, layout: InitLayout): (p: InitOut)
  {
    match layout
    case CompatLayout => InitOut(o.major, o.minor, 0, 0, 0, 0, 0, 0)
    case Compat22Layout => o.(timeGran := 0)
    case FullLayout => o
  }

  /** The kernel's reading of an INIT reply payload: its length tells the layout; any other length is refused. */
  function DecodeInitPayload(p: seq<u8>): (r: Option<InitOut>)
  {
    if |p| == FUSE_COMPAT_INIT_OUT_SIZE then
      Some(InitOut(ReadU32(p, 0), ReadU32(p, 4), 0, 0, 0, 0, 0, 0))
    else if |p| == FUSE_COMPAT_22_INIT_OUT_SIZE then
      Some(InitOut(ReadU32(p, 0), ReadU32(p, 4), ReadU32(p, 8), ReadU32(p, 12) as bv32,
                   ReadU16(p, 16), ReadU16(p, 18), ReadU32(p, 20), 0))
    else if |p| == INIT_OUT_SIZE then
      Some(InitOut(ReadU32(p, 0), ReadU32(p, 4), ReadU32(p, 8), ReadU32(p, 12) as bv32,
                   ReadU16(p, 16), ReadU16(p, 18), ReadU32(p, 20), ReadU32(p, 24)))
    else None
  }

  /** The kernel's reading of an INIT reply: the header, then the payload. */
  function DecodeInitReply(s: seq<u8>): (r: Option<(OutHeader, InitOut)>)
  {
    if |s| < OUT_HEADER_SIZE then None
    else
      match DecodeInitPayload(s[OUT_HEADER_SIZE..])
      case None => None
      case Some(o) => Some((DecodeOutHeader(s), o))
  }

  lemma InitOutV7p1ReadBack(o: InitOut)
    ensures var s := EncodeInitOutV7p1(o);
            ReadU32(s, 0) == o.major && ReadU32(s, 4) == o.minor
  {
    var s := EncodeInitOutV7p1(o);
    ReadLeU32(s, 0, o.major);
    ReadLeU32(s, 4, o.minor);
  }

  lemma V7p5PartReadBack(o: InitOut)
    ensures var s := EncodeV7p5Part(o);
            && ReadU32(s, 0) == o.maxReadahead && ReadU32(s, 4) as bv32 == o.flags
            && ReadU16(s, 8) == o.maxBackground && ReadU16(s, 10) == o.congestionThreshold
            && ReadU32(s, 12) == o.maxWrite
  {
    var s := EncodeV7p5Part(o);
    ReadLeU32(s, 0, o.maxReadahead);
    ReadLeU32(s, 4, o.flags as int as u32);
    ReadLeU16(s, 8, o.maxBackground);
    ReadLeU16(s, 10, o.congestionThreshold);
    ReadLeU32(s, 12, o.maxWrite);
  }

  lemma V7p23PartReadBack(o: InitOut)
    ensures ReadU32(EncodeV7p23Part(o), 0) == o.timeGran
  {
    var s := EncodeV7p23Part(o);
    ReadLeU32(s, 0, o.timeGran);
  }

  /** The 64-byte struct is the three version parts at offsets 0, 8 and 24. */
  lemma FullChunks(o: InitOut)
    ensures var full := EncodeInitOutFull(o);
            && full[0..8] == EncodeInitOutV7p1(o)
            && full[8..24] == EncodeV7p5Part(o)
            && full[24..64] == EncodeV7p23Part(o)
  {
  }

  /** However the fields are set, the nine `unused` words after `time_gran` are sent as zero bytes. */
  lemma UnusedZero(o: InitOut)
    ensures EncodeInitOutFull(o)[28..] == seq(36, _ => 0 as u8)
    ensures forall i | 28 <= i < INIT_OUT_SIZE :: EncodeInitOutFull(o)[i] == 0
  {
    Pow256Widths();
    EncodeZero(36);
    assert EncodeV7p23Part(o) == LeU32(o.timeGran) + seq(36, _ => 0 as u8);
    FullChunks(o);
    assert EncodeInitOutFull(o)[28..] == EncodeV7p23Part(o)[4..];
  }

  /** Every field of `fuse_init_out` reads back from its offset. */
  lemma FullFieldsReadBack(o: InitOut)
    ensures var full := EncodeInitOutFull(o);
            && ReadU32(full, 0) == o.major && ReadU32(full, 4) == o.minor
            && ReadU32(full, 8) == o.maxReadahead && ReadU32(full, 12) as bv32 == o.flags
            && ReadU16(full, 16) == o.maxBackground && ReadU16(full, 18) == o.congestionThreshold
            && ReadU32(full, 20) == o.maxWrite && ReadU32(full, 24) == o.timeGran
  {
    FullChunks(o);
    InitOutWindows(EncodeInitOutFull(o), EncodeInitOutV7p1(o), EncodeV7p5Part(o), EncodeV7p23Part(o));
    InitOutV7p1ReadBack(o);
    V7p5PartReadBack(o);
    V7p23PartReadBack(o);
  }

  /** Each field of a 64-byte `fuse_init_out` is read from the version part that holds it. */
  lemma InitOutWindows(s: seq<u8>, a: seq<u8>, b: seq<u8>, c: seq<u8>)
    requires |s| == INIT_OUT_SIZE && s[0..8] == a && s[8..24] == b && s[24..64] == c
    ensures ReadU32(s, 0) == ReadU32(a, 0) && ReadU32(s, 4) == ReadU32(a, 4)
    ensures ReadU32(s, 8) == ReadU32(b, 0) && ReadU32(s, 12) == ReadU32(b, 4)
    ensures ReadU16(s, 16) == ReadU16(b, 8) && ReadU16(s, 18) == ReadU16(b, 10)
    ensures ReadU32(s, 20) == ReadU32(b, 12) && ReadU32(s, 24) == ReadU32(c, 0)
  {
    ReadInWindow(s, 0, 8, 0);
    ReadInWindow(s, 0, 8, 4);
    ReadInWindow(s, 24, 40, 0);
    V7p5Windows(s, b);
  }

  lemma V7p5Windows(s: seq<u8>, b: seq<u8>)
    requires |s| == INIT_OUT_SIZE && s[8..24] == b
    ensures ReadU32(s, 8) == ReadU32(b, 0) && ReadU32(s, 12) == ReadU32(b, 4)
    ensures ReadU16(s, 16) == ReadU16(b, 8) && ReadU16(s, 18) == ReadU16(b, 10)
    ensures ReadU32(s, 20) == ReadU32(b, 12)
  {
    ReadInWindow(s, 8, 16, 0);
    ReadInWindow(s, 8, 16, 4);
    ReadInWindow(s, 8, 16, 8);
    ReadInWindow(s, 8, 16, 10);
    ReadInWindow(s, 8, 16, 12);
  }

  /** The kernel reads back, from the prefix a layout sends, exactly the fields that layout carries. */
  lemma PayloadReadBack(o: InitOut, layout: InitLayout)
    ensures DecodeInitPayload(EncodeInitOutFull(o)[..LayoutSize(layout)]) == Some(Project(o, layout))
  {
    FullFieldsReadBack(o);
    PrefixDecodes(EncodeInitOutFull(o), o, layout);
  }

  /** Decoding a layout's prefix of a 64-byte struct whose fields are `o`'s gives `o` projected on the layout. */
  lemma PrefixDecodes(full: seq<u8>, o: InitOut, layout: InitLayout)
    requires |full| == INIT_OUT_SIZE
    requires ReadU32(full, 0) == o.major && ReadU32(full, 4) == o.minor
    requires ReadU32(full, 8) == o.maxReadahead && ReadU32(full, 12) as bv32 == o.flags
    requires ReadU16(full, 16) == o.maxBackground && ReadU16(full, 18) == o.congestionThreshold
    requires ReadU32(full, 20) == o.maxWrite && ReadU32(full, 24) == o.timeGran
    ensures DecodeInitPayload(full[..LayoutSize(layout)]) == Some(Project(o, layout))
  {
    match layout
    case CompatLayout => CompatPrefixDecodes(full, o);
    case Compat22Layout => Compat22PrefixDecodes(full, o);
    case FullLayout => assert full[..INIT_OUT_SIZE] == full;
  }

  lemma CompatPrefixDecodes(full: seq<u8>, o: InitOut)
    requires |full| == INIT_OUT_SIZE
    requires ReadU32(full, 0) == o.major && ReadU32(full, 4) == o.minor
    ensures DecodeInitPayload(full[..FUSE_COMPAT_INIT_OUT_SIZE]) == Some(InitOut(o.major, o.minor, 0, 0, 0, 0, 0, 0))
  {
    var n := FUSE_COMPAT_INIT_OUT_SIZE;
    ReadInPrefix(full, n, 0);
    ReadInPrefix(full, n, 4);
  }

  lemma Compat22PrefixDecodes(full: seq<u8>, o: InitOut)
    requires |full| == INIT_OUT_SIZE
    requires ReadU32(full, 0) == o.major && ReadU32(full, 4) == o.minor
    requires ReadU32(full, 8) == o.maxReadahead && ReadU32(full, 12) as bv32 == o.flags
    requires ReadU16(full, 16) == o.maxBackground && ReadU16(full, 18) == o.congestionThreshold
    requires ReadU32(full, 20) == o.maxWrite
    ensures DecodeInitPayload(full[..FUSE_COMPAT_22_INIT_OUT_SIZE]) == Some(o.(timeGran := 0))
  {
    var n := FUSE_COMPAT_22_INIT_OUT_SIZE;
    ReadInPrefix(full, n, 0);
    ReadInPrefix(full, n, 4);
    ReadInPrefix(full, n, 8);
    ReadInPrefix(full, n, 12);
    ReadInPrefix(full, n, 16);
    ReadInPrefix(full, n, 18);
    ReadInPrefix(full, n, 20);
    Compat22Decodes(full[..n], o);
  }

  lemma Compat22Decodes(p: seq<u8>, o: InitOut)
    requires |p| == FUSE_COMPAT_22_INIT_OUT_SIZE
    requires ReadU32(p, 0) == o.major && ReadU32(p, 4) == o.minor
    requires ReadU32(p, 8) == o.maxReadahead && ReadU32(p, 12) as bv32 == o.flags
    requires ReadU16(p, 16) == o.maxBackground && ReadU16(p, 18) == o.congestionThreshold
    requires ReadU32(p, 20) == o.maxWrite
    ensures DecodeInitPayload(p) == Some(o.(timeGran := 0))
  {
  }

  /**
    An encoded INIT reply is a header whose `len` is the reply's length,
    with `error = 0` and the request's `unique`, followed by exactly the
    fields of the layout its minor version selects.
   */
  lemma InitReplyRoundTrip(o: InitOut, unique: u64, cut: Cutoffs)
    ensures var layout := LayoutFor(o.minor, cut);
            DecodeInitReply(EncodeInitResponse(o, unique, cut))
            == Some((OutHeader((OUT_HEADER_SIZE + LayoutSize(layout)) as u32, 0, unique), Project(o, layout)))
  {
    var layout := LayoutFor(o.minor, cut);
    var p := EncodeInitOutFull(o)[..LayoutSize(layout)];
    ReplyFraming(unique, p);
    PayloadReadBack(o, layout);
  }

  /** Unset fields are sent as zero bytes: after the version, a new response's payload is all zero. */
  lemma {:induction false} UnsetFieldsEncodeZero(version: ProtocolVersion, unique: u64, cut: Cutoffs)
    ensures var s := EncodeInitResponse(NewInitOut(version), unique, cut);
            forall i | OUT_HEADER_SIZE + 8 <= i < |s| :: s[i] == 0
  {
    var o := NewInitOut(version);
    LittleEndian.Pow256Widths();
    EncodeZero(4);
    EncodeZero(2);
    EncodeZero(36);
    var z4, z2 := seq(4, _ => 0 as u8), seq(2, _ => 0 as u8);
    assert LeU32(0) == z4 && LeU16(0) == z2;
    var tail := z4 + z4 + z2 + z2 + z4 + z4 + seq(36, _ => 0 as u8);
    assert forall i | 0 <= i < |tail| :: tail[i] == 0;
    var full := EncodeInitOutFull(o);
    assert full == LeU32(o.major) + LeU32(o.minor) + tail;
    var p := EncodeInitOut(o, cut);
    ReplyFraming(unique, p);
  }

  /** The `fuse_init_out_v7p5` struct: the 24-byte reply of protocols before 7.23, field by field. */
  function EncodeInitOutV7p5(o: InitOut): (s: seq<u8>)
    ensures |s| == FUSE_COMPAT_22_INIT_OUT_SIZE
  {
    LeU32(o.major) + LeU32(o.minor) + LeU32(o.maxReadahead) + LeU32(o.flags as int as u32)
      + LeU16(o.maxBackground) + LeU16(o.congestionThreshold) + LeU32(o.maxWrite)
  }

  /** The 24-byte struct is the 7.1 struct followed by the fields 7.5 adds. */
  lemma InitOutV7p5Parts(o: InitOut)
    ensures EncodeInitOutV7p5(o) == EncodeInitOutV7p1(o) + EncodeV7p5Part(o)
  {
  }

  /**
    The three replies of the encoding tests, byte for byte: a new 7.1 and
    7.5 response, and a 7.23 response with readahead 4096 and every flag set.
   */
  lemma ResponseTestVectors(cut: Cutoffs)
    requires PinnedByTests(cut)
    ensures EncodeInitResponse(NewInitOut(ProtocolVersion(7, 1)), 0, cut)
         == EncodeOutHeader(OutHeader((OUT_HEADER_SIZE + FUSE_COMPAT_INIT_OUT_SIZE) as u32, 0, 0))
            + EncodeInitOutV7p1(InitOut(7, 1, 0, 0, 0, 0, 0, 0))
    ensures EncodeInitResponse(NewInitOut(ProtocolVersion(7, 5)), 0, cut)
         == EncodeOutHeader(OutHeader((OUT_HEADER_SIZE + FUSE_COMPAT_22_INIT_OUT_SIZE) as u32, 0, 0))
            + EncodeInitOutV7p5(InitOut(7, 5, 0, 0, 0, 0, 0, 0))
    ensures EncodeInitResponse(InitOut(7, 23, 4096, 0xFFFF_FFFF, 0, 0, 0, 0), 0, cut)
         == EncodeOutHeader(OutHeader((OUT_HEADER_SIZE + INIT_OUT_SIZE) as u32, 0, 0))
            + EncodeInitOutFull(InitOut(7, 23, 4096, 0xFFFF_FFFF, 0, 0, 0, 0))
  {
    TestedLayouts(cut);
    var o1 := NewInitOut(ProtocolVersion(7, 1));
    PartPrefixes(EncodeInitOutV7p1(o1), EncodeV7p5Part(o1), EncodeV7p23Part(o1));
    var o5 := NewInitOut(ProtocolVersion(7, 5));
    PartPrefixes(EncodeInitOutV7p1(o5), EncodeV7p5Part(o5), EncodeV7p23Part(o5));
    InitOutV7p5Parts(o5);
    var o23 := InitOut(7, 23, 4096, 0xFFFF_FFFF, 0, 0, 0, 0);
    assert EncodeInitOutFull(o23)[..INIT_OUT_SIZE] == EncodeInitOutFull(o23);
  }

  /** The prefixes of three concatenated parts. */
  lemma PartPrefixes(a: seq<u8>, b: seq<u8>, c: seq<u8>)
    ensures (a + b + c)[..|a|] == a && (a + b + c)[..|a| + |b|] == a + b
  {
    assert (a + b + c)[..|a|] == a;
    assert (a + b + c)[..|a| + |b|] == a + b;
  }

  // ---- Negotiation ----

  function Min(a: u32, b: u32): (r: u32)
    ensures r <= a && r <= b && (r == a || r == b)
  {
    if a <= b then a else b
  }

  /**
    `FuseInitResponse::for_request`: the reply to a kernel's INIT. On a major
    mismatch the library offers its own version and nothing else; otherwise
    it answers with the lower of the two minor versions and echoes readahead
    and flags.
   */
  function ForRequest(request: FuseInitRequest): (o: InitOut)
    ensures request.version.major != FUSE_KERNEL_VERSION ==> o == NewInitOut(LATEST)
    ensures request.version.major == FUSE_KERNEL_VERSION ==>
              o == InitOut(FUSE_KERNEL_VERSION, Min(request.version.minor, FUSE_KERNEL_MINOR_VERSION),
                           request.maxReadahead, request.flags, 0, 0, 0, 0)
  {
    var v := request.version;
    if v.major != FUSE_KERNEL_VERSION then NewInitOut(LATEST)
    else
      var version := if v.minor > FUSE_KERNEL_MINOR_VERSION then LATEST else v;
      NewInitOut(version).(maxReadahead := request.maxReadahead, flags := request.flags)
  }

  /** A kernel newer than the library gets the library's version, in the full layout, with readahead and flags echoed. */
  lemma MinorMismatchReply(request: FuseInitRequest, unique: u64, cut: Cutoffs)
    requires PinnedByTests(cut)
    requires request.version.major == FUSE_KERNEL_VERSION
    requires request.version.minor > FUSE_KERNEL_MINOR_VERSION
    ensures DecodeInitReply(EncodeInitResponse(ForRequest(request), unique, cut))
         == Some((OutHeader((OUT_HEADER_SIZE + INIT_OUT_SIZE) as u32, 0, unique),
                  InitOut(FUSE_KERNEL_VERSION, FUSE_KERNEL_MINOR_VERSION,
                          request.maxReadahead, request.flags, 0, 0, 0, 0)))
  {
    InitReplyRoundTrip(ForRequest(request), unique, cut);
  }

  /** A kernel of another major version gets the library's version, zero readahead and no flags, in the full layout. */
  lemma MajorMismatchReply(request: FuseInitRequest, unique: u64, cut: Cutoffs)
    requires PinnedByTests(cut)
    requires request.version.major != FUSE_KERNEL_VERSION
    ensures DecodeInitReply(EncodeInitResponse(ForRequest(request), unique, cut))
         == Some((OutHeader((OUT_HEADER_SIZE + INIT_OUT_SIZE) as u32, 0, unique),
                  InitOut(FUSE_KERNEL_VERSION, FUSE_KERNEL_MINOR_VERSION, 0, 0, 0, 0, 0, 0)))
  {
    InitReplyRoundTrip(ForRequest(request), unique, cut);
  }

  /** `FuseInitResponse`: a reply under construction, its fields set one by one. */
  class FuseInitResponse {
    var raw: InitOut

    constructor (version: ProtocolVersion)
      ensures raw == NewInitOut(version)
    {
      raw := NewInitOut(version);
    }

    method SetMaxReadahead(maxReadahead: u32)
      modifies this
      ensures raw == old(raw).(maxReadahead := maxReadahead)
    {
      raw := raw.(maxReadahead := maxReadahead);
    }

    /** Copies the flag set at the time of the call. */
    method SetFlags(flags: FuseInitFlags)
      modifies this
      ensures raw == old(raw).(flags := flags.bits)
    {
      raw := raw.(flags := flags.bits);
    }

    method SetMaxBackground(maxBackground: u16)
      modifies this
      ensures raw == old(raw).(maxBackground := maxBackground)
    {
      raw := raw.(maxBackground := maxBackground);
    }

    method SetCongestionThreshold(congestionThreshold: u16)
      modifies this
      ensures raw == old(raw).(congestionThreshold := congestionThreshold)
    {
      raw := raw.(congestionThreshold := congestionThreshold);
    }

    method SetMaxWrite(maxWrite: u32)
      modifies this
      ensures raw == old(raw).(maxWrite := maxWrite)
    {
      raw := raw.(maxWrite := maxWrite);
    }

    method SetTimeGranularity(timeGran: u32)
      modifies this
      ensures raw == old(raw).(timeGran := timeGran)
    {
      raw := raw.(timeGran := timeGran);
    }
  }

  /** The flag-set test: ASYNC_READ on, POSIX_LOCKS on, ASYNC_READ off leaves a fresh set holding POSIX_LOCKS alone. */
  method ExerciseFlags() returns (bits: bv32)
    ensures bits == POSIX_LOCKS
    ensures HasFlag(bits, POSIX_LOCKS) && !HasFlag(bits, ASYNC_READ)
  {
    var flags := new FuseInitFlags();
    flags.Set(ASYNC_READ, true);
    flags.Set(POSIX_LOCKS, true);
    flags.Set(ASYNC_READ, false);
    InitFlagsSequence();
    bits := flags.bits;
  }

  /** The response setters, driven as a user builds a 7.23 reply with readahead 4096 and every flag. */
  method BuildV7p23Reply(cut: Cutoffs) returns (encoded: seq<u8>)
    requires PinnedByTests(cut)
    ensures DecodeInitReply(encoded)
         == Some((OutHeader((OUT_HEADER_SIZE + INIT_OUT_SIZE) as u32, 0, 0),
                  InitOut(7, 23, 4096, 0xFFFF_FFFF, 0, 0, 0, 0)))
  {
    var response := new FuseInitResponse(ProtocolVersion(7, 23));
    response.SetMaxReadahead(4096);
    var all := new FuseInitFlags.FromBits(0xFFFF_FFFF);
    response.SetFlags(all);
    var raw := response.raw;
    assert raw == InitOut(7, 23, 4096, 0xFFFF_FFFF, 0, 0, 0, 0);
    encoded := EncodeInitResponse(raw, 0, cut);
    InitReplyRoundTrip(raw, 0, cut);
    TestedLayouts(cut);
  }

  /**
    Every setter, each once: the response keeps the version it was made for
    and holds exactly the values set, and a 7.1 kernel is still sent major
    and minor only.
   */
  method BuildV7p1Response(cut: Cutoffs) returns (raw: InitOut, encoded: seq<u8>)
    requires PinnedByTests(cut)
    ensures raw == InitOut(7, 1, 4096, 0x1, 10, 11, 8192, 100)
    ensures DecodeInitReply(encoded)
         == Some((OutHeader((OUT_HEADER_SIZE + FUSE_COMPAT_INIT_OUT_SIZE) as u32, 0, 0),
                  InitOut(7, 1, 0, 0, 0, 0, 0, 0)))
  {
    var response := new FuseInitResponse(ProtocolVersion(7, 1));
    response.SetMaxReadahead(4096);
    response.SetMaxWrite(8192);
    response.SetMaxBackground(10);
    response.SetCongestionThreshold(11);
    response.SetTimeGranularity(100);
    var flags := new FuseInitFlags.FromBits(0x1);
    response.SetFlags(flags);
    raw := response.raw;
    assert raw == InitOut(7, 1, 4096, 0x1, 10, 11, 8192, 100);
    encoded := EncodeInitResponse(raw, 0, cut);
    InitReplyRoundTrip(raw, 0, cut);
    TestedLayouts(cut);
  }
}
