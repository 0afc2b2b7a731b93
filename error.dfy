/**
  The library's error values: `Error`, a kind tag that may carry an OS
  error number, and `ErrorCode`, a non-zero 16-bit error number with
  lossless conversions into wider integers, equality against Rust's
  primitive integers and per-platform constants.
 */
module Errors {
  import opened Ints

  /** An OS error number; never zero, always within 16 bits. */
  datatype ErrorCode = ErrorCode(code: NonZeroU16)

  datatype ErrorKind =
    | Unknown
    | InvalidInput
    | UnexpectedEof
    | ExpectedFuseInit
    | Os(osCode: ErrorCode)

  datatype Error = Error(kind: ErrorKind)

  /** The numeric value of an error code. */
  function Value(c: ErrorCode): (v: int)
  {
    c.code as int
  }

  /** `Error::new`: an error of the OS kind that carries exactly `c`. */
  function NewError(c: ErrorCode): (e: Error)
    ensures e.kind.Os? && e.kind.osCode == c
  {
    Error(Os(c))
  }

  lemma NewErrorInjective(a: ErrorCode, b: ErrorCode)
    ensures NewError(a) == NewError(b) <==> a == b
  {
  }

  /** `ErrorCode::new` and `From<NonZeroU16>`: total on every non-zero u16. */
  function FromNonZeroU16(n: NonZeroU16): (c: ErrorCode)
    ensures Value(c) == n as int
  {
    ErrorCode(n)
  }

  // ---- Widening conversions (`From<ErrorCode>` for each integer type) ----

  function ToU16(c: ErrorCode): (r: u16)
    ensures r != 0 && r as int == Value(c)
  {
    c.code as int as u16
  }

  function ToNonZeroU16(c: ErrorCode): (r: NonZeroU16)
    ensures r as int == Value(c)
  {
    c.code
  }

  function ToU32(c: ErrorCode): (r: u32)
    ensures 1 <= r <= 0xFFFF && r as int == Value(c)
  {
    c.code as int as u32
  }

  function ToNonZeroU32(c: ErrorCode): (r: NonZeroU32)
    ensures r <= 0xFFFF && r as int == Value(c)
  {
    c.code as int as NonZeroU32
  }

  function ToI32(c: ErrorCode): (r: i32)
    ensures 1 <= r <= 0xFFFF && r as int == Value(c)
  {
    c.code as int as i32
  }

  function ToNonZeroI32(c: ErrorCode): (r: NonZeroI32)
    ensures 1 <= r <= 0xFFFF && r as int == Value(c)
  {
    c.code as int as NonZeroI32
  }

  function ToU64(c: ErrorCode): (r: u64)
    ensures 1 <= r <= 0xFFFF && r as int == Value(c)
  {
    c.code as int as u64
  }

  function ToNonZeroU64(c: ErrorCode): (r: NonZeroU64)
    ensures r <= 0xFFFF && r as int == Value(c)
  {
    c.code as int as NonZeroU64
  }

  function ToI64(c: ErrorCode): (r: i64)
    ensures 1 <= r <= 0xFFFF && r as int == Value(c)
  {
    c.code as int as i64
  }

  function ToNonZeroI64(c: ErrorCode): (r: NonZeroI64)
    ensures 1 <= r <= 0xFFFF && r as int == Value(c)
  {
    c.code as int as NonZeroI64
  }

  /** NonZeroU16 -> ErrorCode -> u16 / NonZeroU16 gives the number back, and the other way round. */
  lemma NonZeroU16RoundTrip(n: NonZeroU16, c: ErrorCode)
    ensures ToNonZeroU16(FromNonZeroU16(n)) == n
    ensures ToU16(FromNonZeroU16(n)) as int == n as int
    ensures FromNonZeroU16(ToNonZeroU16(c)) == c
  {
  }

  /** Every widening names the same number, so two codes are equal exactly when they convert equally. */
  lemma WideningsAgree(a: ErrorCode, b: ErrorCode)
    ensures ToU32(a) as int == ToI32(a) as int == ToU64(a) as int == ToI64(a) as int == ToU16(a) as int
    ensures ToNonZeroU32(a) as int == ToNonZeroI32(a) as int == ToNonZeroU64(a) as int == ToNonZeroI64(a) as int == Value(a)
    ensures ToU16(a) == ToU16(b) <==> a == b
    ensures ToI64(a) == ToI64(b) <==> a == b
  {
  }

  // ---- Equality with primitive integers (`PartialEq` both ways) ----
  // For i32, i64, u16, u32, u64 and usize the code is widened to the other
  // operand's type and compared.

  function CodeEqI32(c: ErrorCode, x: i32): (r: bool)
    ensures r <==> Value(c) == x as int
  {
    c.code as int as i32 == x
  }

  function I32EqCode(x: i32, c: ErrorCode): (r: bool)
    ensures r <==> Value(c) == x as int
  {
    c.code as int as i32 == x
  }

  function CodeEqI64(c: ErrorCode, x: i64): (r: bool)
    ensures r <==> Value(c) == x as int
  {
    c.code as int as i64 == x
  }

  function I64EqCode(x: i64, c: ErrorCode): (r: bool)
    ensures r <==> Value(c) == x as int
  {
    c.code as int as i64 == x
  }

  function CodeEqU16(c: ErrorCode, x: u16): (r: bool)
    ensures r <==> Value(c) == x as int
  {
    c.code as int as u16 == x
  }

  function U16EqCode(x: u16, c: ErrorCode): (r: bool)
    ensures r <==> Value(c) == x as int
  {
    c.code as int as u16 == x
  }

  function CodeEqU32(c: ErrorCode, x: u32): (r: bool)
    ensures r <==> Value(c) == x as int
  {
    c.code as int as u32 == x
  }

  function U32EqCode(x: u32, c: ErrorCode): (r: bool)
    ensures r <==> Value(c) == x as int
  {
    c.code as int as u32 == x
  }

  function CodeEqU64(c: ErrorCode, x: u64): (r: bool)
    ensures r <==> Value(c) == x as int
  {
    c.code as int as u64 == x
  }

  function U64EqCode(x: u64, c: ErrorCode): (r: bool)
    ensures r <==> Value(c) == x as int
  {
    c.code as int as u64 == x
  }

  function CodeEqUsize(c: ErrorCode, x: usize): (r: bool)
    ensures r <==> Value(c) == x as int
  {
    c.code as int as usize == x
  }

  function UsizeEqCode(x: usize, c: ErrorCode): (r: bool)
    ensures r <==> Value(c) == x as int
  {
    c.code as int as usize == x
  }

  // For i16 and isize the other operand is first rejected when it is not
  // positive, and otherwise reinterpreted as unsigned with `as`.

  function CodeEqI16(c: ErrorCode, x: i16): (r: bool)
    ensures x <= 0 ==> !r
    ensures r <==> Value(c) == x as int
  {
    if x <= 0 then false else c.code as int as u16 == I16AsU16(x)
  }

  function I16EqCode(x: i16, c: ErrorCode): (r: bool)
    ensures x <= 0 ==> !r
    ensures r <==> Value(c) == x as int
  {
    if x <= 0 then false else c.code as int as u16 == I16AsU16(x)
  }

  function CodeEqIsize(c: ErrorCode, x: isize): (r: bool)
    ensures x <= 0 ==> !r
    ensures r <==> Value(c) == x as int
  {
    if x <= 0 then false else c.code as int as usize == IsizeAsUsize(x)
  }

  function IsizeEqCode(x: isize, c: ErrorCode): (r: bool)
    ensures x <= 0 ==> !r
    ensures r <==> Value(c) == x as int
  {
    if x <= 0 then false else c.code as int as usize == IsizeAsUsize(x)
  }

  /** Every cross-type equality answers the same whichever side the code is on. */
  lemma EqualitySymmetric(c: ErrorCode, a: i32, b: i64, d: u16, e: u32, f: u64, g: usize, h: i16, k: isize)
    ensures CodeEqI32(c, a) == I32EqCode(a, c)
    ensures CodeEqI64(c, b) == I64EqCode(b, c)
    ensures CodeEqU16(c, d) == U16EqCode(d, c)
    ensures CodeEqU32(c, e) == U32EqCode(e, c)
    ensures CodeEqU64(c, f) == U64EqCode(f, c)
    ensures CodeEqUsize(c, g) == UsizeEqCode(g, c)
    ensures CodeEqI16(c, h) == I16EqCode(h, c)
    ensures CodeEqIsize(c, k) == IsizeEqCode(k, c)
  {
  }

  /**
    The guard on i16 and isize never changes the answer: a code is at least 1,
    so comparing through a wider signed type gives the same result.
   */
  lemma SignedGuardAgreesWithWidening(c: ErrorCode, h: i16, k: isize)
    ensures CodeEqI16(c, h) == CodeEqI32(c, h as int as i32)
    ensures CodeEqIsize(c, k) == CodeEqI64(c, k as int as i64)
  {
  }

  // ---- Platform constants ----

  /** The targets the library defines error numbers for. */
  datatype Target = FreeBsd | LinuxX86 | LinuxX86_64

  function EIO(t: Target): ErrorCode { ErrorCode(5) }

  function ENOENT(t: Target): ErrorCode { ErrorCode(2) }

  function ENODEV(t: Target): ErrorCode { ErrorCode(19) }

  function ENOSYS(t: Target): ErrorCode
  {
    match t
    case FreeBsd => ErrorCode(78)
    case LinuxX86 | LinuxX86_64 => ErrorCode(38)
  }

  lemma TargetConstants(t: Target)
    ensures Value(EIO(t)) == 5 && Value(ENOENT(t)) == 2 && Value(ENODEV(t)) == 19
    ensures Value(ENOSYS(t)) == if t == FreeBsd then 78 else 38
    ensures EIO(t) != ENOENT(t) && EIO(t) != ENODEV(t) && EIO(t) != ENOSYS(t)
    ensures ENOENT(t) != ENODEV(t) && ENOENT(t) != ENOSYS(t) && ENODEV(t) != ENOSYS(t)
  {
  }
}
