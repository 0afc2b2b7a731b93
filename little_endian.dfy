/**
  Little-endian byte layout of unsigned and two's-complement integers.
  The kernel ABI uses the host's byte order; this model fixes little-endian,
  matching x86 and x86_64 hosts (big-endian hosts are not modelled).
 */
module LittleEndian {
  import opened Ints

  /** 256 to the power n: the number of values n bytes can hold. */
  function Pow256(n: nat): (p: nat)
    ensures p >= 1
  {
    if n == 0 then 1 else 256 * Pow256(n - 1)
  }

  lemma Pow256Widths()
    ensures Pow256(2) == 0x1_0000
    ensures Pow256(4) == 0x1_0000_0000
    ensures Pow256(8) == 0x1_0000_0000_0000_0000
  {
    assert Pow256(1) == 0x100;
    assert Pow256(2) == 0x1_0000;
    assert Pow256(3) == 0x100_0000;
    assert Pow256(4) == 0x1_0000_0000;
    assert Pow256(5) == 0x100_0000_0000;
    assert Pow256(6) == 0x1_0000_0000_0000;
    assert Pow256(7) == 0x100_0000_0000_0000;
  }

  /** The n least significant bytes of x, least significant first. */
  function EncodeLe(x: nat, n: nat): (s: seq<u8>)
    requires x < Pow256(n)
    ensures |s| == n
  {
    if n == 0 then [] else [(x % 256) as u8] + EncodeLe(x / 256, n - 1)
  }

  /** The number whose little-endian bytes are s. */
  function DecodeLe(s: seq<u8>): (x: nat)
    ensures x < Pow256(|s|)
  {
    if |s| == 0 then 0 else s[0] as int + 256 * DecodeLe(s[1..])
  }

  lemma {:induction false} DecodeEncode(x: nat, n: nat)
    requires x < Pow256(n)
    ensures DecodeLe(EncodeLe(x, n)) == x
  {
    if n > 0 {
      DecodeEncode(x / 256, n - 1);
      assert EncodeLe(x, n)[1..] == EncodeLe(x / 256, n - 1);
    }
  }

  lemma {:induction false} EncodeDecode(s: seq<u8>)
    ensures EncodeLe(DecodeLe(s), |s|) == s
  {
    if |s| > 0 {
      EncodeDecode(s[1..]);
      assert s == [s[0]] + s[1..];
    }
  }

  /** Zero is encoded as zero bytes only. */
  lemma {:induction false} EncodeZero(n: nat)
    ensures EncodeLe(0, n) == seq(n, _ => 0 as u8)
  {
    if n > 0 {
      EncodeZero(n - 1);
      assert EncodeLe(0, n) == [0 as u8] + EncodeLe(0, n - 1);
    }
  }

  function LeU16(x: u16): (s: seq<u8>)
    ensures |s| == 2
  {
    Pow256Widths();
    EncodeLe(x as nat, 2)
  }

  function LeU32(x: u32): (s: seq<u8>)
    ensures |s| == 4
  {
    Pow256Widths();
    EncodeLe(x as nat, 4)
  }

  function LeU64(x: u64): (s: seq<u8>)
    ensures |s| == 8
  {
    Pow256Widths();
    EncodeLe(x as nat, 8)
  }

  /** A two's-complement i32 as the u32 with the same bits. */
  function I32Bits(x: i32): (r: u32)
    ensures r as int % 0x1_0000_0000 == x as int % 0x1_0000_0000
  {
    if x < 0 then (x as int + 0x1_0000_0000) as u32 else x as int as u32
  }

  /** The i32 whose two's-complement bits are x. */
  function BitsI32(x: u32): (r: i32)
    ensures r as int % 0x1_0000_0000 == x as int % 0x1_0000_0000
  {
    if x >= 0x8000_0000 then (x as int - 0x1_0000_0000) as i32 else x as int as i32
  }

  lemma I32BitsRoundTrip(x: i32, b: u32)
    ensures BitsI32(I32Bits(x)) == x
    ensures I32Bits(BitsI32(b)) == b
  {
  }

  function LeI32(x: i32): (s: seq<u8>)
    ensures |s| == 4
  {
    LeU32(I32Bits(x))
  }

  function ReadU16(s: seq<u8>, off: nat): (x: u16)
    requires off + 2 <= |s|
  {
    Pow256Widths();
    DecodeLe(s[off..off + 2]) as u16
  }

  function ReadU32(s: seq<u8>, off: nat): (x: u32)
    requires off + 4 <= |s|
  {
    Pow256Widths();
    DecodeLe(s[off..off + 4]) as u32
  }

  function ReadU64(s: seq<u8>, off: nat): (x: u64)
    requires off + 8 <= |s|
  {
    Pow256Widths();
    DecodeLe(s[off..off + 8]) as u64
  }

  function ReadI32(s: seq<u8>, off: nat): (x: i32)
    requires off + 4 <= |s|
  {
    BitsI32(ReadU32(s, off))
  }

  /** Reading a field back from the place it was written gives its value. */
  lemma ReadLeU16(s: seq<u8>, off: nat, x: u16)
    requires off + 2 <= |s| && s[off..off + 2] == LeU16(x)
    ensures ReadU16(s, off) == x
  {
    Pow256Widths();
    DecodeEncode(x as nat, 2);
  }

  lemma ReadLeU32(s: seq<u8>, off: nat, x: u32)
    requires off + 4 <= |s| && s[off..off + 4] == LeU32(x)
    ensures ReadU32(s, off) == x
  {
    Pow256Widths();
    DecodeEncode(x as nat, 4);
  }

  lemma ReadLeU64(s: seq<u8>, off: nat, x: u64)
    requires off + 8 <= |s| && s[off..off + 8] == LeU64(x)
    ensures ReadU64(s, off) == x
  {
    Pow256Widths();
    DecodeEncode(x as nat, 8);
  }

  lemma ReadLeI32(s: seq<u8>, off: nat, x: i32)
    requires off + 4 <= |s| && s[off..off + 4] == LeI32(x)
    ensures ReadI32(s, off) == x
  {
    ReadLeU32(s, off, I32Bits(x));
  }

  /** Where four 4-byte words and a tail sit once concatenated. */
  lemma FourWords(a: seq<u8>, b: seq<u8>, c: seq<u8>, d: seq<u8>, tail: seq<u8>)
    requires |a| == 4 && |b| == 4 && |c| == 4 && |d| == 4
    ensures var s := a + b + c + d + tail;
            s[0..4] == a && s[4..8] == b && s[8..12] == c && s[12..16] == d
  {
    var s := a + b + c + d + tail;
    assert s[0..4] == a;
    assert s[4..8] == b;
    assert s[8..12] == c;
    assert s[12..16] == d;
  }

  /** Where an 8-byte word, two 4-byte words and a tail sit once concatenated. */
  lemma LongTwoWords(a: seq<u8>, b: seq<u8>, c: seq<u8>, tail: seq<u8>)
    requires |a| == 8 && |b| == 4 && |c| == 4
    ensures var s := a + b + c + tail;
            s[0..8] == a && s[8..12] == b && s[12..16] == c
  {
    var s := a + b + c + tail;
    assert s[0..8] == a;
    assert s[8..12] == b;
    assert s[12..16] == c;
  }

  /** A field read inside a prefix is the field read in the whole. */
  lemma ReadInPrefix(s: seq<u8>, n: nat, off: nat)
    requires n <= |s|
    ensures off + 2 <= n ==> ReadU16(s[..n], off) == ReadU16(s, off)
    ensures off + 4 <= n ==> ReadU32(s[..n], off) == ReadU32(s, off)
  {
    if off + 2 <= n {
      assert s[..n][off..off + 2] == s[off..off + 2];
    }
    if off + 4 <= n {
      assert s[..n][off..off + 4] == s[off..off + 4];
    }
  }

  /** A field read inside a window of `n` bytes at `base` is the field read in the whole at `base + off`. */
  lemma ReadInWindow(s: seq<u8>, base: nat, n: nat, off: nat)
    requires base + n <= |s|
    ensures off + 2 <= n ==> ReadU16(s[base..base + n], off) == ReadU16(s, base + off)
    ensures off + 4 <= n ==> ReadU32(s[base..base + n], off) == ReadU32(s, base + off)
  {
    var w := s[base..base + n];
    if off + 2 <= n {
      var x, y := w[off..off + 2], s[base + off..base + off + 2];
      assert forall i | 0 <= i < 2 :: x[i] == y[i];
      assert x == y;
    }
    if off + 4 <= n {
      var x, y := w[off..off + 4], s[base + off..base + off + 4];
      assert forall i | 0 <= i < 4 :: x[i] == y[i];
      assert x == y;
    }
  }

  /** Writing back the value read from a place reproduces its bytes. */
  lemma LeReadU32(s: seq<u8>, off: nat)
    requires off + 4 <= |s|
    ensures LeU32(ReadU32(s, off)) == s[off..off + 4]
  {
    Pow256Widths();
    EncodeDecode(s[off..off + 4]);
  }

  lemma LeReadU64(s: seq<u8>, off: nat)
    requires off + 8 <= |s|
    ensures LeU64(ReadU64(s, off)) == s[off..off + 8]
  {
    Pow256Widths();
    EncodeDecode(s[off..off + 8]);
  }

  lemma LeReadI32(s: seq<u8>, off: nat)
    requires off + 4 <= |s|
    ensures LeI32(ReadI32(s, off)) == s[off..off + 4]
  {
    LeReadU32(s, off);
    I32BitsRoundTrip(0, ReadU32(s, off));
  }
}
