/** Shared vocabulary of the converter: fixed-width integers, byte strings,
    big-endian encoding, the error type of the region codecs and the
    compression capability that both container formats depend on. */
module Common {

  type byte = b: int | 0 <= b < 0x100
  type u16 = x: int | 0 <= x < 0x1_0000
  type u32 = x: int | 0 <= x < 0x1_0000_0000
  type u64 = x: int | 0 <= x < 0x1_0000_0000_0000_0000
  type i8 = x: int | -0x80 <= x < 0x80
  type i32 = x: int | -0x8000_0000 <= x < 0x8000_0000

  datatype Option<+T> = None | Some(value: T)

  /** The failures a region codec reports. The first seven are the variants of
      the library's own error enum; the last two stand for the context-wrapped
      errors raised while reading coordinates and external chunk files. */
  datatype Error =
    | InvalidSignature(expectedSignature: u64, foundSignature: u64)
    | UnsupportedVersion(version: byte)
    | InvalidChunkCount(expected: u16, found: u16)
    | DecompressionFailed
    | CompressionFailed
    | Io
    | InvalidFormat
    | InvalidCoordinate
    | ExternalChunkFailed

  datatype Result<+T> = Ok(value: T) | Err(error: Error)

  /** A compression backend: a compressor parameterised by a numeric level and
      a decompressor. Both are foreign code; the model only passes them around. */
  datatype Codec = Codec(
    compress: (seq<byte>, int) -> Option<seq<byte>>,
    decompress: seq<byte> -> Option<seq<byte>>)

  /** The assumption that decompression undoes compression. It is never proved:
      round-trip lemmas take it as a precondition. */
  ghost predicate Lossless(c: Codec)
  {
    forall b, level :: c.compress(b, level).Some? ==> c.decompress(c.compress(b, level).value) == Some(b)
  }

  /** The stronger assumption, true of a streaming zlib decoder, that bytes
      after the end of the compressed stream are ignored. */
  ghost predicate StopsAtStreamEnd(c: Codec)
  {
    forall b, level, tail :: c.compress(b, level).Some? ==> c.decompress(c.compress(b, level).value + tail) == Some(b)
  }

  function Min(a: int, b: int): int { if a <= b then a else b }
  function Max(a: int, b: int): int { if a >= b then a else b }

  function Zeros(n: nat): (r: seq<byte>)
    ensures |r| == n && forall i :: 0 <= i < n ==> r[i] == 0
  {
    seq(n, _ => 0)
  }

  /** Vec::resize: truncate to n bytes, or pad with zero bytes up to n. */
  function Resize(s: seq<byte>, n: nat): (r: seq<byte>)
    ensures |r| == n
    ensures n <= |s| ==> r == s[..n]
    ensures |s| <= n ==> r[..|s|] == s && r[|s|..] == Zeros(n - |s|)
  {
    if n <= |s| then s[..n] else s + Zeros(n - |s|)
  }

  /** Concatenation of the encodings of a sequence of records, in order. */
  function Flatten<T>(xs: seq<T>, enc: T -> seq<byte>): seq<byte>
  {
    if |xs| == 0 then [] else Flatten(xs[..|xs| - 1], enc) + enc(xs[|xs| - 1])
  }

  lemma {:induction false} FlattenFixed<T>(xs: seq<T>, enc: T -> seq<byte>, w: nat, j: nat)
    requires forall x :: |enc(x)| == w
    requires j < |xs|
    ensures |Flatten(xs, enc)| == w * |xs|
    ensures Flatten(xs, enc)[w * j .. w * j + w] == enc(xs[j])
  {
    var n := |xs|;
    var init := xs[..n - 1];
    assert Flatten(xs, enc) == Flatten(init, enc) + enc(xs[n - 1]);
    FlattenLength(init, enc, w);
    assert w * n == w * (n - 1) + w;
    if j < n - 1 {
      FlattenFixed(init, enc, w, j);
      assert w * j + w <= w * (n - 1) by {
        MulMono(w, j + 1, n - 1);
        assert w * (j + 1) == w * j + w;
      }
      assert init[j] == xs[j];
    } else {
      assert w * j == w * (n - 1);
    }
  }

  lemma {:induction false} FlattenLength<T>(xs: seq<T>, enc: T -> seq<byte>, w: nat)
    requires forall x :: |enc(x)| == w
    ensures |Flatten(xs, enc)| == w * |xs|
  {
    if |xs| > 0 {
      FlattenLength(xs[..|xs| - 1], enc, w);
      assert w * |xs| == w * (|xs| - 1) + w;
    }
  }

  /** Extending the sequence of records extends the flattening. */
  lemma FlattenPush<T>(xs: seq<T>, x: T, enc: T -> seq<byte>)
    ensures Flatten(xs + [x], enc) == Flatten(xs, enc) + enc(x)
  {
    assert (xs + [x])[..|xs|] == xs;
  }

  // ---------------------------------------------------------------------
  // Arithmetic helpers

  lemma MulMono(a: int, b: int, c: int)
    requires a >= 0 && b <= c
    ensures a * b <= a * c
  {
    assert a * c - a * b == a * (c - b);
  }

  lemma DivModUnique(u: int, m: int, q: int, r: int)
    requires m > 0 && 0 <= r < m && u == m * q + r
    ensures u % m == r && u / m == q
  {
    var q', r' := u / m, u % m;
    assert u == m * q' + r';
    assert m * (q + 1) == m * q + m;
    assert m * (q' + 1) == m * q' + m;
    if q' > q {
      MulMono(m, q + 1, q');
    } else if q' < q {
      MulMono(m, q' + 1, q);
    }
  }

  /** Splitting off the lowest digit in base b. */
  lemma ModSplit(u: nat, b: nat, p: nat)
    requires b >= 1 && p >= 1
    ensures u % (b * p) == b * ((u / b) % p) + u % b
  {
    var q := u / b;
    var hi := q / p;
    var lo := q % p;
    assert q == p * hi + lo;
    assert u == b * q + u % b;
    assert b * q == b * (p * hi) + b * lo;
    assert b * (p * hi) == (b * p) * hi;
    assert b * lo + u % b < b * p by {
      MulMono(b, lo + 1, p);
      assert b * (lo + 1) == b * lo + b;
    }
    DivModUnique(u, b * p, hi, b * lo + u % b);
  }

  // ---------------------------------------------------------------------
  // Big-endian integers

  function Pow256(n: nat): (r: nat)
    ensures r >= 1
  {
    if n == 0 then 1 else 256 * Pow256(n - 1)
  }

  /** The n low-order bytes of v, most significant first (`to_be_bytes` of a
      value already truncated to n bytes). */
  function ToBE(v: nat, n: nat): (r: seq<byte>)
    ensures |r| == n
  {
    if n == 0 then [] else ToBE(v / 256, n - 1) + [v % 256]
  }

  /** `from_be_bytes`: the value of a big-endian byte string. */
  function FromBE(s: seq<byte>): (r: nat)
    ensures r < Pow256(|s|)
  {
    if |s| == 0 then 0
    else
      var hi := FromBE(s[..|s| - 1]);
      MulMono(256, hi + 1, Pow256(|s| - 1));
      hi * 256 + s[|s| - 1]
  }

  /** Decoding an encoding gives back the value reduced to the encoding width. */
  lemma {:induction false} FromToBE(v: nat, n: nat)
    ensures FromBE(ToBE(v, n)) == v % Pow256(n)
  {
    if n > 0 {
      var s := ToBE(v, n);
      assert s[..n - 1] == ToBE(v / 256, n - 1);
      FromToBE(v / 256, n - 1);
      ModSplit(v, 256, Pow256(n - 1));
    }
  }

  lemma FromToBEExact(v: nat, n: nat)
    requires v < Pow256(n)
    ensures FromBE(ToBE(v, n)) == v
  {
    FromToBE(v, n);
  }

  /** Encoding a decoded byte string gives back the byte string. */
  lemma {:induction false} ToFromBE(s: seq<byte>)
    ensures ToBE(FromBE(s), |s|) == s
  {
    if |s| > 0 {
      var n := |s|;
      var hi := FromBE(s[..n - 1]);
      DivModUnique(hi * 256 + s[n - 1], 256, hi, s[n - 1]);
      ToFromBE(s[..n - 1]);
      assert s == s[..n - 1] + [s[n - 1]];
    }
  }

  /** A leading zero byte does not change the value. */
  lemma {:induction false} FromBELeadingZero(s: seq<byte>)
    ensures FromBE([0] + s) == FromBE(s)
  {
    if |s| > 0 {
      var n := |s|;
      assert ([0] + s)[..n] == [0] + s[..n - 1];
      FromBELeadingZero(s[..n - 1]);
    }
  }

  /** Dropping the most significant byte of an encoding is encoding in one
      byte fewer. */
  lemma {:induction false} ToBEDropHigh(v: nat, n: nat)
    ensures ToBE(v, n + 1)[1..] == ToBE(v, n)
  {
    if n > 0 {
      ToBEDropHigh(v / 256, n - 1);
    }
  }

  lemma Pow256Values()
    ensures Pow256(1) == 0x100 && Pow256(2) == 0x1_0000 && Pow256(3) == 0x100_0000
    ensures Pow256(4) == 0x1_0000_0000 && Pow256(8) == 0x1_0000_0000_0000_0000
  {
    assert Pow256(2) == 0x1_0000;
    assert Pow256(4) == 0x1_0000_0000;
    assert Pow256(6) == 0x1_0000_0000_0000;
  }

  /** Two's-complement conversions of the casts `as u8` (i8 -> u8) and
      `as i8` (u8 -> i8). */
  function I8ToByte(x: i8): byte { if x < 0 then x + 0x100 else x }
  function ByteToI8(b: byte): i8 { if b >= 0x80 then b - 0x100 else b }

  /** Rust's truncating `as i8` / `as u32` casts and release-mode i32 arithmetic. */
  function WrapI8(x: int): i8 { ByteToI8(x % 0x100) }
  function WrapU32(x: int): u32 { x % 0x1_0000_0000 }
  function WrapI32(x: int): i32
  {
    var u := x % 0x1_0000_0000;
    if u >= 0x8000_0000 then u - 0x1_0000_0000 else u
  }

  // ---------------------------------------------------------------------
  // Bitwise AND on non-negative integers, bit by bit from the lowest

  function Pow2(k: nat): (r: nat)
    ensures r >= 1
  {
    if k == 0 then 1 else 2 * Pow2(k - 1)
  }

  function BitAnd(a: nat, b: nat): nat
  {
    if a == 0 || b == 0 then 0 else 2 * BitAnd(a / 2, b / 2) + (a % 2) * (b % 2)
  }

  /** Masking with 2^k - 1 keeps the k low bits: `u & (2^k - 1) == u % 2^k`. */
  lemma {:induction false} BitAndLowMask(u: nat, k: nat)
    ensures BitAnd(u, Pow2(k) - 1) == u % Pow2(k)
  {
    if k == 0 {
      assert Pow2(k) == 1;
    } else if u == 0 {
      assert BitAnd(u, Pow2(k) - 1) == 0;
    } else {
      var p := Pow2(k - 1);
      var m := Pow2(k) - 1;
      assert Pow2(k) == 2 * p;
      assert m == 2 * (p - 1) + 1;
      DivModUnique(m, 2, p - 1, 1);
      assert BitAnd(u, m) == 2 * BitAnd(u / 2, p - 1) + u % 2;
      BitAndLowMask(u / 2, k - 1);
      ModSplit(u, 2, p);
      assert BitAnd(u, m) == u % (2 * p);
    }
  }

  /** The bit pattern of a 32-bit two's-complement integer, read as unsigned. */
  function Unsigned32(x: i32): (u: nat)
    ensures u < 0x1_0000_0000 && u % 0x1_0000_0000 == x % 0x1_0000_0000
  {
    if x < 0 then x + 0x1_0000_0000 else x
  }
}
