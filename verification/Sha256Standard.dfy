/**
 Words, bytes and the two bitwise choice functions of SHA-256 (FIPS 180-4, section 4.1.2), with
 the shorter forms the implementation's macros use.
 */
module Sha256Words {

  type Byte = bv8
  type Word32 = bv32

  function Ch(x: Word32, y: Word32, z: Word32): Word32 { (x & y) ^ (!x & z) }

  function Maj(x: Word32, y: Word32, z: Word32): Word32 { (x & y) ^ (x & z) ^ (y & z) }

  function F1(x: Word32, y: Word32, z: Word32): Word32 { z ^ (x & (y ^ z)) }

  function F0(x: Word32, y: Word32, z: Word32): Word32 { (x & y) | (z & (x | y)) }

  /** The macros F1 and F0 choose and vote with fewer operations than the standard's Ch and Maj. */
  lemma F1IsCh(x: Word32, y: Word32, z: Word32)
    ensures F1(x, y, z) == Ch(x, y, z)
  {
    Choose(x, y, z);
  }

  lemma Choose(x: Word32, y: Word32, z: Word32)
    ensures z ^ (x & (y ^ z)) == (x & y) ^ (!x & z)
  {
  }

  lemma F0IsMaj(x: Word32, y: Word32, z: Word32)
    ensures F0(x, y, z) == Maj(x, y, z)
  {
    Vote(x, y, z);
  }

  lemma Vote(x: Word32, y: Word32, z: Word32)
    ensures (x & y) | (z & (x | y)) == (x & y) ^ (x & z) ^ (y & z)
  {
  }

  /** Four bytes as a word, the first byte most significant. */
  function WordOf(b0: Byte, b1: Byte, b2: Byte, b3: Byte): Word32 {
    ((b0 as Word32) << 24) | ((b1 as Word32) << 16) | ((b2 as Word32) << 8) | (b3 as Word32)
  }

  function BytesOf(w: Word32): (s: seq<Byte>)
    ensures |s| == 4
  {
    [((w >> 24) & 0xFF) as Byte, ((w >> 16) & 0xFF) as Byte, ((w >> 8) & 0xFF) as Byte, (w & 0xFF) as Byte]
  }

  lemma WordsAndBytes(w: Word32, b0: Byte, b1: Byte, b2: Byte, b3: Byte)
    ensures var s := BytesOf(w); WordOf(s[0], s[1], s[2], s[3]) == w
    ensures BytesOf(WordOf(b0, b1, b2, b3)) == [b0, b1, b2, b3]
  {
  }
}

/**
 SHA-256 and SHA-224 as FIPS 180-4 defines them: functions (section 4.1.2), constants
 (4.2.2), padding (5.1.1), initial values (5.3.2, 5.3.3) and the hash computation (6.2.2).
 */
module Sha256Standard {
  import opened Sha256Words

  /** Addition modulo 2^32. */
  function Add(x: Word32, y: Word32): Word32 { x + y }

  function RotR(n: nat, x: Word32): Word32
    requires 0 < n < 32
  {
    (x >> n) | (x << (32 - n))
  }

  function BigSigma0(x: Word32): Word32 { RotR(2, x) ^ RotR(13, x) ^ RotR(22, x) }

  function BigSigma1(x: Word32): Word32 { RotR(6, x) ^ RotR(11, x) ^ RotR(25, x) }

  function SmallSigma0(x: Word32): Word32 { RotR(7, x) ^ RotR(18, x) ^ (x >> 3) }

  function SmallSigma1(x: Word32): Word32 { RotR(17, x) ^ RotR(19, x) ^ (x >> 10) }

  /** The round constants, in rows of eight. */
  const K0: seq<Word32> :=
    [0x428A2F98, 0x71374491, 0xB5C0FBCF, 0xE9B5DBA5, 0x3956C25B, 0x59F111F1, 0x923F82A4, 0xAB1C5ED5]
  const K1: seq<Word32> :=
    [0xD807AA98, 0x12835B01, 0x243185BE, 0x550C7DC3, 0x72BE5D74, 0x80DEB1FE, 0x9BDC06A7, 0xC19BF174]
  const K2: seq<Word32> :=
    [0xE49B69C1, 0xEFBE4786, 0x0FC19DC6, 0x240CA1CC, 0x2DE92C6F, 0x4A7484AA, 0x5CB0A9DC, 0x76F988DA]
  const K3: seq<Word32> :=
    [0x983E5152, 0xA831C66D, 0xB00327C8, 0xBF597FC7, 0xC6E00BF3, 0xD5A79147, 0x06CA6351, 0x14292967]
  const K4: seq<Word32> :=
    [0x27B70A85, 0x2E1B2138, 0x4D2C6DFC, 0x53380D13, 0x650A7354, 0x766A0ABB, 0x81C2C92E, 0x92722C85]
  const K5: seq<Word32> :=
    [0xA2BFE8A1, 0xA81A664B, 0xC24B8B70, 0xC76C51A3, 0xD192E819, 0xD6990624, 0xF40E3585, 0x106AA070]
  const K6: seq<Word32> :=
    [0x19A4C116, 0x1E376C08, 0x2748774C, 0x34B0BCB5, 0x391C0CB3, 0x4ED8AA4A, 0x5B9CCA4F, 0x682E6FF3]
  const K7: seq<Word32> :=
    [0x748F82EE, 0x78A5636F, 0x84C87814, 0x8CC70208, 0x90BEFFFA, 0xA4506CEB, 0xBEF9A3F7, 0xC67178F2]

  const K: seq<Word32> := K0 + (K1 + (K2 + (K3 + (K4 + (K5 + (K6 + K7))))))

  /** The working variables, and also a hash value H0..H7. */
  datatype Vars = Vars(a: Word32, b: Word32, c: Word32, d: Word32, e: Word32, f: Word32, g: Word32, h: Word32)

  function InitialValue(is224: bool): Vars {
    if is224 then
      Vars(0xC1059ED8, 0x367CD507, 0x3070DD17, 0xF70E5939, 0xFFC00B31, 0x68581511, 0x64F98FA7, 0xBEFA4FA4)
    else
      Vars(0x6A09E667, 0xBB67AE85, 0x3C6EF372, 0xA54FF53A, 0x510E527F, 0x9B05688C, 0x1F83D9AB, 0x5BE0CD19)
  }

  type Block = s: seq<Byte> | |s| == 64 witness seq(64, i => 0)

  /** Step 1: the message schedule. */
  function Schedule(m: Block, t: nat): Word32 {
    if t < 16 then WordOf(m[4 * t], m[4 * t + 1], m[4 * t + 2], m[4 * t + 3])
    else
      Add(Add(Add(SmallSigma1(Schedule(m, t - 2)), Schedule(m, t - 7)), SmallSigma0(Schedule(m, t - 15))),
          Schedule(m, t - 16))
  }

  function T1(e: Word32, f: Word32, g: Word32, h: Word32, k: Word32, w: Word32): Word32 {
    Add(Add(Add(Add(h, BigSigma1(e)), Ch(e, f, g)), k), w)
  }

  function T2(a: Word32, b: Word32, c: Word32): Word32 { Add(BigSigma0(a), Maj(a, b, c)) }

  /** Step 3: one round. */
  function Round(v: Vars, k: Word32, w: Word32): Vars {
    var t1, t2 := T1(v.e, v.f, v.g, v.h, k, w), T2(v.a, v.b, v.c);
    Vars(Add(t1, t2), v.a, v.b, v.c, Add(v.d, t1), v.e, v.f, v.g)
  }

  function Rounds(v: Vars, m: Block, t: nat): Vars
    requires t <= 64
  {
    if t == 0 then v else Round(Rounds(v, m, t - 1), K[t - 1], Schedule(m, t - 1))
  }

  function Plus(x: Vars, y: Vars): Vars {
    Vars(Add(x.a, y.a), Add(x.b, y.b), Add(x.c, y.c), Add(x.d, y.d),
         Add(x.e, y.e), Add(x.f, y.f), Add(x.g, y.g), Add(x.h, y.h))
  }

  /** Steps 2 and 4: the next intermediate hash value. */
  function Compress(h: Vars, m: Block): Vars { Plus(h, Rounds(h, m, 64)) }

  /** The hash value after all complete blocks of `data`. */
  function Absorb(h: Vars, data: seq<Byte>): Vars
    decreases |data|
  {
    if |data| < 64 then h else Absorb(Compress(h, data[..64]), data[64..])
  }

  /** The smallest count of zero bytes with n + 1 + count = 56 modulo 64. */
  function ZeroCount(n: nat): (k: nat)
    ensures (n + 1 + k) % 64 == 56 && k < 64
  {
    (119 - n % 64) % 64
  }

  /** `x` as eight bytes, most significant first. */
  function Length64(x: nat): (s: seq<Byte>)
    requires x < 0x1_0000_0000_0000_0000
    ensures |s| == 8
  {
    ByteWord(x / 0x1_0000_0000) + ByteWord(x % 0x1_0000_0000)
  }

  function ByteWord(x: nat): (s: seq<Byte>)
    requires x < 0x1_0000_0000
    ensures |s| == 4
  {
    [(x / 0x100_0000) as Byte, (x / 0x1_0000 % 0x100) as Byte, (x / 0x100 % 0x100) as Byte, (x % 0x100) as Byte]
  }

  /** The padded message. The standard admits messages of fewer than 2^64 bits; beyond that the
      length field is taken modulo 2^64. */
  function Pad(msg: seq<Byte>): (s: seq<Byte>)
    ensures |s| == |msg| + 1 + ZeroCount(|msg|) + 8
  {
    msg + [0x80] + seq(ZeroCount(|msg|), i => 0) + Length64(8 * |msg| % 0x1_0000_0000_0000_0000)
  }

  /** The padding of section 5.1.1: a one bit, the fewest zeros, and the length. */
  lemma PadIs(msg: seq<Byte>)
    ensures var p, n := Pad(msg), |msg|;
      && p[..n] == msg && p[n] == 0x80
      && (forall i :: n < i < |p| - 8 ==> p[i] == 0)
      && p[|p| - 8..] == Length64(8 * n % 0x1_0000_0000_0000_0000)
  {
    hide Length64, ZeroCount;
  }

  lemma PadFillsBlocks(msg: seq<Byte>)
    ensures |Pad(msg)| % 64 == 0
  {
    EightMore(|msg| + 1 + ZeroCount(|msg|));
  }

  lemma EightMore(x: nat)
    requires x % 64 == 56
    ensures (x + 8) % 64 == 0
  {
  }

  function Digest(msg: seq<Byte>, is224: bool): (s: seq<Byte>)
    ensures |s| == if is224 then 28 else 32
  {
    var h := Absorb(InitialValue(is224), Pad(msg));
    BytesOf(h.a) + BytesOf(h.b) + BytesOf(h.c) + BytesOf(h.d) + BytesOf(h.e) + BytesOf(h.f) + BytesOf(h.g) +
    (if is224 then [] else BytesOf(h.h))
  }

  // ---------------------------------------------------------------------------------------
  // Absorbing in pieces.
  // ---------------------------------------------------------------------------------------

  lemma {:induction false} AbsorbConcat(h: Vars, x: seq<Byte>, y: seq<Byte>)
    requires |x| % 64 == 0
    ensures Absorb(h, x + y) == Absorb(Absorb(h, x), y)
    decreases |x|
  {
    hide Compress;
    if |x| == 0 {
      assert x + y == y;
    } else {
      assert (x + y)[..64] == x[..64] && (x + y)[64..] == x[64..] + y;
      AbsorbConcat(Compress(h, x[..64]), x[64..], y);
    }
  }

  /** One block is compressed once, so that AbsorbConcat says what is done with any number of them. */
  lemma AbsorbOne(h: Vars, block: Block)
    ensures Absorb(h, block) == Compress(h, block) && Absorb(h, []) == h
  {
    assert block[..64] == block && block[64..] == [];
    hide Compress;
  }

  function WholeBlocks(data: seq<Byte>): (n: nat)
    ensures n <= |data| && n % 64 == 0 && |data| - n < 64
  {
    |data| / 64 * 64
  }

  /** What has not filled a block yet. */
  function Tail(data: seq<Byte>): (s: seq<Byte>)
    ensures |s| == |data| % 64
  {
    data[WholeBlocks(data)..]
  }

  lemma AbsorbIgnoresTail(h: Vars, data: seq<Byte>)
    ensures Absorb(h, data) == Absorb(h, data[..WholeBlocks(data)])
  {
    var n := WholeBlocks(data);
    assert data == data[..n] + data[n..];
    AbsorbConcat(h, data[..n], data[n..]);
  }

  /** Appending to a message: only its tail matters. */
  lemma AbsorbAppend(h: Vars, msg: seq<Byte>, more: seq<Byte>)
    ensures Absorb(h, msg + more) == Absorb(Absorb(h, msg), Tail(msg) + more)
    ensures Tail(msg + more) == Tail(Tail(msg) + more)
  {
    var n := WholeBlocks(msg);
    assert msg + more == msg[..n] + (Tail(msg) + more);
    AbsorbConcat(h, msg[..n], Tail(msg) + more);
    AbsorbIgnoresTail(h, msg);
    TailOfConcat(msg[..n], Tail(msg) + more);
  }

  lemma BlocksOfSum(j: nat, k: nat)
    requires j % 64 == 0
    ensures (j + k) / 64 * 64 == j + k / 64 * 64
  {
  }

  lemma TailOfConcat(x: seq<Byte>, y: seq<Byte>)
    requires |x| % 64 == 0
    ensures Tail(x + y) == Tail(y)
  {
    BlocksOfSum(|x|, |y|);
  }
}
