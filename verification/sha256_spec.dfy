// SHA-256 and HMAC as recursive definitions (sections 5.1.1 and 6.2.2 of
// FIPS 180-4; RFC 2104).
module Sha256Spec {
  import opened Bytes

  const BLOCK_SIZE: nat := 64

  // ---- Padding ----

  function Zeros(n: nat): (bytes: seq<byte>)
    ensures |bytes| == n && forall i :: 0 <= i < n ==> bytes[i] == 0
  {
    seq(n, _ => 0)
  }

  /** The zero bytes that bring message, mark and length to a whole number of blocks. */
  function ZeroCount(n: nat): (k: nat)
    ensures k < BLOCK_SIZE && (n + 9 + k) % BLOCK_SIZE == 0
  {
    (BLOCK_SIZE - (n + 9) % BLOCK_SIZE) % BLOCK_SIZE
  }

  function Pad(message: seq<byte>): (padded: seq<byte>)
    ensures |padded| == |message| + 9 + ZeroCount(|message|)
  {
    message + [0x80] + Zeros(ZeroCount(|message|)) + ToBigEndian(8 * |message|, 8)
  }

  lemma BlocksApart(m: nat, n: nat, i: nat, j: nat)
    requires m == BLOCK_SIZE * i && n == BLOCK_SIZE * j && m < n
    ensures m + BLOCK_SIZE <= n
  {
  }

  /** The padding fills whole blocks, with no block to spare. */
  lemma PaddingIsMinimal(message: seq<byte>, n: nat)
    ensures |Pad(message)| % BLOCK_SIZE == 0
    ensures |message| + 9 <= n && n % BLOCK_SIZE == 0 ==> |Pad(message)| <= n
  {
    if |message| + 9 <= n < |Pad(message)| && n % BLOCK_SIZE == 0 {
      BlocksApart(n, |Pad(message)|, n / BLOCK_SIZE, |Pad(message)| / BLOCK_SIZE);
    }
  }

  lemma LowBytes(n: nat)
    ensures var b := ToBigEndian(n, 8); b[7] == n % 256 && b[6] == n / 256 % 256
  {
    assert ToBigEndian(n / 256, 7)[6] == n / 256 % 256;
  }

  /** Different messages have different paddings, whatever their lengths. */
  lemma PadInjective(a: seq<byte>, b: seq<byte>)
    requires Pad(a) == Pad(b)
    ensures a == b
  {
    var n := |Pad(a)|;
    assert Pad(a)[n - 8..] == ToBigEndian(8 * |a|, 8) && Pad(b)[n - 8..] == ToBigEndian(8 * |b|, 8);
    LowBytes(8 * |a|);
    LowBytes(8 * |b|);
    CloseNumbers(8 * |a|, 8 * |b|);
    assert Pad(a)[..|a|] == a && Pad(b)[..|b|] == b;
  }

  lemma CloseNumbers(m: nat, n: nat)
    requires m % 256 == n % 256 && m / 256 % 256 == n / 256 % 256
    requires -512 < m - n < 512
    ensures m == n
  {
  }

  // ---- Compression, over any words ----

  datatype Vars<W> = Vars(a: W, b: W, c: W, d: W, e: W, f: W, g: W, h: W)

  /** The functions on words that the hash is made of. Everything below up to
      the 32-bit words themselves is said, and proved, for any such functions. */
  datatype WordFunctions<!W> = WordFunctions(
    fromNumber: nat -> W, number: W -> nat, add: (W, W) -> W,
    choose: (W, W, W) -> W, majority: (W, W, W) -> W,
    bigSigma0: W -> W, bigSigma1: W -> W, sigma0: W -> W, sigma1: W -> W,
    k: nat -> W, initial: Vars<W>)

  /** The message schedule of a block. */
  function Schedule<W>(fn: WordFunctions<W>, block: seq<byte>, t: nat): (w: W)
    requires |block| == BLOCK_SIZE && t < 64
  {
    if t < 16 then fn.fromNumber(BigEndian(block[4 * t..4 * t + 4]))
    else
      fn.add(fn.add(fn.add(fn.sigma1(Schedule(fn, block, t - 2)), Schedule(fn, block, t - 7)),
                    fn.sigma0(Schedule(fn, block, t - 15))),
             Schedule(fn, block, t - 16))
  }

  function Round<W>(fn: WordFunctions<W>, v: Vars<W>, k: W, w: W): (r: Vars<W>) {
    var t1 := fn.add(fn.add(fn.add(fn.add(v.h, fn.bigSigma1(v.e)), fn.choose(v.e, v.f, v.g)), k), w);
    var t2 := fn.add(fn.bigSigma0(v.a), fn.majority(v.a, v.b, v.c));
    Vars(fn.add(t1, t2), v.a, v.b, v.c, fn.add(v.d, t1), v.e, v.f, v.g)
  }

  function Rounds<W>(fn: WordFunctions<W>, v: Vars<W>, block: seq<byte>, t: nat): (r: Vars<W>)
    requires |block| == BLOCK_SIZE && t <= 64
  {
    if t == 0 then v
    else Round(fn, Rounds(fn, v, block, t - 1), fn.k(t - 1), Schedule(fn, block, t - 1))
  }

  function Sum<W>(fn: WordFunctions<W>, u: Vars<W>, v: Vars<W>): (r: Vars<W>) {
    Vars(fn.add(u.a, v.a), fn.add(u.b, v.b), fn.add(u.c, v.c), fn.add(u.d, v.d),
         fn.add(u.e, v.e), fn.add(u.f, v.f), fn.add(u.g, v.g), fn.add(u.h, v.h))
  }

  /** The hash value after the first blocks of a padded message. */
  function HashValue<W>(fn: WordFunctions<W>, padded: seq<byte>, blocks: nat): (v: Vars<W>)
    requires BLOCK_SIZE * blocks <= |padded|
  {
    if blocks == 0 then fn.initial
    else
      var v := HashValue(fn, padded, blocks - 1);
      Sum(fn, v, Rounds(fn, v, BlockAt(padded, BLOCK_SIZE * (blocks - 1)), 64))
  }

  function BlockAt(padded: seq<byte>, offset: nat): (block: seq<byte>)
    requires offset + BLOCK_SIZE <= |padded|
    ensures |block| == BLOCK_SIZE
  {
    padded[offset..offset + BLOCK_SIZE]
  }

  function WordBytes<W>(fn: WordFunctions<W>, words: seq<W>): (bytes: seq<byte>)
    ensures |bytes| == 4 * |words|
  {
    if words == [] then [] else WordBytes(fn, words[..|words| - 1]) + ToBigEndian(fn.number(words[|words| - 1]), 4)
  }

  function WordsOf<W>(v: Vars<W>): (words: seq<W>)
    ensures |words| == 8
  {
    [v.a, v.b, v.c, v.d, v.e, v.f, v.g, v.h]
  }

  function DigestWith<W>(fn: WordFunctions<W>, message: seq<byte>): (digest: seq<byte>)
    ensures |digest| == 32
  {
    WordBytes(fn, WordsOf(HashValue(fn, Pad(message), |Pad(message)| / BLOCK_SIZE)))
  }

  // ---- The 32-bit words of SHA-256 ----

  type Word = bv32

  const K: seq<Word> :=
    [0x428a2f98, 0x71374491, 0xb5c0fbcf, 0xe9b5dba5, 0x3956c25b, 0x59f111f1, 0x923f82a4, 0xab1c5ed5] +
    [0xd807aa98, 0x12835b01, 0x243185be, 0x550c7dc3, 0x72be5d74, 0x80deb1fe, 0x9bdc06a7, 0xc19bf174] +
    [0xe49b69c1, 0xefbe4786, 0x0fc19dc6, 0x240ca1cc, 0x2de92c6f, 0x4a7484aa, 0x5cb0a9dc, 0x76f988da] +
    [0x983e5152, 0xa831c66d, 0xb00327c8, 0xbf597fc7, 0xc6e00bf3, 0xd5a79147, 0x06ca6351, 0x14292967] +
    [0x27b70a85, 0x2e1b2138, 0x4d2c6dfc, 0x53380d13, 0x650a7354, 0x766a0abb, 0x81c2c92e, 0x92722c85] +
    [0xa2bfe8a1, 0xa81a664b, 0xc24b8b70, 0xc76c51a3, 0xd192e819, 0xd6990624, 0xf40e3585, 0x106aa070] +
    [0x19a4c116, 0x1e376c08, 0x2748774c, 0x34b0bcb5, 0x391c0cb3, 0x4ed8aa4a, 0x5b9cca4f, 0x682e6ff3] +
    [0x748f82ee, 0x78a5636f, 0x84c87814, 0x8cc70208, 0x90befffa, 0xa4506ceb, 0xbef9a3f7, 0xc67178f2]

  function RotateRight(x: Word, n: bv6): (r: Word)
    requires 0 < n < 32
  {
    (x >> n) | (x << (32 - n))
  }

  function Choose(x: Word, y: Word, z: Word): (r: Word) {
    (x & y) ^ (!x & z)
  }

  function Majority(x: Word, y: Word, z: Word): (r: Word) {
    (x & y) ^ (x & z) ^ (y & z)
  }

  function BigSigma0(x: Word): (r: Word) {
    RotateRight(x, 2) ^ RotateRight(x, 13) ^ RotateRight(x, 22)
  }

  function BigSigma1(x: Word): (r: Word) {
    RotateRight(x, 6) ^ RotateRight(x, 11) ^ RotateRight(x, 25)
  }

  function Sigma0(x: Word): (r: Word) {
    RotateRight(x, 7) ^ RotateRight(x, 18) ^ (x >> 3)
  }

  function Sigma1(x: Word): (r: Word) {
    RotateRight(x, 17) ^ RotateRight(x, 19) ^ (x >> 10)
  }

  const SHA256: WordFunctions<Word> := WordFunctions(
    n => (n % 0x1_0000_0000) as Word, w => w as nat, (x, y) => x + y,
    Choose, Majority, BigSigma0, BigSigma1, Sigma0, Sigma1,
    t => if t < 64 then K[t] else 0,
    Vars(0x6a09e667, 0xbb67ae85, 0x3c6ef372, 0xa54ff53a, 0x510e527f, 0x9b05688c, 0x1f83d9ab, 0x5be0cd19))

  function Digest(message: seq<byte>): (digest: seq<byte>)
    ensures |digest| == 32
  {
    DigestWith(SHA256, message)
  }

  // ---- HMAC ----

  function XorAll(bytes: seq<byte>, x: byte): (r: seq<byte>)
    ensures |r| == |bytes| && forall i :: 0 <= i < |bytes| ==> r[i] == Xor(bytes[i], x)
  {
    seq(|bytes|, i requires 0 <= i < |bytes| => Xor(bytes[i], x))
  }

  /** The key as a block: a long key is hashed, and zeros follow. */
  function KeyBlock(key: seq<byte>): (block: seq<byte>)
    ensures |block| == BLOCK_SIZE
  {
    var short := if |key| > BLOCK_SIZE then Digest(key) else key;
    short + Zeros(BLOCK_SIZE - |short|)
  }

  function Hmac(key: seq<byte>, message: seq<byte>): (tag: seq<byte>)
    ensures |tag| == 32
  {
    Digest(XorAll(KeyBlock(key), 0x5c) + Digest(XorAll(KeyBlock(key), 0x36) + message))
  }

  /** Two keys that fit in a block are used alike exactly when they differ in nothing but zeros at the end. */
  lemma KeysAlike(s: seq<byte>, t: seq<byte>)
    requires |s| <= |t| <= BLOCK_SIZE
    ensures KeyBlock(s) == KeyBlock(t) <==> t == s + Zeros(|t| - |s|)
  {
    assert KeyBlock(s)[..|t|] == s + Zeros(|t| - |s|);
    assert KeyBlock(t)[..|t|] == t;
    if t == s + Zeros(|t| - |s|) {
      assert KeyBlock(s) == s + Zeros(BLOCK_SIZE - |s|);
    }
  }
}
