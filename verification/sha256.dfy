// SHA-256 and HMAC as they run (app/src/features/auth/hmacSha256.ts).
module Sha256 {
  import opened Bytes
  import opened Sha256Spec
  import Base64Url
  import Base64UrlSpec
  import Utf8
  import opened Sequences

  // ---- Padding ----

  lemma PaddedLength(n: nat)
    ensures (n + 9 + 63) / BLOCK_SIZE * BLOCK_SIZE == n + 9 + ZeroCount(n)
  {
  }

  lemma FourBytes(n: nat)
    ensures ToBigEndian(n, 4) == [n / 256 / 256 / 256 % 256, n / 256 / 256 % 256, n / 256 % 256, n % 256]
  {
    assert ToBigEndian(n / 256 / 256, 2) == [n / 256 / 256 / 256 % 256, n / 256 / 256 % 256];
    assert ToBigEndian(n / 256, 3) == [n / 256 / 256 / 256 % 256, n / 256 / 256 % 256, n / 256 % 256];
  }

  lemma LowDigits(n: nat, q: nat, r: nat)
    requires n == q * 0x1_0000_0000 + r && r < 0x1_0000_0000
    ensures r / 256 / 256 / 256 % 256 == n / 256 / 256 / 256 % 256 && r / 256 / 256 % 256 == n / 256 / 256 % 256
    ensures r / 256 % 256 == n / 256 % 256 && r % 256 == n % 256
  {
    assert n / 256 == q * 0x100_0000 + r / 256;
    assert n / 256 / 256 == q * 0x1_0000 + r / 256 / 256;
    assert n / 256 / 256 / 256 == q * 0x100 + r / 256 / 256 / 256;
  }

  /** setUint32 keeps the low 32 bits. */
  lemma Truncated(n: nat)
    ensures ToBigEndian(n % 0x1_0000_0000, 4) == ToBigEndian(n, 4)
  {
    FourBytes(n);
    FourBytes(n % 0x1_0000_0000);
    LowDigits(n, n / 0x1_0000_0000, n % 0x1_0000_0000);
  }

  /** The length in bits, written as two halves. */
  lemma TwoHalves(n: nat)
    ensures ToBigEndian(n / 0x1_0000_0000 % 0x1_0000_0000, 4) + ToBigEndian(n % 0x1_0000_0000, 4) == ToBigEndian(n, 8)
  {
    assert Pow256(4) == 0x1_0000_0000;
    Truncated(n / 0x1_0000_0000);
    ToBigEndianSplit(n, n / 0x1_0000_0000, n % 0x1_0000_0000, 4, 4);
  }

  /** The last eight bytes get the length, high half after low half. */
  method WriteLength(padded: array<byte>, bitLength: nat)
    requires padded.Length >= 8
    modifies padded
    ensures padded[..] == old(padded[..padded.Length - 8]) + ToBigEndian(bitLength, 8)
  {
    var n := padded.Length;
    ghost var front := padded[..n - 8];
    WriteUint32(padded, n - 4, bitLength % 0x1_0000_0000);
    assert padded[..n - 8] == front && padded[n - 4..] == ToBigEndian(bitLength % 0x1_0000_0000, 4);
    WriteUint32(padded, n - 8, bitLength / 0x1_0000_0000 % 0x1_0000_0000);
    TwoHalves(bitLength);
  }

  method PadMessage(input: seq<byte>) returns (padded: array<byte>)
    ensures fresh(padded) && padded[..] == Pad(input)
  {
    var paddedLength := (|input| + 9 + 63) / BLOCK_SIZE * BLOCK_SIZE;
    PaddedLength(|input|);
    padded := new byte[paddedLength](_ => 0);
    forall i | 0 <= i < |input| {
      padded[i] := input[i];
    }
    padded[|input|] := 0x80;
    assert padded[..paddedLength - 8] == input + [0x80] + Zeros(ZeroCount(|input|));
    WriteLength(padded, 8 * |input|);
  }

  // ---- Compression ----

  lemma WordInBlock(padded: seq<byte>, offset: nat, i: nat)
    requires offset + BLOCK_SIZE <= |padded| && i < 16
    ensures padded[offset + 4 * i..offset + 4 * i + 4] == BlockAt(padded, offset)[4 * i..4 * i + 4]
  {
    SliceOfSlice(padded, offset, offset + BLOCK_SIZE, 4 * i, 4 * i + 4);
  }

  method FillWords<W>(fn: WordFunctions<W>, padded: seq<byte>, offset: nat, words: array<W>)
    requires offset + BLOCK_SIZE <= |padded| && words.Length == 64
    modifies words
    ensures forall t :: 0 <= t < 64 ==> words[t] == Schedule(fn, BlockAt(padded, offset), t)
  {
    ghost var block := BlockAt(padded, offset);
    for index := 0 to 16
      invariant forall t :: 0 <= t < index ==> words[t] == Schedule(fn, block, t)
    {
      WordInBlock(padded, offset, index);
      words[index] := fn.fromNumber(BigEndian(padded[offset + 4 * index..offset + 4 * index + 4]));
    }
    for index := 16 to 64
      invariant forall t :: 0 <= t < index ==> words[t] == Schedule(fn, block, t)
    {
      words[index] := fn.add(fn.add(fn.add(fn.sigma1(words[index - 2]), words[index - 7]), fn.sigma0(words[index - 15])),
                             words[index - 16]);
    }
  }

  method RunRounds<W>(fn: WordFunctions<W>, start: Vars<W>, words: array<W>, ghost block: seq<byte>)
    returns (v: Vars<W>)
    requires |block| == BLOCK_SIZE && words.Length == 64
    requires forall t :: 0 <= t < 64 ==> words[t] == Schedule(fn, block, t)
    ensures v == Rounds(fn, start, block, 64)
  {
    var a, b, c, d, e, f, g, h := start.a, start.b, start.c, start.d, start.e, start.f, start.g, start.h;
    for index := 0 to 64
      invariant Vars(a, b, c, d, e, f, g, h) == Rounds(fn, start, block, index)
    {
      var t1 := fn.add(fn.add(fn.add(fn.add(h, fn.bigSigma1(e)), fn.choose(e, f, g)), fn.k(index)), words[index]);
      var t2 := fn.add(fn.bigSigma0(a), fn.majority(a, b, c));
      h := g;
      g := f;
      f := e;
      e := fn.add(d, t1);
      d := c;
      c := b;
      b := a;
      a := fn.add(t1, t2);
    }
    v := Vars(a, b, c, d, e, f, g, h);
  }

  function StateVars<W>(state: seq<W>): (v: Vars<W>)
    requires |state| == 8
  {
    Vars(state[0], state[1], state[2], state[3], state[4], state[5], state[6], state[7])
  }

  method AddToState<W>(fn: WordFunctions<W>, state: array<W>, v: Vars<W>)
    requires state.Length == 8
    modifies state
    ensures StateVars(state[..]) == Sum(fn, old(StateVars(state[..])), v)
  {
    state[0] := fn.add(state[0], v.a);
    state[1] := fn.add(state[1], v.b);
    state[2] := fn.add(state[2], v.c);
    state[3] := fn.add(state[3], v.d);
    state[4] := fn.add(state[4], v.e);
    state[5] := fn.add(state[5], v.f);
    state[6] := fn.add(state[6], v.g);
    state[7] := fn.add(state[7], v.h);
  }

  method WriteDigest<W>(fn: WordFunctions<W>, state: array<W>) returns (digest: seq<byte>)
    requires state.Length == 8
    ensures digest == WordBytes(fn, state[..])
  {
    digest := [];
    for index := 0 to 8
      invariant digest == WordBytes(fn, state[..index])
    {
      digest := digest + ToBigEndian(fn.number(state[index]), 4);
      assert state[..index + 1][..index] == state[..index];
    }
    assert state[..8] == state[..];
  }

  /** The body of the loop over blocks. */
  method HashBlock<W>(fn: WordFunctions<W>, padded: seq<byte>, n: nat, state: array<W>, words: array<W>)
    requires BLOCK_SIZE * (n + 1) <= |padded| && state.Length == 8 && words.Length == 64
    requires StateVars(state[..]) == HashValue(fn, padded, n)
    modifies state, words
    ensures StateVars(state[..]) == HashValue(fn, padded, n + 1)
  {
    ghost var block := BlockAt(padded, BLOCK_SIZE * n);
    FillWords(fn, padded, BLOCK_SIZE * n, words);
    assert StateVars(state[..]) == HashValue(fn, padded, n);
    var worked := RunRounds(fn, StateVars(state[..]), words, block);
    AddToState(fn, state, worked);
  }

  lemma InitialState<W>(fn: WordFunctions<W>, padded: seq<byte>, state: seq<W>)
    requires state == WordsOf(fn.initial)
    ensures StateVars(state) == HashValue(fn, padded, 0)
  {
  }

  method HashBlocks<W>(fn: WordFunctions<W>, padded: seq<byte>, blocks: nat) returns (state: array<W>)
    requires BLOCK_SIZE * blocks <= |padded|
    ensures fresh(state) && state.Length == 8 && StateVars(state[..]) == HashValue(fn, padded, blocks)
  {
    var v := fn.initial;
    state := new W[] [v.a, v.b, v.c, v.d, v.e, v.f, v.g, v.h];
    var words := new W[64](_ => v.a);
    InitialState(fn, padded, state[..]);
    for n := 0 to blocks
      invariant StateVars(state[..]) == HashValue(fn, padded, n)
    {
      HashBlock(fn, padded, n, state, words);
    }
  }

  lemma WholeBlocks(n: nat)
    ensures BLOCK_SIZE * (n / BLOCK_SIZE) <= n
  {
  }

  method HashPadded<W>(fn: WordFunctions<W>, padded: seq<byte>, blocks: nat) returns (digest: seq<byte>)
    requires BLOCK_SIZE * blocks <= |padded|
    ensures digest == WordBytes(fn, WordsOf(HashValue(fn, padded, blocks)))
  {
    var state := HashBlocks(fn, padded, blocks);
    digest := WriteDigest(fn, state);
    assert state[..] == WordsOf(StateVars(state[..]));
  }

  /** The hash function as it runs computes the recursive definition. */
  method Hash(input: seq<byte>) returns (digest: seq<byte>)
    ensures digest == Digest(input)
  {
    var padded := PadMessage(input);
    WholeBlocks(padded.Length);
    digest := HashPadded(SHA256, padded[..], padded.Length / BLOCK_SIZE);
  }

  // ---- HMAC ----

  /** The outer and the inner pad of a key. */
  method KeyPads(keyBytes: seq<byte>) returns (outer: seq<byte>, inner: seq<byte>)
    ensures outer == XorAll(KeyBlock(keyBytes), 0x5c) && inner == XorAll(KeyBlock(keyBytes), 0x36)
  {
    var normalizedKey := keyBytes;
    if |keyBytes| > BLOCK_SIZE {
      normalizedKey := Hash(keyBytes);
    }
    var paddedKey := new byte[BLOCK_SIZE](_ => 0);
    forall i | 0 <= i < |normalizedKey| {
      paddedKey[i] := normalizedKey[i];
    }
    assert paddedKey[..] == KeyBlock(keyBytes);
    outer, inner := XorPads(paddedKey);
  }

  method XorPads(paddedKey: array<byte>) returns (outer: seq<byte>, inner: seq<byte>)
    requires paddedKey.Length == BLOCK_SIZE
    ensures outer == XorAll(paddedKey[..], 0x5c) && inner == XorAll(paddedKey[..], 0x36)
  {
    var outerPad, innerPad := new byte[BLOCK_SIZE](_ => 0), new byte[BLOCK_SIZE](_ => 0);
    for index := 0 to BLOCK_SIZE
      invariant forall i :: 0 <= i < index ==> outerPad[i] == Xor(paddedKey[i], 0x5c)
      invariant forall i :: 0 <= i < index ==> innerPad[i] == Xor(paddedKey[i], 0x36)
    {
      outerPad[index] := Xor(paddedKey[index], 0x5c);
      innerPad[index] := Xor(paddedKey[index], 0x36);
    }
    outer, inner := outerPad[..], innerPad[..];
  }

  method HmacSha256Base64Url(key: seq<Utf8.Unit>, message: seq<Utf8.Unit>) returns (tag: string)
    ensures tag == Base64UrlSpec.Encode(Hmac(Utf8.Encode(key), Utf8.Encode(message)))
  {
    var keyBytes := Utf8.Utf8Bytes(key);
    var outerPad, innerPad := KeyPads(keyBytes);
    var messageBytes := Utf8.Utf8Bytes(message);
    var inner := Hash(innerPad + messageBytes);
    var outer := Hash(outerPad + inner);
    tag := Base64Url.Base64UrlEncode(outer);
  }

  /** A tag is 43 characters and decodes to the HMAC of the two texts. */
  lemma TagDecodes(key: seq<byte>, message: seq<byte>)
    ensures var tag := Base64UrlSpec.Encode(Hmac(key, message));
            |tag| == 43 && Base64UrlSpec.Decodable(tag) && Base64UrlSpec.Decode(tag) == Hmac(key, message)
  {
    Base64UrlSpec.DecodeInvertsEncode(Hmac(key, message));
  }
}
