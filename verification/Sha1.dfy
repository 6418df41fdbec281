/** SHA-1 as FIPS 180-4 defines it: padding (section 5.1.1), preprocessing and computation
    (sections 5.2.1, 5.3.1 and 6.1.2). */
module Sha1 {
  import opened Basics

  type Bytes = seq<bv8>

  // The working variables, and the hash value.
  datatype Hash = Hash(a: bv32, b: bv32, c: bv32, d: bv32, e: bv32)

  const IV := Hash(0x67452301, 0xefcdab89, 0x98badcfe, 0x10325476, 0xc3d2e1f0)

  function Rotl(v: bv32, n: nat): bv32
    requires n < 32
  {
    (v << n) | (v >> (32 - n))
  }

  function Word(block: Bytes, i: nat): bv32
    requires 4 * i + 3 < |block|
  {
    ((block[4 * i] as bv32) << 24) | ((block[4 * i + 1] as bv32) << 16)
    | ((block[4 * i + 2] as bv32) << 8) | (block[4 * i + 3] as bv32)
  }

  function NextWord(a: bv32, b: bv32, c: bv32, d: bv32): bv32 {
    Rotl(a ^ b ^ c ^ d, 1)
  }

  /** The message schedule. */
  function W(block: Bytes, t: nat): bv32
    requires |block| == 64
  {
    if t < 16 then Word(block, t)
    else NextWord(W(block, t - 3), W(block, t - 8), W(block, t - 14), W(block, t - 16))
  }

  function Ch(x: bv32, y: bv32, z: bv32): bv32 { (x & y) ^ (!x & z) }
  function Parity(x: bv32, y: bv32, z: bv32): bv32 { x ^ y ^ z }
  function Maj(x: bv32, y: bv32, z: bv32): bv32 { (x & y) ^ (x & z) ^ (y & z) }

  function F(t: nat, x: bv32, y: bv32, z: bv32): bv32 {
    if t < 20 then Ch(x, y, z) else if t < 40 then Parity(x, y, z)
    else if t < 60 then Maj(x, y, z) else Parity(x, y, z)
  }

  function K(t: nat): bv32 {
    if t < 20 then 0x5a827999 else if t < 40 then 0x6ed9eba1 else if t < 60 then 0x8f1bbcdc else 0xca62c1d6
  }

  /** Addition modulo 2^32. */
  function Add(x: bv32, y: bv32): bv32 {
    x + y
  }

  /** The temporary word of a round. */
  function Temp(a: bv32, f: bv32, e: bv32, k: bv32, w: bv32): bv32 {
    Add(Add(Add(Add(Rotl(a, 5), f), e), k), w)
  }

  function Round(t: nat, s: Hash, w: bv32): Hash {
    Hash(Temp(s.a, F(t, s.b, s.c, s.d), s.e, K(t), w), s.a, Rotl(s.b, 30), s.c, s.d)
  }

  /** The working variables after the first `t` rounds. */
  function Rounds(s: Hash, block: Bytes, t: nat): Hash
    requires |block| == 64
  {
    if t == 0 then s else Round(t - 1, Rounds(s, block, t - 1), W(block, t - 1))
  }

  function AddHash(x: Hash, y: Hash): Hash {
    Hash(Add(x.a, y.a), Add(x.b, y.b), Add(x.c, y.c), Add(x.d, y.d), Add(x.e, y.e))
  }

  function Compress(h: Hash, block: Bytes): Hash
    requires |block| == 64
  {
    AddHash(h, Rounds(h, block, 80))
  }

  function HashBlocks(h: Hash, m: Bytes): Hash
    requires |m| % 64 == 0
    decreases |m|
  {
    if m == [] then h else HashBlocks(Compress(h, m[..64]), m[64..])
  }

  /** `n` in eight bytes, most significant first. */
  function Length64(n: nat): Bytes {
    seq(8, j requires 0 <= j < 8 => ((n / Pow256(7 - j)) % 256) as bv8)
  }

  function Zeros(n: nat): Bytes {
    seq(n, _ => 0)
  }

  /** The smallest number of zero bytes that leaves room for the length. */
  function ZeroCount(len: nat): (k: nat)
    ensures k < 64 && (len + 1 + k) % 64 == 56
  {
    (119 - len % 64) % 64
  }

  function Pad(m: Bytes): (p: Bytes)
    ensures |p| % 64 == 0
  {
    m + [0x80] + Zeros(ZeroCount(|m|)) + Length64(8 * |m|)
  }

  function Byte(w: bv32, shift: nat): bv8
    requires shift < 32
  {
    ((w >> shift) & 0xff) as bv8
  }

  function WordBytes(w: bv32): Bytes {
    [Byte(w, 24), Byte(w, 16), Byte(w, 8), Byte(w, 0)]
  }

  function Digest(h: Hash): Bytes {
    WordBytes(h.a) + WordBytes(h.b) + WordBytes(h.c) + WordBytes(h.d) + WordBytes(h.e)
  }

  function Sha1Of(m: Bytes): Bytes {
    Digest(HashBlocks(IV, Pad(m)))
  }

  lemma {:induction false} HashBlocksAppend(h: Hash, a: Bytes, b: Bytes)
    requires |a| % 64 == 0 && |b| % 64 == 0
    ensures |a + b| % 64 == 0 && HashBlocks(h, a + b) == HashBlocks(HashBlocks(h, a), b)
    decreases |a|
  {
    hide Compress;
    if a == [] {
      assert a + b == b;
    } else {
      assert (a + b)[..64] == a[..64] && (a + b)[64..] == a[64..] + b;
      HashBlocksAppend(Compress(h, a[..64]), a[64..], b);
    }
  }

  // The round functions as the program writes them.
  function Select(x: bv32, y: bv32, z: bv32): bv32 { (x & y) | (!x & z) }
  function Majority(x: bv32, y: bv32, z: bv32): bv32 { (x & y) | (x & z) | (y & z) }

  /** The program's forms are those of the standard. */
  lemma ChIsSelect(x: bv32, y: bv32, z: bv32)
    ensures Ch(x, y, z) == Select(x, y, z)
  {
    SelectDisjoint(x, y, z);
    DisjointXor(x & y, !x & z);
  }

  lemma SelectDisjoint(x: bv32, y: bv32, z: bv32)
    ensures (x & y) & (!x & z) == 0
  {
  }

  lemma DisjointXor(u: bv32, v: bv32)
    requires u & v == 0
    ensures u ^ v == u | v
  {
  }

  lemma MajIsMajority(x: bv32, y: bv32, z: bv32)
    ensures Maj(x, y, z) == Majority(x, y, z)
  {
    XorOfPairs(x, y, z);
  }

  lemma XorOfPairs(x: bv32, y: bv32, z: bv32)
    ensures (x & y) ^ (x & z) ^ (y & z) == (x & y) | (x & z) | (y & z)
  {
  }
}

/** The streaming context: a hash, a byte count and a partly filled block. */
module Sha1Stream {
  import opened Sha1
  import opened Text

  const TWO64 := 0x1_0000_0000_0000_0000
  const TWO61 := 0x2000_0000_0000_0000

  class Context {
    const h: array<bv32>
    const block: array<bv8>
    var bytes: nat  // a 64-bit counter
    var used: nat

    ghost predicate Shape()
      reads `used
    {
      h.Length == 5 && block.Length == 64 && used < 64
    }

    ghost function H(): Hash
      requires Shape()
      reads `used, h
    {
      Hash(h[0], h[1], h[2], h[3], h[4])
    }

    /** The hash and the partly filled block stand for having read `m`. */
    ghost predicate Streamed(m: Bytes)
      reads `used, h, block
    {
      && Shape()
      && used == |m| % 64
      && block[..used] == m[|m| - used..]
      && H() == HashBlocks(IV, m[..|m| - used])
    }

    ghost predicate Absorbed(m: Bytes)
      reads this, h, block
    {
      Streamed(m) && bytes == |m| % TWO64
    }

    constructor ()
      ensures Absorbed([]) && fresh(h) && fresh(block)
    {
      h := new bv32[5];
      block := new bv8[64];
      bytes, used := 0, 0;
      new;
      h[0], h[1], h[2], h[3], h[4] := 0x67452301, 0xefcdab89, 0x98badcfe, 0x10325476, 0xc3d2e1f0;
    }

    method MakeSchedule() returns (w: array<bv32>)
      requires block.Length == 64
      ensures fresh(w) && w.Length == 80 && forall k :: 0 <= k < 80 ==> w[k] == W(block[..], k)
    {
      hide NextWord, Word, W;
      w := new bv32[80];
      ghost var m := block[..];
      var i := 0;
      while i < 16
        invariant 0 <= i <= 16 && block[..] == m
        invariant forall k :: 0 <= k < i ==> w[k] == W(m, k)
      {
        FirstWords(m, i);
        w[i] := Word(block[..], i);
        i := i + 1;
      }
      while i < 80
        invariant 16 <= i <= 80 && block[..] == m
        invariant forall k :: 0 <= k < i ==> w[k] == W(m, k)
      {
        LaterWords(m, i);
        w[i] := NextWord(w[i - 3], w[i - 8], w[i - 14], w[i - 16]);
        i := i + 1;
      }
    }

    static lemma FirstWords(m: Bytes, i: nat)
      requires |m| == 64 && i < 16
      ensures W(m, i) == Word(m, i)
    {
    }

    static lemma LaterWords(m: Bytes, i: nat)
      requires |m| == 64 && 16 <= i
      ensures W(m, i) == NextWord(W(m, i - 3), W(m, i - 8), W(m, i - 14), W(m, i - 16))
    {
      hide NextWord;
    }

    /** One round's function and constant, in the usual programming form. */
    static method RoundFunction(i: nat, b: bv32, c: bv32, d: bv32) returns (f: bv32, k: bv32)
      ensures f == F(i, b, c, d) && k == K(i)
    {
      hide Ch, Maj, Parity, Select, Majority;
      if i < 20 {
        ChIsSelect(b, c, d);
        f, k := Select(b, c, d), 0x5a827999;
      } else if i < 40 {
        f, k := Parity(b, c, d), 0x6ed9eba1;
      } else if i < 60 {
        MajIsMajority(b, c, d);
        f, k := Majority(b, c, d), 0x8f1bbcdc;
      } else {
        f, k := Parity(b, c, d), 0xca62c1d6;
      }
    }

    /** The schedule and the eighty rounds over the full block. */
    method Transform()
      requires h.Length == 5 && block.Length == 64
      modifies h
      ensures Hash(h[0], h[1], h[2], h[3], h[4]) == Compress(old(Hash(h[0], h[1], h[2], h[3], h[4])), block[..])
    {
      hide Rotl, F, K, W, Temp, Add;
      var w := MakeSchedule();
      ghost var m := block[..];
      ghost var s := Hash(h[0], h[1], h[2], h[3], h[4]);
      var a, b, c, d, e := h[0], h[1], h[2], h[3], h[4];
      var i := 0;
      while i < 80
        invariant 0 <= i <= 80 && block[..] == m && unchanged(h)
        invariant forall k :: 0 <= k < 80 ==> w[k] == W(m, k)
        invariant Hash(a, b, c, d, e) == Rounds(s, m, i)
      {
        var f, k := RoundFunction(i, b, c, d);
        var tmp := Temp(a, f, e, k, w[i]);
        e, d, c, b, a := d, c, Rotl(b, 30), a, tmp;
        i := i + 1;
      }
      h[0], h[1], h[2], h[3], h[4] := Add(h[0], a), Add(h[1], b), Add(h[2], c), Add(h[3], d), Add(h[4], e);
    }

    method CopyIn(q: Bytes)
      requires Shape() && |q| <= 64 - used
      modifies block
      ensures block[..used + |q|] == old(block[..used]) + q
    {
      ghost var was := block[..used];
      forall k | 0 <= k < |q| {
        block[used + k] := q[k];
      }
      assert block[..used] == was;
      assert block[used..used + |q|] == q;
      assert block[..used + |q|] == block[..used] + block[used..used + |q|];
    }

    /** Copy what fits into the block; a full block is hashed at once. */
    method AbsorbPart(q: Bytes, ghost m: Bytes)
      requires Streamed(m) && 0 < |q| <= 64 - used
      modifies `used, h, block
      ensures Streamed(m + q)
    {
      hide Compress, HashBlocks;
      ghost var full := m[..|m| - used];
      ghost var part := block[..used] + q;
      CutPart(m, q, used, part);
      CopyIn(q);
      used := used + |q|;
      if used == 64 {
        assert block[..] == part;
        Transform();
        OneBlock(full, part);
        used := 0;
      }
    }

    /** How the absorbed bytes divide into full blocks and the rest. */
    static lemma CutPart(m: Bytes, q: Bytes, used: nat, part: Bytes)
      requires used == |m| % 64 && |q| <= 64 - used && part == m[|m| - used..] + q
      ensures var full := m[..|m| - used];
              && |full| % 64 == 0 && full + part == m + q
              && (used + |q| == 64 ==>
                    |m + q| % 64 == 0 && (m + q)[..|m + q|] == full + part && (m + q)[|m + q|..] == [])
              && (used + |q| < 64 ==> |m + q| % 64 == used + |q|
                                      && (m + q)[..|m + q| - (used + |q|)] == full
                                      && (m + q)[|m + q| - (used + |q|)..] == part)
    {
      assert m == m[..|m| - used] + m[|m| - used..];
    }

    static lemma OneBlock(full: Bytes, b: Bytes)
      requires |full| % 64 == 0 && |b| == 64
      ensures |full + b| % 64 == 0 && HashBlocks(IV, full + b) == Compress(HashBlocks(IV, full), b)
    {
      hide Compress;
      HashBlocksAppend(IV, full, b);
      assert b[..64] == b && b[64..] == [];
    }

    lemma UsedIs(m: Bytes)
      requires Streamed(m)
      ensures used == |m| % 64 && h.Length == 5 && block.Length == 64 && H() == HashBlocks(IV, m[..|m| - used])
    {
    }

    /** Absorb a chunk of any length. */
    method Update(p: Bytes, ghost m: Bytes)
      requires Absorbed(m)
      modifies this, h, block
      ensures Absorbed(m + p)
    {
      hide Streamed;
      bytes := (bytes + |p|) % TWO64;

      var i := 0;
      assert m + p[..0] == m;
      while i < |p|
        invariant 0 <= i <= |p| && Streamed(m + p[..i])
        invariant bytes == |m + p| % TWO64
      {
        UsedIs(m + p[..i]);
        var n := if 64 - used < |p| - i then 64 - used else |p| - i;
        AbsorbPart(p[i..i + n], m + p[..i]);
        assert m + p[..i] + p[i..i + n] == m + p[..i + n];
        i := i + n;
      }
      assert p[..|p|] == p;
    }

    /** Pad, and read the digest off the hash. */
    method Final(ghost m: Bytes) returns (out: Bytes)
      requires Absorbed(m) && |m| < TWO61
      modifies this, h, block
      ensures out == Sha1Of(m)
    {
      hide HashBlocks, WordBytes, Length64, Zeros, Streamed, Pad;
      var bits := bytes * 8 % TWO64;
      assert bits == 8 * |m|;
      Update([0x80], m);
      ghost var k := 0;
      ghost var padded := m + [0x80];
      assert padded + Zeros(0) == padded by { ZeroZeros(padded); }
      while used != 56
        invariant Absorbed(padded + Zeros(k)) && k <= ZeroCount(|m|)
        decreases ZeroCount(|m|) - k
      {
        NotYet(|m|, k);
        UsedIs(padded + Zeros(k));
        Update([0], padded + Zeros(k));
        MoreZeros(padded, k);
        k := k + 1;
      }
      UsedIs(padded + Zeros(k));
      Reached(|m|, k);
      Update(Length64(bits), padded + Zeros(k));
      IsPad(m);
      UsedIs(Pad(m));
      assert Pad(m)[..|Pad(m)|] == Pad(m);
      out := WordBytes(h[0]) + WordBytes(h[1]) + WordBytes(h[2]) + WordBytes(h[3]) + WordBytes(h[4]);
    }

    static lemma IsPad(m: Bytes)
      ensures m + [0x80] + Zeros(ZeroCount(|m|)) + Length64(8 * |m|) == Pad(m) && |Pad(m)| % 64 == 0
    {
    }

    static lemma ZeroZeros(a: Bytes)
      ensures a + Zeros(0) == a
    {
    }

    static lemma MoreZeros(a: Bytes, k: nat)
      ensures |Zeros(k)| == k && a + Zeros(k) + [0] == a + Zeros(k + 1)
    {
    }

    static lemma NotYet(n: nat, k: nat)
      requires k <= ZeroCount(n)
      ensures |Zeros(k)| == k
      ensures (n + 1 + k) % 64 != 56 ==> k < ZeroCount(n)
    {
    }

    /** The pad loop ends at the first block position that leaves eight bytes. */
    static lemma Reached(n: nat, k: nat)
      requires k <= ZeroCount(n)
      ensures |Zeros(k)| == k
      ensures (n + 1 + k) % 64 == 56 ==> k == ZeroCount(n)
    {
    }
  }

  /** Any sequence of updates, then the final call: the SHA-1 of the concatenation. */
  method HashChunks(chunks: seq<Bytes>) returns (out: Bytes)
    requires |Flatten(chunks)| < TWO61
    ensures out == Sha1Of(Flatten(chunks))
  {
    hide Sha1Of, Context.Absorbed;
    var c := new Context();
    ghost var m: Bytes := [];
    var i := 0;
    while i < |chunks|
      invariant 0 <= i <= |chunks| && c.Absorbed(m) && fresh(c) && fresh(c.h) && fresh(c.block)
      invariant m + Flatten(chunks[i..]) == Flatten(chunks)
    {
      c.Update(chunks[i], m);
      assert chunks[i..][1..] == chunks[i + 1..];
      m := m + chunks[i];
      i := i + 1;
    }
    assert m + [] == m;
    out := c.Final(m);
  }
}
