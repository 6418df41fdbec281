/** The fixed binary header of a KV checkpoint file: little-endian codec, touching a file in
    place, and the overflow-checked file size. */
module KvHeader {
  import opened Basics
  import opened Bytes
  import opened Options

  const FIXED_HEADER := 48
  const REASON_UNKNOWN: Byte := 0
  const REASON_AGENT_SESSION: Byte := 6
  const U32: nat := 0x1_0000_0000
  const U64: nat := 0x1_0000_0000_0000_0000

  // ---------- little-endian numbers ----------

  /** The low `n` bytes of `v`, least significant first. */
  function Le(v: nat, n: nat): (s: seq<Byte>)
    ensures |s| == n
    decreases n
  {
    if n == 0 then [] else [v % 256] + Le(v / 256, n - 1)
  }

  function FromLe(s: seq<Byte>): nat {
    if s == [] then 0 else s[0] + 256 * FromLe(s[1..])
  }

  lemma {:induction false} LeRoundTrip(v: nat, n: nat)
    requires v < Pow256(n)
    ensures FromLe(Le(v, n)) == v
    decreases n
  {
    if n > 0 {
      LeRoundTrip(v / 256, n - 1);
      assert Le(v, n)[1..] == Le(v / 256, n - 1);
    }
  }

  lemma {:induction false} FromLeRoundTrip(s: seq<Byte>)
    ensures FromLe(s) < Pow256(|s|) && Le(FromLe(s), |s|) == s
  {
    if s != [] {
      FromLeRoundTrip(s[1..]);
      LowByte(s[0], FromLe(s[1..]));
      assert s == [s[0]] + s[1..];
    }
  }

  lemma LowByte(b: Byte, rest: nat)
    ensures (b + 256 * rest) % 256 == b && (b + 256 * rest) / 256 == rest
  {
  }

  lemma Widths()
    ensures Pow256(4) == U32 && Pow256(8) == U64
  {
    assert Pow256(4) == 256 * (256 * (256 * (256 * Pow256(0))));
    assert Pow256(8) == 256 * (256 * (256 * (256 * Pow256(4))));
  }

  /** A buffer with `s` written at `at`. */
  function Put(b: seq<Byte>, at: nat, s: seq<Byte>): (r: seq<Byte>)
    requires at + |s| <= |b|
    ensures |r| == |b|
  {
    b[..at] + s + b[at + |s|..]
  }

  method LePut(p: array<Byte>, at: nat, v: nat, n: nat)
    requires at + n <= p.Length
    modifies p
    ensures p[..] == Put(old(p[..]), at, Le(v, n))
  {
    hide Le, Put;
    var i, rest := 0, v;
    ghost var was := p[..];
    ghost var done: seq<Byte> := [];
    PutNothing(was, at);
    LeDone(v, n);
    while i < n
      invariant 0 <= i <= n && |done| == i
      invariant done + Le(rest, n - i) == Le(v, n)
      invariant p[..] == Put(was, at, done)
    {
      var low: Byte := rest % 256;
      LeStep(rest, n - i);
      Regroup<Byte>(done, [low], Le(rest / 256, n - i - 1));
      PutMore(was, at, done, low);
      p[at + i] := low;
      done := done + [low];
      rest := rest / 256;
      i := i + 1;
    }
    LeDone(rest, 0);
    assert done + [] == done;
  }

  lemma LeDone(v: nat, n: nat)
    ensures Le(v, 0) == [] && [] + Le(v, n) == Le(v, n)
  {
  }

  lemma LeStep(v: nat, n: nat)
    requires n > 0
    ensures Le(v, n) == [v % 256] + Le(v / 256, n - 1)
  {
  }

  lemma PutNothing(b: seq<Byte>, at: nat)
    requires at <= |b|
    ensures Put(b, at, []) == b
  {
  }

  lemma PutMore(b: seq<Byte>, at: nat, s: seq<Byte>, x: Byte)
    requires at + |s| < |b|
    ensures Put(b, at, s + [x]) == Put(b, at, s)[at + |s| := x]
  {
  }

  /** What was in front of a write or behind it is still there. */
  lemma PutAround(b: seq<Byte>, at: nat, s: seq<Byte>)
    requires at + |s| <= |b|
    ensures Put(b, at, s)[..at + |s|] == b[..at] + s
    ensures Put(b, at, s)[at + |s|..] == b[at + |s|..]
  {
  }

  /** Read `n` bytes from the most significant end, as the loop does. */
  method LeGet(p: array<Byte>, at: nat, n: nat) returns (v: nat)
    requires at + n <= p.Length
    ensures v == FromLe(p[at..at + n])
  {
    v := 0;
    var i := n;
    assert p[at + n..at + n] == [];
    while i > 0
      invariant 0 <= i <= n
      invariant v == FromLe(p[at + i..at + n])
    {
      i := i - 1;
      v := v * 256 + p[at + i];
      assert p[at + i..at + n] == [p[at + i]] + p[at + i + 1..at + n];
    }
  }

  // ---------- the header ----------

  datatype Header = Header(
    quantBits: Byte, reason: Byte, extFlags: Byte,
    tokens: nat, hits: nat, ctxSize: nat,
    createdAt: nat, lastUsed: nat, payloadBytes: nat)
  {
    /** Each field fits its width. */
    ghost predicate Fits() {
      tokens < U32 && hits < U32 && ctxSize < U32 && createdAt < U64 && lastUsed < U64 && payloadBytes < U64
    }
  }

  const MAGIC: seq<Byte> := ['K' as int, 'V' as int, 'C' as int, 1]

  function Encode(h: Header): (s: seq<Byte>)
    ensures |s| == FIXED_HEADER
  {
    MAGIC + [h.quantBits, h.reason, h.extFlags, 0]
    + Le(h.tokens, 4) + Le(h.hits, 4) + Le(h.ctxSize, 4) + Le(0, 4)
    + Le(h.createdAt, 8) + Le(h.lastUsed, 8) + Le(h.payloadBytes, 8)
  }

  /** The header and text length of a file, if it is one: magic and version, a nonzero token
      count and a known quantisation; an unknown reason code is read as "unknown". */
  function Decode(f: seq<Byte>): Option<(Header, nat)> {
    if |f| < FIXED_HEADER || f[..4] != MAGIC || |f| < FIXED_HEADER + 4 then None
    else
      var h := Header(f[4], if f[5] <= REASON_AGENT_SESSION then f[5] else REASON_UNKNOWN, f[6],
                      FromLe(f[8..12]), FromLe(f[12..16]), FromLe(f[16..20]),
                      FromLe(f[24..32]), FromLe(f[32..40]), FromLe(f[40..48]));
      if h.tokens != 0 && (h.quantBits == 2 || h.quantBits == 4) then Some((h, FromLe(f[48..52]))) else None
  }

  method FillHeader(h: array<Byte>, v: Header)
    requires h.Length == FIXED_HEADER
    modifies h
    ensures h[..] == Encode(v)
  {
    hide Le, Put;
    var i := 0;
    while i < h.Length
      invariant 0 <= i <= h.Length && forall k :: 0 <= k < i ==> h[k] == 0
    {
      h[i] := 0;
      i := i + 1;
    }
    h[0], h[1], h[2], h[3] := 'K' as int, 'V' as int, 'C' as int, 1;
    h[4], h[5], h[6] := v.quantBits, v.reason, v.extFlags;
    assert h[..8] == MAGIC + [v.quantBits, v.reason, v.extFlags, 0];
    ghost var start := h[..];
    LePut(h, 8, v.tokens, 4);
    LePut(h, 12, v.hits, 4);
    LePut(h, 16, v.ctxSize, 4);
    LePut(h, 24, v.createdAt, 8);
    LePut(h, 32, v.lastUsed, 8);
    LePut(h, 40, v.payloadBytes, 8);
    FieldsPut(start, v);
  }

  /** The fields written one after the other; the reserved word keeps its zeros. */
  lemma FieldsPut(b: seq<Byte>, v: Header)
    requires |b| == FIXED_HEADER && b[..8] == MAGIC + [v.quantBits, v.reason, v.extFlags, 0]
    requires forall k :: 20 <= k < 24 ==> b[k] == 0
    ensures Put(Put(Put(Put(Put(Put(b, 8, Le(v.tokens, 4)), 12, Le(v.hits, 4)), 16, Le(v.ctxSize, 4)),
                    24, Le(v.createdAt, 8)), 32, Le(v.lastUsed, 8)), 40, Le(v.payloadBytes, 8)) == Encode(v)
  {
    hide Le, Put;
    var b1 := Put(b, 8, Le(v.tokens, 4));
    var b2 := Put(b1, 12, Le(v.hits, 4));
    var b3 := Put(b2, 16, Le(v.ctxSize, 4));
    PutAround(b, 8, Le(v.tokens, 4));
    PutAround(b1, 12, Le(v.hits, 4));
    PutAround(b2, 16, Le(v.ctxSize, 4));
    ZeroWord();
    ReservedKept(b, b1, b2, b3);
    var b4 := Put(b3, 24, Le(v.createdAt, 8));
    var b5 := Put(b4, 32, Le(v.lastUsed, 8));
    var b6 := Put(b5, 40, Le(v.payloadBytes, 8));
    PutAround(b3, 24, Le(v.createdAt, 8));
    PutAround(b4, 32, Le(v.lastUsed, 8));
    PutAround(b5, 40, Le(v.payloadBytes, 8));
    assert b6 == b6[..48];
  }

  lemma ReservedKept(b: seq<Byte>, b1: seq<Byte>, b2: seq<Byte>, b3: seq<Byte>)
    requires |b| == |b1| == |b2| == |b3| == FIXED_HEADER
    requires b1[12..] == b[12..] && b2[16..] == b1[16..] && b3[20..] == b2[20..]
    requires forall k :: 20 <= k < 24 ==> b[k] == 0
    ensures b3[..24] == b3[..20] + [0, 0, 0, 0]
  {
    forall k | 20 <= k < 24 ensures b3[k] == 0 {
      assert b3[k] == b3[20..][k - 20] == b2[16..][k - 16] == b1[12..][k - 12] == b[12..][k - 12];
    }
  }

  lemma ZeroWord()
    ensures Le(0, 4) == [0, 0, 0, 0]
  {
    assert Le(0, 1) == [0] && Le(0, 2) == [0, 0] && Le(0, 3) == [0, 0, 0];
  }

  /** Where each field of an encoded header lies. */
  lemma EncodedFields(h: Header, rest: seq<Byte>)
    requires |rest| >= 4
    ensures var f := Encode(h) + rest;
            && f[..4] == MAGIC && f[4] == h.quantBits && f[5] == h.reason && f[6] == h.extFlags
            && f[8..12] == Le(h.tokens, 4) && f[12..16] == Le(h.hits, 4) && f[16..20] == Le(h.ctxSize, 4)
            && f[24..32] == Le(h.createdAt, 8) && f[32..40] == Le(h.lastUsed, 8) && f[40..48] == Le(h.payloadBytes, 8)
            && f[48..52] == rest[..4]
  {
    hide Le;
  }

  /** Decoding an encoded header returns every field. */
  lemma {:induction false} HeaderRoundTrip(h: Header, textBytes: nat, rest: seq<Byte>)
    requires h.Fits() && textBytes < U32
    requires h.tokens != 0 && (h.quantBits == 2 || h.quantBits == 4) && h.reason <= REASON_AGENT_SESSION
    ensures Decode(Encode(h) + (Le(textBytes, 4) + rest)) == Some((h, textBytes))
  {
    hide Encode, Le, FromLe, Pow256;
    Widths();
    EncodedFields(h, Le(textBytes, 4) + rest);
    assert (Le(textBytes, 4) + rest)[..4] == Le(textBytes, 4);
    LeRoundTrip(h.tokens, 4);
    LeRoundTrip(h.hits, 4);
    LeRoundTrip(h.ctxSize, 4);
    LeRoundTrip(h.createdAt, 8);
    LeRoundTrip(h.lastUsed, 8);
    LeRoundTrip(h.payloadBytes, 8);
    LeRoundTrip(textBytes, 4);
  }

  /** What is read as a header, byte by byte: the magic "KVC" and version 1, 2 or 4 bits, a token
      count that is not zero, and a text length behind it.  Everything else is refused; the eighth
      byte and the reserved word may hold anything. */
  lemma {:induction false} DecodeExact(f: seq<Byte>)
    ensures Decode(f).Some? <==>
              && |f| >= 52 && f[0] == 'K' as int && f[1] == 'V' as int && f[2] == 'C' as int && f[3] == 1
              && (f[4] == 2 || f[4] == 4) && f[8..12] != [0, 0, 0, 0]
    ensures Decode(f).Some? ==>
              var (h, textBytes) := Decode(f).value;
              && f[48..52] == Le(textBytes, 4) && f[4] == h.quantBits && f[6] == h.extFlags
              && h.reason == (if f[5] <= 6 then f[5] else 0)
              && f[8..20] == Le(h.tokens, 4) + Le(h.hits, 4) + Le(h.ctxSize, 4)
              && f[24..48] == Le(h.createdAt, 8) + Le(h.lastUsed, 8) + Le(h.payloadBytes, 8)
  {
    hide Le, FromLe;
    if |f| >= 52 {
      assert f[..4] == MAGIC <==> f[0] == 'K' as int && f[1] == 'V' as int && f[2] == 'C' as int && f[3] == 1;
      ZeroWord();
      FromLeRoundTrip(f[8..12]);
      LeRoundTripZero();
      FromLeRoundTrip(f[12..16]);
      FromLeRoundTrip(f[16..20]);
      FromLeRoundTrip(f[24..32]);
      FromLeRoundTrip(f[32..40]);
      FromLeRoundTrip(f[40..48]);
      FromLeRoundTrip(f[48..52]);
      assert f[8..20] == f[8..12] + f[12..16] + f[16..20];
      assert f[24..48] == f[24..32] + f[32..40] + f[40..48];
    }
  }

  lemma LeRoundTripZero()
    ensures FromLe([0, 0, 0, 0]) == 0
  {
    assert FromLe([0]) == 0 && FromLe([0, 0]) == 0 && FromLe([0, 0, 0]) == 0;
  }

  // ---------- touching a file ----------

  /** Rewrite the header with new hits and time; a file that does not decode is left alone. */
  function Touch(f: seq<Byte>, hits: nat, now: nat): seq<Byte> {
    match Decode(f)
    case None => f
    case Some((h, _)) => Encode(h.(hits := hits, lastUsed := now)) + f[FIXED_HEADER..]
  }

  lemma DecodedFits(f: seq<Byte>)
    requires Decode(f).Some?
    ensures var (h, textBytes) := Decode(f).value;
            h.Fits() && textBytes < U32 && h.reason <= REASON_AGENT_SESSION && f[48..52] == Le(textBytes, 4)
  {
    hide Le, FromLe, Pow256;
    Widths();
    FromLeRoundTrip(f[8..12]);
    FromLeRoundTrip(f[12..16]);
    FromLeRoundTrip(f[16..20]);
    FromLeRoundTrip(f[24..32]);
    FromLeRoundTrip(f[32..40]);
    FromLeRoundTrip(f[40..48]);
    FromLeRoundTrip(f[48..52]);
  }

  /** Touching changes only the decoded hits and last-used time: every other field, and every
      byte of text, payload and trailer, stays. */
  lemma {:induction false} TouchChangesOnlyUse(f: seq<Byte>, hits: nat, now: nat)
    requires hits < U32 && now < U64
    ensures |Touch(f, hits, now)| == |f|
    ensures Decode(f).None? ==> Touch(f, hits, now) == f
    ensures Decode(f).Some? ==>
              && Touch(f, hits, now)[FIXED_HEADER..] == f[FIXED_HEADER..]
              && var (h, textBytes) := Decode(f).value;
              Decode(Touch(f, hits, now)) == Some((h.(hits := hits, lastUsed := now), textBytes))
  {
    if Decode(f).Some? {
      DecodedFits(f);
      hide Encode, Le, FromLe;
      var (h, textBytes) := Decode(f).value;
      assert f[FIXED_HEADER..] == f[48..52] + f[52..];
      HeaderRoundTrip(h.(hits := hits, lastUsed := now), textBytes, f[52..]);
    }
  }

  // ---------- files in place ----------

  /** The header of a file, field by field; the text length follows it. */
  method ReadHeader(f: array<Byte>) returns (r: Option<(Header, nat)>)
    ensures r == Decode(f[..])
  {
    hide FromLe;
    if f.Length < FIXED_HEADER || f[0] != 'K' as int || f[1] != 'V' as int || f[2] != 'C' as int || f[3] != 1 {
      assert f.Length >= 4 ==> f[..][..4] == [f[0], f[1], f[2], f[3]];
      return None;
    }
    assert f[..][..4] == [f[0], f[1], f[2], f[3]];
    var tokens := LeGet(f, 8, 4);
    var hits := LeGet(f, 12, 4);
    var ctxSize := LeGet(f, 16, 4);
    var createdAt := LeGet(f, 24, 8);
    var lastUsed := LeGet(f, 32, 8);
    var payloadBytes := LeGet(f, 40, 8);
    if f.Length < FIXED_HEADER + 4 { return None; }
    var textBytes := LeGet(f, 48, 4);
    SameSlices(f[..], f);
    var reason := if f[5] <= REASON_AGENT_SESSION then f[5] else REASON_UNKNOWN;
    var h := Header(f[4], reason, f[6], tokens, hits, ctxSize, createdAt, lastUsed, payloadBytes);
    if h.tokens != 0 && (h.quantBits == 2 || h.quantBits == 4) { return Some((h, textBytes)); }
    return None;
  }

  lemma SameSlices(s: seq<Byte>, f: array<Byte>)
    requires s == f[..]
    ensures forall i, j {:trigger f[i..j]} :: 0 <= i <= j <= f.Length ==> f[i..j] == s[i..j]
  {
  }

  /** Touch a file: read its header, fill a fresh one and write it over the old one. */
  method TouchFile(f: array<Byte>, hits: nat, now: nat) returns (ok: bool)
    modifies f
    ensures ok == Decode(old(f[..])).Some? && f[..] == Touch(old(f[..]), hits, now)
  {
    hide Decode, Encode;
    var r := ReadHeader(f);
    if r.None? { return false; }
    DecodedLength(f[..]);
    ghost var was := f[..];
    var e := r.value.0;
    var h := new Byte[FIXED_HEADER](_ => 0);
    FillHeader(h, Header(e.quantBits, e.reason, e.extFlags, e.tokens, hits, e.ctxSize,
                         e.createdAt, now, e.payloadBytes));
    forall k | 0 <= k < FIXED_HEADER { f[k] := h[k]; }
    assert f[..] == h[..] + was[FIXED_HEADER..];
    return true;
  }

  lemma DecodedLength(f: seq<Byte>)
    requires Decode(f).Some?
    ensures |f| >= FIXED_HEADER + 4
  {
  }

  // ---------- file sizes ----------

  const U64_MAX: nat := U64 - 1

  /** The program's checks, which never form a sum that could wrap around. */
  predicate SizeOverflows(text: nat, payload: nat, trailer: nat) {
    var fixed := FIXED_HEADER + 4;
    U64_MAX - fixed < text || U64_MAX - fixed - text < payload || U64_MAX - fixed - text - payload < trailer
  }

  function Slack(size: nat): nat {
    size / 100 + (if size % 100 != 0 then 1 else 0)
  }

  predicate FileSizeFits(budget: nat, text: nat, payload: nat, trailer: nat) {
    !SizeOverflows(text, payload, trailer) &&
    var size := FIXED_HEADER + 4 + text + payload + trailer;
    budget == 0 || (U64_MAX - size >= Slack(size) && size + Slack(size) <= budget)
  }

  /** In unbounded arithmetic: the size itself fits 64 bits, and with one percent headroom,
      rounded up, it fits the budget (a budget of zero means none). */
  lemma SizeCheckExact(budget: nat, text: nat, payload: nat, trailer: nat)
    requires budget <= U64_MAX
    ensures FileSizeFits(budget, text, payload, trailer) <==>
            var size := 52 + text + payload + trailer;
            size <= U64_MAX && (budget == 0 || 101 * size <= 100 * budget)
  {
    var size := 52 + text + payload + trailer;
    assert 100 * Slack(size) >= size > 100 * (Slack(size) - 1);
  }
}
