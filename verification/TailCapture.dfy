/** The ring buffer that keeps the tail of captured output. */
module TailCapture {
  import opened Bytes
  import opened Text

  /** The last `n` elements, or all of them when there are fewer. */
  function LastOf<T>(s: seq<T>, n: nat): (r: seq<T>)
    ensures |r| == if |s| < n then |s| else n
  {
    if |s| <= n then s else s[|s| - n..]
  }

  /** Keeping a tail after every piece is keeping the tail of the whole. */
  lemma LastTwice<T>(a: seq<T>, b: seq<T>, n: nat)
    ensures LastOf(LastOf(a, n) + b, n) == LastOf(a + b, n)
  {
  }

  // ---------- rings as values ----------

  /** The `i`-th place from `start` on in a ring of `cap` places. */
  function Place(start: nat, i: nat, cap: nat): (r: nat)
    requires start < cap && i <= cap
    ensures r < cap
  {
    if start + i < cap then start + i else start + i - cap
  }

  function Wrap(x: nat, cap: nat): nat
    requires cap > 0
  {
    x % cap
  }

  lemma RemainderIs(x: nat, cap: nat, q: nat)
    requires cap > 0 && q * cap <= x < q * cap + cap
    ensures x % cap == x - q * cap
  {
    var d := x / cap;
    assert x == d * cap + x % cap;
    Multiples(d, q, cap);
    Multiples(q, d, cap);
  }

  lemma {:induction false} Multiples(a: nat, b: nat, cap: nat)
    ensures a < b ==> a * cap + cap <= b * cap
    decreases b
  {
    if a + 1 < b {
      Multiples(a, b - 1, cap);
      NextMultiple(b - 1, cap);
    } else if a + 1 == b {
      NextMultiple(a, cap);
    }
  }

  lemma NextMultiple(a: nat, cap: nat)
    ensures (a + 1) * cap == a * cap + cap
  {
  }

  lemma PlaceIsWrapped(start: nat, i: nat, cap: nat)
    requires start < cap && i <= cap
    ensures Place(start, i, cap) == Wrap(start + i, cap)
  {
    var x := start + i;
    if x < cap { RemainderIs(x, cap, 0); } else { RemainderIs(x, cap, 1); }
  }

  /** The `len` elements of a ring from `start` on. */
  function Ring(b: seq<Byte>, start: nat, len: nat): (r: seq<Byte>)
    requires start < |b| && len <= |b|
    ensures |r| == len && forall i :: 0 <= i < len ==> r[i] == b[Place(start, i, |b|)]
  {
    if start + len <= |b| then b[start..start + len] else b[start..] + b[..start + len - |b|]
  }

  /** A ring is read in at most two parts, the second one from the front of the buffer. */
  lemma RingParts(b: seq<Byte>, start: nat, len: nat)
    requires start < |b| && len <= |b|
    ensures len <= |b| - start ==> Ring(b, start, len) == b[start..start + len]
    ensures len > |b| - start ==> Ring(b, start, len) == b[start..start + (|b| - start)] + b[..len - (|b| - start)]
  {
  }

  function Overwrite(b: seq<Byte>, pos: nat, s: seq<Byte>): (r: seq<Byte>)
    requires pos + |s| <= |b|
    ensures |r| == |b|
    ensures forall i :: 0 <= i < |b| ==> r[i] == if pos <= i < pos + |s| then s[i - pos] else b[i]
  {
    b[..pos] + s + b[pos + |s|..]
  }

  /** The free places are filled in at most two parts, the second one at the front of the buffer. */
  lemma RingFill(b: seq<Byte>, start: nat, len: nat, s: seq<Byte>, chunk: nat)
    requires start < |b| && len + |s| <= |b|
    requires var right := |b| - Place(start, len, |b|); chunk == if |s| < right then |s| else right
    ensures Ring(Overwrite(Overwrite(b, Place(start, len, |b|), s[..chunk]), 0, s[chunk..]), start, len + |s|)
         == Ring(b, start, len) + s
  {
    hide Ring, Overwrite;
    var once := Overwrite(b, Place(start, len, |b|), s[..chunk]);
    var twice := Overwrite(once, 0, s[chunk..]);
    var all := Ring(twice, start, len + |s|);
    forall i | 0 <= i < len + |s| ensures all[i] == (Ring(b, start, len) + s)[i] {
      assert all[i] == twice[Place(start, i, |b|)];
    }
  }

  /** In a full ring a copy over the oldest elements drops them and appends the new ones. */
  lemma RingSlide(b: seq<Byte>, start: nat, s: seq<Byte>)
    requires start + |s| <= |b| && start < |b|
    ensures Ring(Overwrite(b, start, s), Place(start, |s|, |b|), |b|) == Ring(b, start, |b|)[|s|..] + s
  {
    hide Ring, Overwrite;
    var c := Overwrite(b, start, s);
    var all := Ring(c, Place(start, |s|, |b|), |b|);
    forall i | 0 <= i < |b| ensures all[i] == (Ring(b, start, |b|)[|s|..] + s)[i] {
      assert all[i] == c[Place(Place(start, |s|, |b|), i, |b|)];
    }
  }

  // ---------- the buffer ----------

  method CopyInto(buf: array<Byte>, pos: nat, s: seq<Byte>)
    requires pos + |s| <= buf.Length
    modifies buf
    ensures buf[..] == Overwrite(old(buf[..]), pos, s)
  {
    forall k | 0 <= k < |s| {
      buf[pos + k] := s[k];
    }
  }

  class Capture {
    var buf: array?<Byte>
    var cap: nat
    var start: nat
    var len: nat
    var total: nat

    ghost predicate Valid()
      reads `buf, `cap, `start, `len
    {
      && len <= cap
      && (buf == null ==> start == 0 && len == 0)
      && (buf != null ==> buf.Length == cap && start < cap)
    }

    /** The bytes held, oldest first. */
    ghost function Held(): (r: seq<Byte>)
      requires Valid()
      reads `buf, `cap, `start, `len, buf
      ensures |r| == len
    {
      if buf == null then [] else Ring(buf[..], start, len)
    }

    /** The buffer holds the tail of everything appended so far. */
    ghost predicate Captures(input: seq<Byte>)
      reads this, buf
    {
      && Valid()
      && Held() == LastOf(input, cap)
      && (cap > 0 ==> total == |input|)
    }

    constructor (cap: nat)
      ensures this.cap == cap && buf == null && Captures([])
    {
      this.cap, buf, start, len, total := cap, null, 0, 0, 0;
    }

    method Append(data: seq<Byte>, ghost input: seq<Byte>)
      requires Captures(input)
      modifies this, buf
      ensures Captures(input + data) && cap == old(cap)
      ensures buf == old(buf) || fresh(buf)
    {
      hide Held, LastOf;
      LastTwice(input, data, cap);
      TailOf(LastOf(input, cap), data, cap);
      if data == [] || cap == 0 {
        assert LastOf(input, cap) + [] == LastOf(input, cap);
        return;
      }
      if buf == null { Allocate(); }
      total := total + |data|;
      assert Held() == LastOf(input, cap);
      if |data| >= cap {
        Replace(data);
        return;
      }
      var s := data;
      if len < cap {
        s := Fill(s);
      }
      ghost var filled := Held();
      if s != [] {
        Slide(s);
      }
      Joined(LastOf(input, cap), data, |s|, filled, cap);
    }

    method Allocate()
      requires Valid() && buf == null && cap > 0
      modifies this`buf
      ensures Valid() && fresh(buf) && Held() == old(Held())
    {
      buf := new Byte[cap](_ => 0);
    }

    /** More bytes than there are places: only the last ones count. */
    method Replace(data: seq<Byte>)
      requires Valid() && buf != null && |data| >= cap
      modifies this`start, this`len, buf
      ensures Valid() && Held() == data[|data| - cap..]
    {
      hide Ring;
      CopyInto(buf, 0, data[|data| - cap..]);
      start, len := 0, cap;
      WholeRing(buf[..]);
    }

    /** The first phase: as many bytes as there are free places. */
    method Fill(data: seq<Byte>) returns (s: seq<Byte>)
      requires Valid() && buf != null && len < cap && 0 < |data| < cap
      modifies this`len, buf
      ensures Valid() && |s| < |data| && s == data[|data| - |s|..]
      ensures Held() == old(Held()) + data[..|data| - |s|] && (s != [] ==> len == cap)
    {
      hide Ring, Overwrite, Place, Wrap;
      var free := cap - len;
      var first := if |data| < free then |data| else free;
      var pos := Wrap(start + len, cap);
      PlaceIsWrapped(start, len, cap);
      var right := cap - pos;
      var chunk := if first < right then first else right;
      RingFill(buf[..], start, len, data[..first], chunk);
      assert data[..first][..chunk] == data[..chunk] && data[..first][chunk..] == data[chunk..first];
      CopyInto(buf, pos, data[..chunk]);
      if first > chunk {
        CopyInto(buf, 0, data[chunk..first]);
      } else {
        OverwriteNothing(buf[..], data[chunk..first]);
      }
      len := len + first;
      s := data[first..];
    }

    /** The second phase: the oldest bytes give way. */
    method Slide(data: seq<Byte>)
      requires Valid() && buf != null && len == cap && |data| < cap
      modifies this`start, buf
      ensures Valid() && Held() == old(Held())[|data|..] + data
    {
      hide Held;
      var s := data;
      ghost var was, done := Held(), 0;
      SlideNone(was, data);
      while s != []
        invariant Valid() && len == cap && |was| == cap && |data| == done + |s|
        invariant s == data[done..] && Held() == was[done..] + data[..done]
        decreases |s|
      {
        var chunk := SlideOnce(s);
        SlideMore(was, data, done, chunk);
        s := s[chunk..];
        done := done + chunk;
      }
      assert data[..done] == data;
    }

    /** One turn of that loop: as far as the end of the buffer. */
    method SlideOnce(s: seq<Byte>) returns (chunk: nat)
      requires Valid() && buf != null && len == cap && 0 < |s| < cap
      modifies this`start, buf
      ensures Valid() && 0 < chunk <= |s|
      ensures Held() == old(Held())[chunk..] + s[..chunk]
    {
      hide Ring, Overwrite, Place, Wrap;
      var pos := Wrap(start + len, cap);
      PlaceIsWrapped(start, len, cap);
      PlaceBack(start, cap);
      var right := cap - pos;
      chunk := if |s| < right then |s| else right;
      RingSlide(buf[..], start, s[..chunk]);
      PlaceIsWrapped(start, chunk, cap);
      CopyInto(buf, pos, s[..chunk]);
      start := Wrap(start + chunk, cap);
    }

    /** The bytes held, oldest first, in a buffer of their own; the capture is spent. */
    method Take() returns (out: seq<Byte>)
      requires Valid()
      modifies this
      ensures out == old(Held())
      ensures Valid() && buf == null && cap == 0
    {
      hide Ring;
      var n := len;
      out := [];
      if n > 0 {
        RingParts(buf[..], start, n);
        var right := cap - start;
        var first := if n < right then n else right;
        out := buf[start..start + first];
        if n > first { out := out + buf[..n - first]; }
      }
      assert out == Held();
      buf, cap, start, len, total := null, 0, 0, 0, 0;
    }
  }

  /** Main result: after any sequence of appends the capture yields exactly the last `cap` bytes
      of all that was appended, or everything when it is less. */
  method TailOfRun(cap: nat, chunks: seq<seq<Byte>>) returns (out: seq<Byte>)
    ensures out == LastOf(Flatten(chunks), cap)
  {
    hide LastOf;
    var t := new Capture(cap);
    var i := 0;
    FlattenNone();
    while i < |chunks|
      invariant i <= |chunks| && t.cap == cap && fresh(t) && (t.buf != null ==> fresh(t.buf))
      invariant t.Captures(Flatten<Byte>(chunks[..i]))
    {
      FlattenNext(chunks, i);
      t.Append(chunks[i], Flatten<Byte>(chunks[..i]));
      i := i + 1;
    }
    assert chunks[..i] == chunks;
    out := t.Take();
  }

  lemma FlattenNone()
    ensures Flatten<Byte>([]) == []
  {
  }

  lemma FlattenNext(chunks: seq<seq<Byte>>, i: nat)
    requires i < |chunks|
    ensures Flatten<Byte>(chunks[..i + 1]) == Flatten<Byte>(chunks[..i]) + chunks[i]
  {
    FlattenAppend<Byte>(chunks[..i], [chunks[i]]);
    assert chunks[..i + 1] == chunks[..i] + [chunks[i]];
    assert Flatten<Byte>([chunks[i]]) == chunks[i] + Flatten<Byte>([]);
  }

  /** What `LastOf` of a concatenation is, seen from the pieces. */
  lemma TailOf(a: seq<Byte>, b: seq<Byte>, n: nat)
    requires |a| <= n
    ensures |b| >= n ==> LastOf(a + b, n) == b[|b| - n..]
    ensures |a| + |b| <= n ==> LastOf(a + b, n) == a + b
    ensures |b| < n < |a| + |b| ==> LastOf(a + b, n) == a[|a| + |b| - n..] + b
  {
  }

  /** Filling the free places and sliding by the rest keeps the tail. */
  lemma Joined(held: seq<Byte>, data: seq<Byte>, rest: nat, filled: seq<Byte>, n: nat)
    requires rest <= |data| < n && |held| <= n
    requires filled == held + data[..|data| - rest] && (rest > 0 ==> |filled| == n) && |filled| <= n
    ensures filled[rest..] + data[|data| - rest..] == LastOf(held + data, n)
  {
  }

  lemma WholeRing(b: seq<Byte>)
    requires b != []
    ensures Ring(b, 0, |b|) == b
  {
  }

  lemma OverwriteNothing(b: seq<Byte>, s: seq<Byte>)
    requires s == []
    ensures Overwrite(b, 0, s) == b
  {
  }

  lemma PlaceBack(start: nat, cap: nat)
    requires start < cap
    ensures Place(start, cap, cap) == start
  {
  }

  lemma SlideNone(was: seq<Byte>, data: seq<Byte>)
    ensures was == was[0..] + data[..0] && data[0..] == data
  {
  }

  lemma SlideMore(was: seq<Byte>, data: seq<Byte>, done: nat, chunk: nat)
    requires done + chunk <= |data| <= |was|
    ensures (was[done..] + data[..done])[chunk..] + data[done..][..chunk] == was[done + chunk..] + data[..done + chunk]
    ensures data[done..][chunk..] == data[done + chunk..]
  {
    assert (was[done..] + data[..done])[chunk..] == was[done + chunk..] + data[..done];
    assert data[..done] + data[done..][..chunk] == data[..done + chunk];
  }
}
