/** Byte-string helpers shared by the text modules.  A byte is modelled as a `char`;
    nothing below depends on a character being below 256. */
module Text {
  import opened Options

  predicate IsSpace(c: char) {
    c == ' ' || c == '\t' || c == '\r' || c == '\n'
  }

  /** `pat` occurs in `s` at offset `i`. */
  predicate At(s: string, i: nat, pat: string) {
    i + |pat| <= |s| && s[i..i + |pat|] == pat
  }

  /** The offset of the first non-space byte of `s` at or after `i` (or the end of `s`). */
  function SkipSpace(s: string, i: nat): (j: nat)
    requires i <= |s|
    ensures i <= j <= |s|
    ensures forall k :: i <= k < j ==> IsSpace(s[k])
    ensures j < |s| ==> !IsSpace(s[j])
    decreases |s| - i
  {
    if i < |s| && IsSpace(s[i]) then SkipSpace(s, i + 1) else i
  }

  lemma SkipSpaceUnique(s: string, i: nat, j: nat)
    requires i <= j <= |s|
    requires forall k :: i <= k < j ==> IsSpace(s[k])
    requires j == |s| || !IsSpace(s[j])
    ensures SkipSpace(s, i) == j
  {
  }

  /** The first offset of `c` in `s` at or after `i`. */
  function FindChar(s: string, i: nat, c: char): (r: Option<nat>)
    requires i <= |s|
    ensures r.Some? ==> i <= r.value < |s| && s[r.value] == c && forall k :: i <= k < r.value ==> s[k] != c
    ensures r.None? ==> forall k :: i <= k < |s| ==> s[k] != c
    decreases |s| - i
  {
    if i == |s| then None
    else if s[i] == c then Some(i)
    else FindChar(s, i + 1, c)
  }

  lemma FindCharUnique(s: string, i: nat, c: char, g: nat)
    requires i <= g < |s| && s[g] == c
    requires forall k :: i <= k < g ==> s[k] != c
    ensures FindChar(s, i, c) == Some(g)
  {
  }

  /** The first offset of `pat` in `s` at or after `i`. */
  function FindSub(s: string, i: nat, pat: string): (r: Option<nat>)
    requires i <= |s|
    ensures r.Some? ==> i <= r.value && At(s, r.value, pat) && forall k :: i <= k < r.value ==> !At(s, k, pat)
    ensures r.None? ==> forall k :: i <= k ==> !At(s, k, pat)
    decreases |s| - i
  {
    if At(s, i, pat) then Some(i)
    else if i == |s| then None
    else FindSub(s, i + 1, pat)
  }

  lemma FindSubUnique(s: string, i: nat, pat: string, k: nat)
    requires i <= k && At(s, k, pat)
    requires forall j :: i <= j < k ==> !At(s, j, pat)
    ensures i <= |s| && FindSub(s, i, pat) == Some(k)
  {
  }

  /** A match survives appending more bytes. */
  lemma AtAppend(s: string, x: string, i: nat, pat: string)
    requires At(s, i, pat)
    ensures At(s + x, i, pat)
  {
    assert (s + x)[i..i + |pat|] == s[i..i + |pat|];
  }

  // ---------- occurrences in concatenations ----------

  lemma AtSplit(s: string, i: nat, p: string, q: string)
    ensures At(s, i, p + q) <==> At(s, i, p) && At(s, i + |p|, q)
  {
    if At(s, i, p + q) {
      assert s[i..i + |p|] == s[i..i + |p + q|][..|p|];
      assert s[i + |p|..i + |p| + |q|] == s[i..i + |p + q|][|p|..];
    }
    if At(s, i, p) && At(s, i + |p|, q) {
      assert s[i..i + |p + q|] == s[i..i + |p|] + s[i + |p|..i + |p| + |q|];
    }
  }

  lemma AtChars(s: string, i: nat, p: string)
    requires At(s, i, p)
    ensures forall k :: i <= k < i + |p| ==> s[k] == p[k - i]
  {
    assert forall k :: i <= k < i + |p| ==> s[k] == s[i..i + |p|][k - i];
  }

  lemma NotAt(s: string, j: nat, pat: string, k: nat)
    requires k < |pat| && j + k < |s| && s[j + k] != pat[k]
    ensures !At(s, j, pat)
  {
    if At(s, j, pat) { AtChars(s, j, pat); }
  }

  lemma AtInside(s: string, i: nat, pat: string)
    requires At(s, i, pat)
    ensures i + |pat| <= |s|
  {
  }

  lemma AtEmpty(s: string, i: nat)
    requires i <= |s|
    ensures At(s, i, "")
  {
  }

  function Flatten<T>(chunks: seq<seq<T>>): (r: seq<T>) {
    if chunks == [] then [] else chunks[0] + Flatten(chunks[1..])
  }

  lemma {:induction false} FlattenAppend<T>(a: seq<seq<T>>, b: seq<seq<T>>)
    ensures Flatten(a + b) == Flatten(a) + Flatten(b)
  {
    if a == [] {
      assert a + b == b;
    } else {
      FlattenAppend(a[1..], b);
      assert (a + b)[1..] == a[1..] + b;
    }
  }
}
