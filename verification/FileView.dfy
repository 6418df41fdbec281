/** The checksum cache of lines shown to the model, and how each tool call updates it. */
module FileView {
  import opened Options
  import opened Text
  import opened LineSplit

  // ---------- CRC32 of a line body ----------

  function CrcBit(c: bv32): bv32 {
    (c >> 1) ^ (if c & 1 == 1 then 0xedb88320 else 0)
  }

  function CrcByte(c: bv32, b: char): bv32 {
    CrcBit(CrcBit(CrcBit(CrcBit(CrcBit(CrcBit(CrcBit(CrcBit(c ^ (b as int as bv32)))))))))
  }

  function CrcFrom(c: bv32, s: string): bv32
    decreases |s|
  {
    if s == [] then c else CrcFrom(CrcByte(c, s[0]), s[1..])
  }

  function Crc(s: string): bv32 {
    CrcFrom(0xffffffff, s) ^ 0xffffffff
  }

  // ---------- the view of one file ----------

  // Per line number: the checksum the model saw, if any.
  type View = seq<Option<bv32>>

  function Sum(line: string): (r: Option<bv32>)
    ensures r.Some?
  {
    Some(Crc(Body(line)))
  }

  function Resize(v: View, n: nat): View {
    if n <= |v| then v[..n] else v + seq(n - |v|, _ => None)
  }

  function Grow(v: View, n: nat): View {
    if n > |v| then Resize(v, n) else v
  }

  /** Lines `from`..`to` - 1 (from 0) have been shown. */
  function RememberRange(v: View, lines: seq<string>, from: nat, to: nat): View
    requires to <= |lines|
  {
    var g := Grow(v, |lines|);
    seq(|g|, i requires 0 <= i < |g| => if from <= i < to then Sum(lines[i]) else g[i])
  }

  function RememberWhole(lines: seq<string>): View {
    seq(|lines|, i requires 0 <= i < |lines| => Sum(lines[i]))
  }

  function RememberLine(v: View, lines: seq<string>, i: nat): View
    requires i < |lines|
  {
    Grow(v, i + 1)[i := Sum(lines[i])]
  }

  function RememberLines(v: View, lines: seq<string>, shown: seq<nat>): View
    requires forall k :: 0 <= k < |shown| ==> shown[k] < |lines|
  {
    if shown == [] then v
    else RememberLine(RememberLines(v, lines, shown[..|shown| - 1]), lines, shown[|shown| - 1])
  }

  datatype Refusal = InvalidRange | Unreadable | OutsideFile | NeverSeen | NotShown(line: nat) | Changed(line: nat)
                   | EmptyOld | NotFound | NotUnique | WriteFailed

  /** The guard of a line/range edit: the first line that was not shown, or has changed. */
  function VerifyFrom(v: View, lines: seq<string>, line: nat, end: nat): Option<Refusal>
    requires 1 <= line && end <= |lines|
    decreases end + 1 - line
  {
    if line > end then None
    else if line > |v| || v[line - 1].None? then Some(NotShown(line))
    else if v[line - 1] != Sum(lines[line - 1]) then Some(Changed(line))
    else VerifyFrom(v, lines, line + 1, end)
  }

  /** Line `i` (from 0) is known and has the remembered checksum. */
  predicate Fresh(v: View, lines: seq<string>, i: nat)
    requires i < |lines|
  {
    i < |v| && v[i] == Sum(lines[i])
  }

  /** The guard passes exactly when every line of the range has the remembered checksum. */
  lemma {:induction false} VerifyExact(v: View, lines: seq<string>, start: nat, end: nat)
    requires 1 <= start && end <= |lines|
    ensures VerifyFrom(v, lines, start, end).None? <==>
            forall i :: start - 1 <= i < end ==> Fresh(v, lines, i)
    decreases end + 1 - start
  {
    hide Sum;
    if start <= end {
      VerifyExact(v, lines, start + 1, end);
      assert VerifyFrom(v, lines, start, end).None? <==>
             Fresh(v, lines, start - 1) && VerifyFrom(v, lines, start + 1, end).None?;
    }
  }

  /** The remembered checksum of line `i` is known. */
  predicate KnownLine(v: View, i: nat) {
    i < |v| && v[i].Some?
  }

  /** The first line of the range that is not remembered as it is. */
  ghost predicate FirstStale(v: View, lines: seq<string>, start: nat, end: nat, line: nat)
    requires 1 <= start && end <= |lines|
  {
    start <= line <= end && !Fresh(v, lines, line - 1) && forall i :: start - 1 <= i < line - 1 ==> Fresh(v, lines, i)
  }

  lemma FirstStaleStep(v: View, lines: seq<string>, start: nat, end: nat, line: nat)
    requires 1 <= start <= end <= |lines|
    ensures FirstStale(v, lines, start, end, line) <==>
            if Fresh(v, lines, start - 1) then FirstStale(v, lines, start + 1, end, line) else line == start
  {
    hide Fresh;
    if FirstStale(v, lines, start + 1, end, line) && Fresh(v, lines, start - 1) {
      assert forall i :: start - 1 <= i < line - 1 ==> i == start - 1 || Fresh(v, lines, i);
    }
  }

  lemma VerifyStep(v: View, lines: seq<string>, start: nat, end: nat)
    requires 1 <= start <= end <= |lines|
    ensures VerifyFrom(v, lines, start, end) ==
            if !KnownLine(v, start - 1) then Some(NotShown(start))
            else if !Fresh(v, lines, start - 1) then Some(Changed(start))
            else VerifyFrom(v, lines, start + 1, end)
    ensures Fresh(v, lines, start - 1) ==> KnownLine(v, start - 1)
  {
    hide Crc;
  }

  /** What it complains of is that line: not shown when nothing is remembered there, changed when
      something else is. */
  lemma {:induction false} VerifyReason(v: View, lines: seq<string>, start: nat, end: nat, line: nat)
    requires 1 <= start && end <= |lines|
    ensures var first := FirstStale(v, lines, start, end, line);
            && (VerifyFrom(v, lines, start, end) == Some(NotShown(line)) <==> first && !KnownLine(v, line - 1))
            && (VerifyFrom(v, lines, start, end) == Some(Changed(line)) <==> first && KnownLine(v, line - 1))
    decreases end + 1 - start
  {
    if start <= end {
      VerifyStep(v, lines, start, end);
      FirstStaleStep(v, lines, start, end, line);
      hide VerifyFrom, FirstStale, Fresh, KnownLine;
      VerifyReason(v, lines, start + 1, end, line);
    }
  }

  /** After a line/range edit: lines before keep their checks, the replacement is known, and
      lines after keep theirs only if their numbers did not shift. */
  function AfterEdit(v: View, lines: seq<string>, start: nat, end: nat, replaced: nat): View
    requires 1 <= start <= end
  {
    var shift := replaced != end - start + 1;
    seq(|lines|, i requires 0 <= i < |lines| =>
      if i < start - 1 then (if i < |v| then v[i] else None)
      else if i < start - 1 + replaced then Sum(lines[i])
      else if !shift && i < |v| then v[i]
      else None)
  }

  /** The 1-based line that holds byte `off`. */
  function LineFor(lines: seq<string>, off: nat): (n: nat)
    ensures 1 <= n && (lines != [] ==> n <= |lines|)
  {
    if |lines| <= 1 || off < |lines[0]| then 1 else 1 + LineFor(lines[1..], off - |lines[0]|)
  }

  /** After an old/new edit that touched lines `start`..`end` of the old file. */
  function AfterOldNew(v: View, oldLines: seq<string>, newLines: seq<string>, start: nat, end: nat): View
    requires 1 <= start <= end
  {
    var shift := |newLines| != |oldLines|;
    seq(|newLines|, i requires 0 <= i < |newLines| =>
      if i < start - 1 then (if i < |v| then v[i] else None)
      else if !shift && end <= i < |v| then v[i]
      else None)
  }

  const CONTEXT_BEFORE := 5
  const CONTEXT_AFTER := 8

  function Clamp(x: int, lo: int, hi: int): (r: int)
    requires lo <= hi
    ensures lo <= r <= hi
  {
    if x < lo then lo else if x > hi then hi else x
  }

  /** The lines shown around an edit are remembered: from, to (0-based, exclusive). */
  function ContextRange(n: nat, anchorStart: int, anchorEnd: int): (r: (nat, nat))
    requires n > 0
    ensures r.0 < r.1 <= n
  {
    var (a, b) := Anchors(n, anchorStart, anchorEnd);
    (Clamp(a - CONTEXT_BEFORE, 1, n) - 1, Clamp(b + CONTEXT_AFTER, 1, n))
  }

  // Of a longer edit only this many lines at either end are displayed.
  const EDITED_CONTEXT_HEAD := 18
  const EDITED_CONTEXT_TAIL := 18

  /** The edited lines, counted from 1, held inside the file. */
  function Anchors(n: nat, anchorStart: int, anchorEnd: int): (r: (nat, nat))
    requires n > 0
    ensures 1 <= r.0 <= r.1 <= n
  {
    var a := Clamp(anchorStart, 1, n);
    (a, Clamp(anchorEnd, a, n))
  }

  function Range(lo: nat, hi: nat): (s: seq<nat>)
    requires lo <= hi
    ensures forall i: nat :: i in s <==> lo <= i < hi
    decreases hi - lo
  {
    if lo == hi then [] else [lo] + Range(lo + 1, hi)
  }

  /** The lines (from 0) that the result of an edit displays. */
  function ContextShown(n: nat, anchorStart: int, anchorEnd: int): seq<nat>
    requires n > 0
  {
    var (a, b) := Anchors(n, anchorStart, anchorEnd);
    var (from, to) := ContextRange(n, anchorStart, anchorEnd);
    if b - a + 1 <= EDITED_CONTEXT_HEAD + EDITED_CONTEXT_TAIL then Range(from, to)
    else Range(from, a - 1 + EDITED_CONTEXT_HEAD) + Range(b - EDITED_CONTEXT_TAIL, to)
  }

  /** Every remembered line is displayed exactly when at most 36 lines were edited; of a longer
      edit the lines between the first 18 and the last 18 are remembered all the same. */
  lemma ContextDisplayed(n: nat, anchorStart: int, anchorEnd: int)
    requires n > 0
    ensures var (from, to) := ContextRange(n, anchorStart, anchorEnd);
            var (a, b) := Anchors(n, anchorStart, anchorEnd);
            var shown := ContextShown(n, anchorStart, anchorEnd);
            && (forall i: nat :: i in shown ==> from <= i < to)
            && (forall i: nat :: from <= i < to ==> (i in shown <==> !(a + 17 <= i <= b - 19)))
            && ((forall i: nat :: from <= i < to ==> i in shown) <==> b - a + 1 <= 36)
  {
    var (from, to) := ContextRange(n, anchorStart, anchorEnd);
    var (a, b) := Anchors(n, anchorStart, anchorEnd);
    if b - a + 1 > 36 {
      assert from <= a + 17 < to && a + 17 !in ContextShown(n, anchorStart, anchorEnd);
    }
  }

  function Context(v: View, lines: seq<string>, anchorStart: int, anchorEnd: int): View {
    if lines == [] then v
    else
      var (from, to) := ContextRange(|lines|, anchorStart, anchorEnd);
      RememberRange(v, lines, from, to)
  }

  // ---------- agreement with the file ----------

  /** Every known entry is the checksum of that line of the file. */
  ghost predicate Agrees(v: View, lines: seq<string>) {
    forall i :: 0 <= i < |v| && v[i].Some? ==> i < |lines| && v[i] == Sum(lines[i])
  }

  lemma RangeAgrees(v: View, lines: seq<string>, from: nat, to: nat)
    requires to <= |lines| && Agrees(v, lines)
    ensures Agrees(RememberRange(v, lines, from, to), lines)
  {
    hide Sum;
  }

  lemma {:induction false} LinesAgree(v: View, lines: seq<string>, shown: seq<nat>)
    requires (forall k :: 0 <= k < |shown| ==> shown[k] < |lines|) && Agrees(v, lines)
    ensures Agrees(RememberLines(v, lines, shown), lines)
    decreases |shown|
  {
    hide Sum;
    if shown != [] {
      LinesAgree(v, lines, shown[..|shown| - 1]);
    }
  }

  /** A line/range edit keeps the cache in agreement with the file it writes. */
  lemma {:induction false} EditAgrees(v: View, d: string, start: nat, end: nat, text: string)
    requires LfOnly(d) && LfOnly(text) && 1 <= start <= end <= |Lines(d)|
    requires Agrees(v, Lines(d))
    ensures var replaced := ReplacementLineCount(text, AddsNewline(Lines(d)[end - 1], text));
            var out := Lines(Splice(d, start, end, text));
            Agrees(AfterEdit(v, out, start, end, replaced), out)
  {
    hide Lines, Splice, Sum, ReplacementLineCount, AddsNewline, Replacement;
    SpliceLines(d, start, end, text);
    ReplacementCount(Lines(d)[end - 1], text);
    var lines, out := Lines(d), Lines(Splice(d, start, end, text));
    var replaced := ReplacementLineCount(text, AddsNewline(lines[end - 1], text));
    assert forall i :: 0 <= i < start - 1 ==> out[i] == lines[i];
    assert replaced == end - start + 1 ==> forall i :: end <= i < |out| ==> out[i] == lines[end..][i - end];
  }

  // ---------- old/new edits ----------

  /** The file after replacing `oldLen` bytes at `p`. */
  function ReplaceAt(d: string, p: nat, oldLen: nat, text: string): string
    requires p + oldLen <= |d|
  {
    d[..p] + text + d[p + oldLen..]
  }

  /** Where the line that holds a byte starts and ends. */
  lemma {:induction false} LineForBounds(lines: seq<string>, off: nat)
    requires off < |Flatten(lines)|
    ensures var n := LineFor(lines, off);
            n <= |lines| && |Flatten(lines[..n - 1])| <= off < |Flatten(lines[..n])|
  {
    var n := LineFor(lines, off);
    assert lines == [lines[0]] + lines[1..];
    if |lines| == 1 || off < |lines[0]| {
      assert lines[..0] == [] && lines[..1] == [lines[0]];
      FlattenCons(lines[0], []);
      if |lines| == 1 { assert lines[..1] == lines; }
    } else {
      LineForBounds(lines[1..], off - |lines[0]|);
      assert lines[..n - 1] == [lines[0]] + lines[1..][..n - 2];
      assert lines[..n] == [lines[0]] + lines[1..][..n - 1];
      FlattenCons(lines[0], lines[1..][..n - 2]);
      FlattenCons(lines[0], lines[1..][..n - 1]);
    }
  }

  lemma {:induction false} LineForMonotone(lines: seq<string>, a: nat, b: nat)
    requires a <= b
    ensures LineFor(lines, a) <= LineFor(lines, b)
    decreases |lines|
  {
    if !(|lines| <= 1 || a < |lines[0]|) {
      LineForMonotone(lines[1..], a - |lines[0]|, b - |lines[0]|);
    }
  }

  /** Lines in front of a change keep their text and number. */
  lemma LinesBefore(a: string, x: string, y: string)
    requires Complete(a)
    ensures |Lines(a)| <= |Lines(a + x)| && |Lines(a)| <= |Lines(a + y)|
    ensures forall i :: 0 <= i < |Lines(a)| ==> Lines(a + x)[i] == Lines(a + y)[i]
  {
    LinesAppend(a, x);
    LinesAppend(a, y);
  }

  /** A buffer is complete lines followed by a rest without a newline. */
  lemma {:induction false} LastPart(y: string) returns (z: string, w: string)
    requires LfOnly(y)
    ensures y == z + w && Complete(z) && LfOnly(z) && LfOnly(w) && '\n' !in w
    decreases |y|
  {
    if y == [] || y[|y| - 1] == '\n' {
      z, w := y, [];
    } else {
      z, w := LastPart(y[..|y| - 1]);
      w := w + [y[|y| - 1]];
    }
  }

  /** What follows a change: if the line count did not change, every line after the first one
      that follows keeps its text and number. */
  lemma {:induction false} LinesAfter(y: string, b: string, n: nat)
    requires LfOnly(y) && LfOnly(b)
    requires |Lines(y + b)| == n + |Lines(b)|
    ensures forall j :: 1 <= j < |Lines(b)| ==> Lines(y + b)[n + j] == Lines(b)[j]
  {
    hide LfOnly, Complete, LineLen;
    var z, w := LastPart(y);
    assert y + b == z + (w + b);
    LinesAppend(z, w + b);
    if b != [] {
      if w == [] {
        assert w + b == b;
      } else {
        JoinFirst(w, b);
      }
    }
  }

  /** A newline-free prefix joins the first line that follows it and leaves the others. */
  lemma JoinFirst(w: string, b: string)
    requires LfOnly(w) && LfOnly(b) && '\n' !in w && b != []
    ensures Lines(w + b) == [w + Lines(b)[0]] + Lines(b)[1..]
  {
    JoinLength(w, b);
    JoinFirstAt(w, b, LineLen(b));
  }

  lemma JoinFirstAt(w: string, b: string, l: nat)
    requires b != [] && l == LineLen(b) && LineLen(w + b) == |w| + l
    ensures Lines(w + b) == [w + Lines(b)[0]] + Lines(b)[1..]
  {
    hide LineLen, Lines;
    LinesStep(b);
    LinesStep(w + b);
    JoinSlices(w, b, l);
    var first, rest := b[..l], Lines(b[l..]);
    assert ([first] + rest)[0] == first && ([first] + rest)[1..] == rest;
  }

  lemma JoinSlices(w: string, b: string, l: nat)
    requires l <= |b|
    ensures (w + b)[..|w| + l] == w + b[..l] && (w + b)[|w| + l..] == b[l..]
  {
  }

  lemma JoinLength(w: string, b: string)
    requires LfOnly(w) && LfOnly(b) && '\n' !in w && b != []
    ensures LineLen(w + b) == |w| + LineLen(b)
  {
    BodyLenUnique(w + b, |w| + BodyLen(b));
  }

  /** An old/new edit: the cache after the update, then after the context refresh.  Every known
      entry except possibly the one right after the replaced span agrees at once; the refresh
      records that one too. */
  lemma {:induction false} OldNewAgrees(v: View, d: string, p: nat, oldLen: nat, text: string)
    requires LfOnly(d) && LfOnly(text) && 0 < oldLen && p + oldLen <= |d|
    requires Agrees(v, Lines(d))
    ensures var lines, out := Lines(d), Lines(ReplaceAt(d, p, oldLen, text));
            var start, end := LineFor(lines, p), LineFor(lines, p + oldLen - 1);
            && start <= end
            && (var u := AfterOldNew(v, lines, out, start, end);
                && (forall i :: 0 <= i < |u| && u[i].Some? && i != end ==> i < |out| && u[i] == Sum(out[i]))
                && Agrees(Context(u, out, start, end + |out| - |lines|), out))
  {
    hide Sum, Lines, LfOnly, Complete, Flatten, LineFor;
    var lines := Lines(d);
    var res := ReplaceAt(d, p, oldLen, text);
    var out := Lines(res);
    LinesTile(d);
    LineForBounds(lines, p);
    LineForBounds(lines, p + oldLen - 1);
    LineForMonotone(lines, p, p + oldLen - 1);
    var start, end := LineFor(lines, p), LineFor(lines, p + oldLen - 1);
    var u := AfterOldNew(v, lines, out, start, end);
    FrontKept(d, p, oldLen, text, start);
    if |out| == |lines| { BackKept(d, p, oldLen, text, end); }
    if out != [] {
      var (from, to) := ContextRange(|out|, start, end + |out| - |lines|);
      assert |out| == |lines| && end < |out| ==> from <= end < to;
    }
  }

  lemma {:induction false} FrontKept(d: string, p: nat, oldLen: nat, text: string, start: nat)
    requires LfOnly(d) && LfOnly(text) && p + oldLen <= |d|
    requires 1 <= start <= |Lines(d)| && |Flatten(Lines(d)[..start - 1])| <= p
    ensures var out := Lines(ReplaceAt(d, p, oldLen, text));
            start - 1 <= |out| && forall i :: 0 <= i < start - 1 ==> out[i] == Lines(d)[i]
  {
    hide Lines, LfOnly, Complete, Flatten;
    PrefixLines(d, start - 1);
    var a := Flatten(Lines(d)[..start - 1]);
    var rest := d[|a|..];
    var y := d[|a|..p] + text + d[p + oldLen..];
    assert d == a + rest;
    assert ReplaceAt(d, p, oldLen, text) == a + y;
    LinesBefore(a, rest, y);
  }

  lemma {:induction false} BackKept(d: string, p: nat, oldLen: nat, text: string, end: nat)
    requires LfOnly(d) && LfOnly(text) && p + oldLen <= |d|
    requires 1 <= end <= |Lines(d)| && p + oldLen <= |Flatten(Lines(d)[..end])|
    requires |Lines(ReplaceAt(d, p, oldLen, text))| == |Lines(d)|
    ensures forall i :: end < i < |Lines(d)| ==> Lines(ReplaceAt(d, p, oldLen, text))[i] == Lines(d)[i]
  {
    hide Lines, LfOnly, Complete, Flatten;
    PrefixLines(d, end);
    var a, b := Flatten(Lines(d)[..end]), Flatten(Lines(d)[end..]);
    var y := d[..p] + text + a[p + oldLen..];
    assert ReplaceAt(d, p, oldLen, text) == y + b;
    EditedLf(d, p, a, oldLen, text);
    LinesAfter(y, b, end);
    assert forall j :: 1 <= j < |Lines(b)| ==> Lines(b)[j] == Lines(d)[end + j];
    forall i | end < i < |Lines(d)|
      ensures Lines(ReplaceAt(d, p, oldLen, text))[i] == Lines(d)[i]
    {
      assert Lines(y + b)[end + (i - end)] == Lines(b)[i - end];
    }
  }

  /** When the line right after the replaced span survives: the span ends inside its own last
      line, or the new text ends at the end of a line. */
  predicate NextLineSafe(d: string, p: nat, oldLen: nat, text: string, end: nat)
    requires p <= |d| && end <= |Lines(d)|
  {
    p + oldLen < |Flatten(Lines(d)[..end])| || Complete(d[..p] + text)
  }

  lemma SameCountLines(y: string, b: string, n: nat)
    requires Complete(y) && |Lines(y + b)| == n + |Lines(b)| && b != []
    ensures Lines(b) != [] && n < |Lines(y + b)| && Lines(y + b)[n] == Lines(b)[0]
  {
    hide Complete;
    LinesAppend(y, b);
    LinesStep(b);
  }

  /** Behind an incomplete line the first line that follows becomes a longer one. */
  lemma {:induction false} LongerLine(y: string, b: string, n: nat)
    requires LfOnly(y) && LfOnly(b) && !Complete(y) && b != [] && |Lines(y + b)| == n + |Lines(b)|
    ensures Lines(b) != [] && n < |Lines(y + b)| && Lines(y + b)[n] != Lines(b)[0]
  {
    hide LfOnly, Complete, Lines;
    var z, w := LastPart(y);
    WholeComplete(y, z, w);
    assert y + b == z + (w + b);
    JoinedBehind(z, w, b);
    OtherLine(Lines(z), w, Lines(b), n);
  }

  lemma JoinedBehind(z: string, w: string, b: string)
    requires Complete(z) && LfOnly(w) && LfOnly(b) && '\n' !in w && b != []
    ensures Lines(b) != [] && Lines(z + (w + b)) == Lines(z) + ([w + Lines(b)[0]] + Lines(b)[1..])
  {
    hide LfOnly, Complete, Lines;
    LinesAppend(z, w + b);
    JoinFirst(w, b);
    LinesStep(b);
  }

  lemma OtherLine(front: seq<string>, w: string, back: seq<string>, n: nat)
    requires back != [] && w != [] && |front| + |back| == n + |back|
    ensures (front + ([w + back[0]] + back[1..]))[n] != back[0]
  {
    assert |w + back[0]| > |back[0]|;
  }

  lemma WholeComplete(y: string, z: string, w: string)
    requires y == z + w && Complete(z) && !Complete(y)
    ensures w != []
  {
    assert w == [] ==> y == z;
  }

  /** With as many lines as before, the line right after the span is the same exactly when it is
      safe; otherwise it has become a different line. */
  lemma {:induction false} NextLineExact(d: string, p: nat, oldLen: nat, text: string, end: nat)
    requires LfOnly(d) && LfOnly(text) && p + oldLen <= |d|
    requires 1 <= end < |Lines(d)| && p + oldLen <= |Flatten(Lines(d)[..end])|
    requires |Lines(ReplaceAt(d, p, oldLen, text))| == |Lines(d)|
    ensures Lines(ReplaceAt(d, p, oldLen, text))[end] == Lines(d)[end] <==> NextLineSafe(d, p, oldLen, text, end)
  {
    hide Lines, LfOnly, Complete, Flatten;
    PrefixLines(d, end);
    var a, b := Flatten(Lines(d)[..end]), Flatten(Lines(d)[end..]);
    var mid := a[p + oldLen..];
    var y := d[..p] + text + mid;
    assert ReplaceAt(d, p, oldLen, text) == y + b;
    EditedLf(d, p, a, oldLen, text);
    assert Lines(b)[0] == Lines(d)[end];
    NothingLines();
    if p + oldLen < |a| {
      EndsAlike(a, p + oldLen, d[..p] + text);
      SameCountLines(y, b, end);
    } else {
      assert y == d[..p] + text;
      if Complete(y) {
        SameCountLines(y, b, end);
      } else {
        LongerLine(y, b, end);
      }
    }
  }

  lemma EndsAlike(a: string, k: nat, x: string)
    requires Complete(a) && k < |a|
    ensures Complete(x + a[k..])
  {
  }

  /** So the update of an old/new edit already leaves every remembered checksum right, unless
      the line count stays and the next line is not safe: then that one line differs. */
  lemma {:induction false} UpdateAgreesUnless(v: View, d: string, p: nat, oldLen: nat, text: string)
    requires LfOnly(d) && LfOnly(text) && 0 < oldLen && p + oldLen <= |d|
    requires Agrees(v, Lines(d))
    ensures var lines, out := Lines(d), Lines(ReplaceAt(d, p, oldLen, text));
            var start, end := LineFor(lines, p), LineFor(lines, p + oldLen - 1);
            && start <= end <= |lines|
            && (if |out| != |lines| || end == |lines| || NextLineSafe(d, p, oldLen, text, end)
                then Agrees(AfterOldNew(v, lines, out, start, end), out)
                else out[end] != lines[end])
  {
    hide Sum, Lines, LfOnly, Complete, Flatten, LineFor, NextLineSafe;
    var lines, out := Lines(d), Lines(ReplaceAt(d, p, oldLen, text));
    OldNewAgrees(v, d, p, oldLen, text);
    LinesTile(d);
    LineForBounds(lines, p + oldLen - 1);
    var end := LineFor(lines, p + oldLen - 1);
    if |out| == |lines| && end < |lines| { NextLineExact(d, p, oldLen, text, end); }
  }

  lemma EditedLf(d: string, p: nat, a: string, oldLen: nat, text: string)
    requires LfOnly(d) && LfOnly(text) && LfOnly(a) && p <= |d| && p + oldLen <= |a|
    ensures LfOnly(d[..p] + text + a[p + oldLen..])
  {
  }

  lemma TwoLines(a: string, b: string)
    requires LfLine(a) && Complete(a) && LfLine(b)
    ensures Lines(a + b) == [a, b]
  {
    hide LfLine, Complete, Lines;
    OneLine(a);
    OneLine(b);
    LinesAppend(a, b);
  }

  /** Without the refresh the cache can be stale: after replacing "a\n" by "x\ny" in "a\nb\n",
      line 2 is still remembered as "b" while the file now says "yb". */
  lemma {:induction false} StaleWithoutRefresh()
    ensures var d, res := "a\nb\n", ReplaceAt("a\nb\n", 0, 2, "x\ny");
            && Lines(d) == ["a\n", "b\n"] && Lines(res) == ["x\n", "yb\n"]
            && AfterOldNew(RememberWhole(Lines(d)), Lines(d), Lines(res), LineFor(Lines(d), 0), LineFor(Lines(d), 1))
               == [None, Sum("b\n")]
  {
    hide Sum, Lines;
    var d, res := "a\nb\n", ReplaceAt("a\nb\n", 0, 2, "x\ny");
    assert res == "x\n" + "yb\n" && d == "a\n" + "b\n";
    TwoLines("a\n", "b\n");
    TwoLines("x\n", "yb\n");
  }
}
