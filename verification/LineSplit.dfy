/** Splitting a text buffer into editable lines, and the line/range splice. */
module LineSplit {
  import opened Text

  predicate IsEol(c: char) {
    c == '\n' || c == '\r'
  }

  /** The number of bytes in front of the first line terminator of `d`. */
  function BodyLen(d: string): (n: nat)
    ensures n <= |d|
    ensures forall k :: 0 <= k < n ==> !IsEol(d[k])
    ensures n < |d| ==> IsEol(d[n])
  {
    if d == [] || IsEol(d[0]) then 0 else 1 + BodyLen(d[1..])
  }

  /** The length of the first line of `d`, with its terminator: LF, CR or CR LF. */
  function LineLen(d: string): (n: nat)
    ensures n <= |d| && (d != [] ==> 0 < n)
  {
    var b := BodyLen(d);
    if b == |d| then b
    else if d[b] == '\r' && b + 1 < |d| && d[b + 1] == '\n' then b + 2
    else b + 1
  }

  /** The lines of a buffer, each with its terminator. */
  function Lines(d: string): seq<string>
    decreases |d|
  {
    if d == [] then [] else [d[..LineLen(d)]] + Lines(d[LineLen(d)..])
  }

  /** A line without its terminator. */
  function Body(line: string): string {
    line[..BodyLen(line)]
  }

  ghost predicate LfOnly(d: string) {
    '\r' !in d
  }

  /** Ends exactly where a line does. */
  predicate Complete(d: string) {
    d == [] || d[|d| - 1] == '\n'
  }

  lemma BodyLenUnique(d: string, n: nat)
    requires n <= |d| && (forall k :: 0 <= k < n ==> !IsEol(d[k])) && (n < |d| ==> IsEol(d[n]))
    ensures BodyLen(d) == n
  {
    var m := BodyLen(d);
  }

  /** Lines tile the buffer exactly. */
  lemma {:induction false} LinesTile(d: string)
    ensures Flatten(Lines(d)) == d
    ensures forall i :: 0 <= i < |Lines(d)| ==> Lines(d)[i] != []
    decreases |d|
  {
    if d != [] {
      var n := LineLen(d);
      LinesTile(d[n..]);
      assert d[..n] + d[n..] == d;
    }
  }

  /** A line of LF-only data: no newline but, perhaps, at its end. */
  ghost predicate LfLine(l: string) {
    l != [] && LfOnly(l) && forall k :: 0 <= k < |l| - 1 ==> l[k] != '\n'
  }

  /** A line: a body without terminators and then one terminator, or at the end of the buffer
      none.  A CR is the whole terminator only when no LF follows it. */
  ghost predicate IsLine(l: string, next: string) {
    exists body, eol :: l == body + eol && l != []
      && (forall c :: c in body ==> !IsEol(c))
      && (|| eol == "\n" || eol == "\r\n"
          || (eol == "\r" && (next == [] || next[0] != '\n'))
          || (eol == "" && next == []))
  }

  ghost predicate AreLines(ls: seq<string>) {
    forall i :: 0 <= i < |ls| ==> IsLine(ls[i], Flatten(ls[i + 1..]))
  }

  /** The lines of a buffer are the one way to cut it into lines. */
  lemma {:induction false} LinesExact(d: string, ls: seq<string>)
    ensures ls == Lines(d) <==> Flatten(ls) == d && AreLines(ls)
    decreases |d|
  {
    hide LineLen, IsLine;
    if d == [] {
      if ls != [] && AreLines(ls) { LineNotEmpty(ls[0], Flatten(ls[1..])); }
    } else if ls != [] {
      var n := LineLen(d);
      LinesExact(d[n..], ls[1..]);
      LinesTile(d[n..]);
      FirstIsLine(d);
      if Flatten(ls) == d && AreLines(ls) {
        LineIsFirst(ls[0], Flatten(ls[1..]));
        forall i | 0 <= i < |ls[1..]| ensures IsLine(ls[1..][i], Flatten(ls[1..][i + 1..])) {
          assert ls[1..][i] == ls[i + 1] && ls[1..][i + 1..] == ls[i + 2..];
        }
        assert d[..n] == ls[0] && d[n..] == Flatten(ls[1..]);
      }
      if ls == Lines(d) {
        assert ls[0] == d[..n] && ls[1..] == Lines(d[n..]);
        forall i | 0 <= i < |ls| ensures IsLine(ls[i], Flatten(ls[i + 1..])) {
          if i > 0 { assert ls[1..][i - 1] == ls[i] && ls[1..][i..] == ls[i + 1..]; }
        }
      }
    }
  }

  lemma LineNotEmpty(l: string, next: string)
    requires IsLine(l, next)
    ensures l != []
  {
  }

  lemma FirstIsLine(d: string)
    requires d != []
    ensures IsLine(d[..LineLen(d)], d[LineLen(d)..])
  {
    var b, n := BodyLen(d), LineLen(d);
    assert d[..n] == d[..b] + d[b..n];
    if b < |d| {
      assert d[b..n] == "\n" || d[b..n] == "\r\n" || d[b..n] == "\r";
    }
  }

  lemma LineIsFirst(l: string, next: string)
    requires IsLine(l, next)
    ensures LineLen(l + next) == |l| && (l + next)[..|l|] == l && (l + next)[|l|..] == next
  {
    var d := l + next;
    var body, eol :| l == body + eol && l != []
      && (forall c :: c in body ==> !IsEol(c))
      && (|| eol == "\n" || eol == "\r\n"
          || (eol == "\r" && (next == [] || next[0] != '\n'))
          || (eol == "" && next == []));
    forall k | 0 <= k < |body| ensures !IsEol(d[k]) { assert d[k] == body[k]; }
    BodyLenUnique(d, |body|);
    if eol != "" { assert d[|body|] == eol[0]; }
    if |eol| == 2 { assert d[|body| + 1] == eol[1]; }
  }

  lemma LfBody(l: string)
    requires LfLine(l)
    ensures Body(l) == (if Complete(l) then l[..|l| - 1] else l)
    ensures (Body(l) != l) == Complete(l)
  {
    BodyLenUnique(l, if Complete(l) then |l| - 1 else |l|);
  }

  lemma LfFirst(d: string)
    requires d != [] && LfOnly(d)
    ensures LfLine(d[..LineLen(d)]) && LfOnly(d[LineLen(d)..])
    ensures LineLen(d) < |d| ==> Complete(d[..LineLen(d)])
  {
    var b := BodyLen(d);
  }

  /** In LF-only data every line but perhaps the last ends in a newline. */
  lemma {:induction false} LfLines(d: string)
    requires LfOnly(d)
    ensures forall i :: 0 <= i < |Lines(d)| ==> LfLine(Lines(d)[i])
    ensures forall i :: 0 <= i < |Lines(d)| - 1 ==> Complete(Lines(d)[i])
    decreases |d|
  {
    hide LfOnly, LfLine, Complete, LineLen;
    if d != [] {
      var n := LineLen(d);
      LfFirst(d);
      LfLines(d[n..]);
      assert Lines(d) == [d[..n]] + Lines(d[n..]);
      assert n == |d| ==> d[n..] == [];
    }
  }

  /** The first line is the same whatever follows a complete buffer. */
  lemma LineLenAppend(a: string, b: string)
    requires a != [] && Complete(a)
    ensures LineLen(a + b) == LineLen(a)
  {
    var n := BodyLen(a);
    assert a[|a| - 1] == '\n';
    BodyLenUnique(a + b, n);
  }

  /** Splitting distributes over concatenation at a line boundary. */
  lemma {:induction false} LinesAppend(a: string, b: string)
    requires Complete(a)
    ensures Lines(a + b) == Lines(a) + Lines(b)
    decreases |a|
  {
    if a == [] {
      assert a + b == b;
    } else {
      var n := LineLen(a);
      LineLenAppend(a, b);
      assert (a + b)[..n] == a[..n] && (a + b)[n..] == a[n..] + b;
      LinesAppend(a[n..], b);
    }
  }

  lemma FlattenCons(l: string, ls: seq<string>)
    ensures Flatten([l] + ls) == l + Flatten(ls)
  {
    assert ([l] + ls)[1..] == ls;
  }

  /** Lines put together again are split back into the same lines. */
  lemma {:induction false} LinesOfFlatten(ls: seq<string>)
    requires forall i :: 0 <= i < |ls| ==> LfLine(ls[i])
    requires forall i :: 0 <= i < |ls| - 1 ==> Complete(ls[i])
    ensures Lines(Flatten(ls)) == ls && LfOnly(Flatten(ls))
    ensures ls != [] && Complete(ls[|ls| - 1]) ==> Complete(Flatten(ls))
  {
    if ls != [] {
      var l, rest := ls[0], ls[1..];
      LinesOfFlatten(rest);
      assert ls == [l] + rest;
      OneLine(l);
      if rest == [] {
        assert Flatten(ls) == l;
      } else {
        LinesAppend(l, Flatten(rest));
        JoinLf(l, Flatten(rest));
        LinesTile(Flatten(rest));
      }
    }
  }

  lemma JoinLf(a: string, b: string)
    requires LfOnly(a) && LfOnly(b)
    ensures LfOnly(a + b)
    ensures b != [] && Complete(b) ==> Complete(a + b)
  {
  }

  /** A run of lines of LF-only data: each side of a line boundary is split as in the whole. */
  lemma {:induction false} PrefixLines(d: string, k: nat)
    requires LfOnly(d) && k <= |Lines(d)|
    ensures var a, b := Flatten(Lines(d)[..k]), Flatten(Lines(d)[k..]);
            && a + b == d && LfOnly(a) && LfOnly(b)
            && (k < |Lines(d)| ==> Complete(a))
            && Lines(a) == Lines(d)[..k] && Lines(b) == Lines(d)[k..]
  {
    hide LfLine, Complete, LfOnly, Lines, Flatten;
    var ls := Lines(d);
    LinesTile(d);
    LfLines(d);
    assert ls[..k] + ls[k..] == ls;
    FlattenAppend(ls[..k], ls[k..]);
    LinesOfFlatten(ls[..k]);
    LinesOfFlatten(ls[k..]);
    assert Complete([]) by { NothingComplete(); }
  }

  lemma NothingComplete()
    ensures Complete([])
  {
  }

  lemma OneLine(l: string)
    requires LfLine(l)
    ensures Lines(l) == [l]
  {
    LfBody(l);
    BodyLenUnique(l, if Complete(l) then |l| - 1 else |l|);
    assert l[..|l|] == l && l[|l|..] == [];
  }

  // ---------- line/range splice ----------

  /** Whether the replacement gets a newline of its own: the replaced range ended in one and
      the text is nonempty and does not. */
  predicate AddsNewline(lastLine: string, text: string) {
    Body(lastLine) != lastLine && text != [] && text[|text| - 1] != '\n'
  }

  function Replacement(lastLine: string, text: string): string {
    if AddsNewline(lastLine, text) then text + "\n" else text
  }

  /** The buffer with lines `start`..`end` (counted from 1) replaced. */
  function Splice(d: string, start: nat, end: nat, text: string): string
    requires 1 <= start <= end <= |Lines(d)|
  {
    Flatten(Lines(d)[..start - 1]) + Replacement(Lines(d)[end - 1], text) + Flatten(Lines(d)[end..])
  }

  function ReplacementLineCount(text: string, addNewline: bool): nat {
    var n := |Lines(text)|;
    if n != 0 then n else if addNewline then 1 else 0
  }

  /** A line/range edit replaces exactly the lines it names: the lines before and after stay,
      in place and whole. */
  lemma {:induction false} SpliceLines(d: string, start: nat, end: nat, text: string)
    requires LfOnly(d) && LfOnly(text) && 1 <= start <= end <= |Lines(d)|
    ensures LfOnly(Splice(d, start, end, text))
    ensures Lines(Splice(d, start, end, text)) ==
            Lines(d)[..start - 1] + Lines(Replacement(Lines(d)[end - 1], text)) + Lines(d)[end..]
  {
    hide LfLine, LfOnly, Body, Complete, Lines, Flatten, Replacement;
    var ls := Lines(d);
    var r := Replacement(ls[end - 1], text);
    var a, b := Flatten(ls[..start - 1]), Flatten(ls[end..]);
    PrefixLines(d, start - 1);
    PrefixLines(d, end);
    LfLines(d);
    LfBody(ls[end - 1]);
    ReplacementLf(ls[end - 1], text);
    LinesAppend(a, r + b);
    assert a + r + b == a + (r + b);
    JoinLf(a, r);
    JoinLf(a + r, b);
    if end < |ls| {
      LinesAppend(r, b);
    } else {
      assert ls[end..] == [];
      FlattenNothing();
      assert r + b == r && Lines(r) + ls[end..] == Lines(r);
    }
    assert ls[..start - 1] + Lines(r) + ls[end..] == ls[..start - 1] + (Lines(r) + ls[end..]);
  }

  lemma FlattenNothing()
    ensures Flatten<char>([]) == []
  {
  }

  lemma ReplacementLf(lastLine: string, text: string)
    requires LfOnly(text)
    ensures LfOnly(Replacement(lastLine, text))
    ensures Body(lastLine) != lastLine ==> Complete(Replacement(lastLine, text))
  {
  }

  /** The reported line count is the number of lines the replacement occupies. */
  lemma {:induction false} ReplacementCount(lastLine: string, text: string)
    ensures ReplacementLineCount(text, AddsNewline(lastLine, text)) == |Lines(Replacement(lastLine, text))|
  {
    if AddsNewline(lastLine, text) {
      AddNewlineKeepsCount(text);
    }
  }

  lemma {:induction false} AddNewlineKeepsCount(text: string)
    requires text != [] && text[|text| - 1] != '\n'
    ensures |Lines(text + "\n")| == |Lines(text)| > 0
    decreases |text|
  {
    var n := LineLen(text);
    var u := text + "\n";
    var b := BodyLen(text);
    BodyLenUnique(u, b);
    if n < |text| {
      assert LineLen(u) == n;
      assert u[..n] == text[..n] && u[n..] == text[n..] + "\n";
      AddNewlineKeepsCount(text[n..]);
    } else {
      assert LineLen(u) == |u|;
      assert u[|u|..] == [] && text[|text|..] == [];
    }
  }

  // ---------- the loops ----------

  datatype Span = Span(start: nat, contentEnd: nat, end: nat)

  /** The spans cut `d[..pos]` into exactly `lines`. */
  ghost predicate SpansAre(d: string, spans: seq<Span>, lines: seq<string>) {
    && |spans| == |lines|
    && forall i :: 0 <= i < |spans| ==>
         && spans[i].start <= spans[i].contentEnd <= spans[i].end <= |d|
         && spans[i].start == |Flatten(lines[..i])| && spans[i].end == |Flatten(lines[..i + 1])|
         && d[spans[i].start..spans[i].end] == lines[i]
         && d[spans[i].start..spans[i].contentEnd] == Body(lines[i])
  }

  lemma FlattenTake(lines: seq<string>, line: string, i: nat)
    requires i <= |lines|
    ensures (lines + [line])[..i] == lines[..i]
    ensures Flatten((lines + [line])[..|lines| + 1]) == Flatten(lines) + line
  {
    assert (lines + [line])[..|lines| + 1] == lines + [line];
    FlattenAppend(lines, [line]);
    assert Flatten([line]) == line + Flatten<char>([]);
  }

  /** Scan one line from `start`: where its body and the line itself end. */
  method ScanLine(d: string, start: nat) returns (contentEnd: nat, pos: nat)
    requires start < |d|
    ensures start <= contentEnd <= pos <= |d|
    ensures contentEnd - start == BodyLen(d[start..]) && pos - start == LineLen(d[start..])
  {
    pos := start;
    while pos < |d| && !IsEol(d[pos])
      invariant start <= pos <= |d|
      invariant forall k :: start <= k < pos ==> !IsEol(d[k])
    {
      pos := pos + 1;
    }
    contentEnd := pos;
    BodyLenUnique(d[start..], contentEnd - start);
    if pos < |d| {
      if d[pos] == '\r' && pos + 1 < |d| && d[pos + 1] == '\n' {
        pos := pos + 2;
      } else {
        pos := pos + 1;
      }
    }
  }

  method SplitLines(d: string) returns (spans: seq<Span>)
    ensures SpansAre(d, spans, Lines(d))
  {
    hide LineLen, SpansAre;
    spans := [];
    ghost var lines := [];
    var pos := 0;
    assert SpansAre(d, [], []) by { NoSpans(d); }
    assert d[0..] == d;
    while pos < |d|
      invariant 0 <= pos <= |d| && pos == |Flatten(lines)|
      invariant Lines(d) == lines + Lines(d[pos..])
      invariant SpansAre(d, spans, lines)
    {
      var start := pos;
      var contentEnd;
      contentEnd, pos := ScanLine(d, start);
      ghost var line := d[start..pos];
      assert d[start..][..pos - start] == line && d[start..][pos - start..] == d[pos..];
      LineBody(d, start, contentEnd, pos);
      AddSpan(d, spans, lines, Span(start, contentEnd, pos), line);
      spans := spans + [Span(start, contentEnd, pos)];
      lines := lines + [line];
    }
    assert d[pos..] == [] && lines + [] == lines;
  }

  lemma NoSpans(d: string)
    ensures SpansAre(d, [], [])
  {
  }

  lemma LineBody(d: string, start: nat, contentEnd: nat, pos: nat)
    requires start <= contentEnd <= pos <= |d|
    requires contentEnd - start == BodyLen(d[start..]) && pos - start == LineLen(d[start..])
    ensures d[start..contentEnd] == Body(d[start..pos])
  {
    var line, rest := d[start..pos], d[start..];
    assert forall k :: 0 <= k < |line| ==> line[k] == rest[k];
    BodyLenUnique(line, contentEnd - start);
    assert line[..contentEnd - start] == d[start..contentEnd];
  }

  lemma AddSpan(d: string, spans: seq<Span>, lines: seq<string>, sp: Span, line: string)
    requires SpansAre(d, spans, lines)
    requires sp.start <= sp.contentEnd <= sp.end <= |d| && sp.start == |Flatten(lines)|
    requires d[sp.start..sp.end] == line && d[sp.start..sp.contentEnd] == Body(line)
    ensures SpansAre(d, spans + [sp], lines + [line])
    ensures |Flatten(lines + [line])| == sp.end
  {
    hide Flatten, Body;
    var ls := lines + [line];
    FlattenTake(lines, line, |lines|);
    assert ls[..|ls|] == ls && lines[..|lines|] == lines;
    assert forall i :: 0 <= i <= |lines| ==> ls[..i] == lines[..i];
    FlattenLen(lines, line);
  }

  lemma FlattenLen(lines: seq<string>, line: string)
    ensures |Flatten(lines + [line])| == |Flatten(lines)| + |line|
  {
    FlattenTake(lines, line, |lines|);
    assert (lines + [line])[..|lines| + 1] == lines + [line];
  }

  /** Counting the lines of a replacement text, without building spans. */
  method CountTextLines(text: string) returns (n: nat)
    ensures n == |Lines(text)|
  {
    hide LineLen;
    n := 0;
    var pos := 0;
    assert text[0..] == text;
    while pos < |text|
      invariant 0 <= pos <= |text|
      invariant n + |Lines(text[pos..])| == |Lines(text)|
    {
      ghost var start := pos;
      var _, next := ScanLine(text, pos);
      pos := next;
      assert text[start..][pos - start..] == text[pos..];
      n := n + 1;
    }
    assert text[pos..] == [];
  }

  // ---------- counting the lines of any text ----------

  lemma LinesStep(d: string)
    requires d != []
    ensures Lines(d) == [d[..LineLen(d)]] + Lines(d[LineLen(d)..])
  {
  }

  /** One more byte in front: it joins the first line or makes one of its own, and which of the
      two depends only on itself and the byte that follows. */
  predicate Joins(c: char, next: char) {
    !IsEol(c) || (c == '\r' && next == '\n')
  }

  lemma {:induction false} OneMoreByte(c: char, s: string)
    ensures |Lines([c] + s)| == if s != [] && Joins(c, s[0]) then |Lines(s)| else |Lines(s)| + 1
  {
    hide Lines, LineLen;
    var d := [c] + s;
    LinesStep(d);
    FirstLength(c, s);
    NothingLines();
    if s != [] && Joins(c, s[0]) {
      LinesStep(s);
      assert d[LineLen(s) + 1..] == s[LineLen(s)..];
    } else {
      assert d[1..] == s;
    }
  }

  lemma NothingLines()
    ensures Lines([]) == []
  {
  }

  lemma FirstLength(c: char, s: string)
    ensures LineLen([c] + s) == if s != [] && Joins(c, s[0]) then LineLen(s) + 1 else 1
  {
    var d := [c] + s;
    assert d[1..] == s;
    if !IsEol(c) {
      assert BodyLen(d) == 1 + BodyLen(s);
    } else {
      assert BodyLen(d) == 0;
      if s != [] && s[0] == '\n' { assert BodyLen(s) == 0; }
    }
  }

  /** The lines of two texts put together are as many as those of both, or one less. */
  lemma {:induction false} LinesAdd(x: string, y: string)
    ensures |Lines(x)| + |Lines(y)| - 1 <= |Lines(x + y)| <= |Lines(x)| + |Lines(y)|
    decreases |x|
  {
    hide Lines, Joins;
    NothingLines();
    if x == [] {
      assert x + y == y;
    } else {
      var rest := x[1..];
      assert x == [x[0]] + rest && x + y == [x[0]] + (rest + y);
      OneMoreByte(x[0], rest);
      OneMoreByte(x[0], rest + y);
      LinesAdd(rest, y);
      assert rest == [] ==> rest + y == y;
      assert rest != [] ==> (rest + y)[0] == rest[0];
    }
  }

  /** A first line that ends in front of the end is the same whatever follows. */
  lemma LineLenKept(x: string, y: string)
    requires x != []
    ensures LineLen(x) < |x| ==> LineLen(x + y) == LineLen(x)
    ensures LineLen(x) == |x| ==> LineLen(x + y) >= |x|
  {
    var n := BodyLen(x);
    if n < |x| {
      BodyLenUnique(x + y, n);
    } else {
      var m := BodyLen(x + y);
      assert m < |x| ==> IsEol((x + y)[m]);
    }
  }

  /** All lines of a text but its last one are still lines when more follows. */
  lemma {:induction false} LinesGrow(x: string, y: string)
    ensures |Lines(x)| <= |Lines(x + y)|
    ensures forall i :: 0 <= i < |Lines(x)| - 1 ==> Lines(x + y)[i] == Lines(x)[i]
    decreases |x|
  {
    hide Lines, LineLen;
    NothingLines();
    if x != [] {
      var n := LineLen(x);
      LineLenKept(x, y);
      LinesStep(x);
      LinesStep(x + y);
      if n < |x| {
        assert (x + y)[..n] == x[..n] && (x + y)[n..] == x[n..] + y;
        LinesGrow(x[n..], y);
      } else {
        assert x[n..] == [];
      }
    }
  }

  lemma {:induction false} FlattenMore(ls: seq<string>, i: nat, j: nat)
    requires i <= j <= |ls|
    ensures |Flatten(ls[..i])| <= |Flatten(ls[..j])| <= |Flatten(ls)|
  {
    FlattenAppend(ls[..i], ls[i..j]);
    assert ls[..i] + ls[i..j] == ls[..j];
    FlattenAppend(ls[..j], ls[j..]);
    assert ls[..j] + ls[j..] == ls;
  }

  /** Lines beyond those of `x` start behind it. */
  lemma {:induction false} StartsBehind(x: string, y: string, i: nat)
    requires |Lines(x)| <= i <= |Lines(x + y)|
    ensures |x| <= |Flatten(Lines(x + y)[..i])|
    decreases |x|
  {
    hide Lines, LineLen, Flatten;
    NothingLines();
    if x != [] {
      var n := LineLen(x);
      var first, all := LineLen(x + y), Lines(x + y);
      LineLenKept(x, y);
      LinesStep(x);
      LinesStep(x + y);
      FlattenCons((x + y)[..first], all[1..][..i - 1]);
      assert all[..i] == [(x + y)[..first]] + all[1..][..i - 1];
      if n < |x| {
        assert (x + y)[n..] == x[n..] + y;
        StartsBehind(x[n..], y, i - 1);
      }
    }
  }

  /** All lines of `x` but its last one end inside it. */
  lemma {:induction false} EndsInside(x: string, y: string, i: nat)
    requires i + 1 < |Lines(x)|
    ensures i + 1 < |Lines(x + y)| && |Flatten(Lines(x + y)[..i + 1])| <= |x|
  {
    hide Lines, Flatten;
    LinesGrow(x, y);
    LinesTile(x);
    assert Lines(x + y)[..i + 1] == Lines(x)[..i + 1];
    FlattenMore(Lines(x), i + 1, i + 1);
  }

  /** The first `k` lines of any text, taken alone, are `k` lines. */
  lemma {:induction false} PrefixCount(d: string, k: nat)
    requires k <= |Lines(d)|
    ensures |Lines(Flatten(Lines(d)[..k]))| == k
    decreases |d|
  {
    hide Lines, LineLen, Flatten;
    NothingLines();
    NothingFlat();
    if k > 0 {
      NotEmpty(d);
      var n := LineLen(d);
      var rest := d[n..];
      LinesStep(d);
      PrefixCount(rest, k - 1);
      var more := Flatten(Lines(rest)[..k - 1]);
      FlattenCons(d[..n], Lines(rest)[..k - 1]);
      assert Lines(d)[..k] == [d[..n]] + Lines(rest)[..k - 1];
      TiledPrefix(rest, k - 1);
      FirstStays(d, more);
      LinesStep(d[..n] + more);
      assert (d[..n] + more)[n..] == more;
    } else {
      assert Lines(d)[..0] == [];
    }
  }

  lemma NothingFlat()
    ensures Flatten<char>([]) == []
  {
  }

  lemma NotEmpty(d: string)
    ensures Lines(d) != [] ==> d != []
  {
  }

  lemma TiledPrefix(d: string, k: nat)
    requires k <= |Lines(d)|
    ensures Flatten(Lines(d)[..k]) <= d
  {
    hide Lines, Flatten;
    LinesTile(d);
    FlattenAppend(Lines(d)[..k], Lines(d)[k..]);
    assert Lines(d)[..k] + Lines(d)[k..] == Lines(d);
  }

  /** The first line is the same when only the front of what follows is kept. */
  lemma FirstStays(d: string, more: string)
    requires d != [] && more <= d[LineLen(d)..]
    ensures LineLen(d[..LineLen(d)] + more) == LineLen(d)
  {
    var n := LineLen(d);
    var e := d[..n] + more;
    assert forall i :: 0 <= i < |e| ==> e[i] == if i < n then d[i] else d[n..][i - n];
    BodyLenUnique(e, BodyLen(d));
  }

  // ---------- lines that a text put into a file ----------

  /** The lines of a file that start, and whose bodies lie, inside its bytes `from`..`to`. */
  function LinesWithin(d: string, from: nat, to: nat): set<nat> {
    set i: nat | i < |Lines(d)| && Within(Lines(d), i, from, to)
  }

  predicate Within(lines: seq<string>, i: nat, from: nat, to: nat)
    requires i < |lines|
  {
    var start := |Flatten(lines[..i])|;
    from <= start < to && start + |Body(lines[i])| <= to
  }

  /** Counting lines finds them: a line number past those in front of a text, and short of those
      up to its end, is a line inside the text. */
  lemma {:induction false} CountedWithin(a: string, text: string, b: string, i: nat)
    requires |Lines(a)| <= i && i + 1 < |Lines(a + text)|
    ensures i in LinesWithin(a + text + b, |a|, |a + text|)
  {
    hide Lines, Flatten, Body;
    var y := a + text;
    var d := y + b;
    EndsInside(y, b, i);
    LinesTile(d);
    assert d == a + (text + b);
    StartsBehind(a, text + b, i);
    FlattenLen(Lines(d)[..i], Lines(d)[i]);
    assert Lines(d)[..i] + [Lines(d)[i]] == Lines(d)[..i + 1];
    BodyShort(Lines(d)[i]);
  }

  lemma BodyShort(line: string)
    ensures |Body(line)| <= |line|
  {
  }

  /** A whole text is all its lines. */
  lemma {:induction false} AllWithin(d: string, i: nat)
    requires i < |Lines(d)|
    ensures i in LinesWithin(d, 0, |d|)
  {
    hide Lines, Flatten, Body;
    LinesTile(d);
    FlattenLen(Lines(d)[..i], Lines(d)[i]);
    assert Lines(d)[..i] + [Lines(d)[i]] == Lines(d)[..i + 1];
    FlattenMore(Lines(d), i, i + 1);
    BodyShort(Lines(d)[i]);
  }
}
