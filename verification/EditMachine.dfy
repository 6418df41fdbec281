/** The edit tools as the worker runs them: loops over line spans that update its view store
    and files, each proved equal to the functions of modules FileView and EditTools. */
module EditMachine {
  import opened Options
  import opened Text
  import opened LineSplit
  import opened FileView
  import opened EditTools

  /** First occurrence at or after `from`, byte by byte. */
  method Memmem(hay: string, from: nat, needle: string) returns (r: Option<nat>)
    requires from <= |hay| && needle != []
    ensures r == FindSub(hay, from, needle)
  {
    if |needle| > |hay| - from {
      return None;
    }
    var last := |hay| - |needle|;
    var i := from;
    while i <= last
      invariant from <= i <= last + 1
      invariant forall k :: from <= k < i ==> !At(hay, k, needle)
    {
      if hay[i] == needle[0] && hay[i..i + |needle|] == needle {
        FindSubUnique(hay, from, needle, i);
        return Some(i);
      }
      assert !At(hay, i, needle) by { if At(hay, i, needle) { AtChars(hay, i, needle); } }
      i := i + 1;
    }
    return None;
  }

  /** The 1-based line whose span holds byte `off`. */
  method LineForOffset(d: string, spans: seq<Span>, ghost lines: seq<string>, off: nat) returns (n: nat)
    requires SpansAre(d, spans, lines)
    ensures n == LineFor(lines, off)
  {
    hide Flatten, LineFor;
    FirstLine(lines, off);
    if |spans| == 0 {
      return 1;
    }
    var i := 0;
    while i < |spans|
      invariant 0 <= i <= |spans|
      invariant |Flatten(lines[..i])| <= off
      invariant i < |spans| ==> LineFor(lines, off) == i + LineFor(lines[i..], off - |Flatten(lines[..i])|)
      invariant i == |spans| ==> LineFor(lines, off) == |spans|
    {
      LineForStep(lines, off, i);
      if off < spans[i].end {
        return i + 1;
      }
      i := i + 1;
    }
    return |spans|;
  }

  lemma FirstLine(lines: seq<string>, off: nat)
    ensures |Flatten(lines[..0])| == 0 && lines[0..] == lines && (lines == [] ==> LineFor(lines, off) == 1)
  {
  }

  /** The line that holds a byte is this one, or is found in the lines that follow. */
  lemma LineForStep(lines: seq<string>, off: nat, i: nat)
    requires i < |lines| && |Flatten(lines[..i])| <= off
    ensures var before, after := |Flatten(lines[..i])|, |Flatten(lines[..i + 1])|;
            && after == before + |lines[i]|
            && (off < after || i + 1 == |lines| ==> LineFor(lines[i..], off - before) == 1)
            && (off >= after && i + 1 < |lines| ==>
                  LineFor(lines[i..], off - before) == 1 + LineFor(lines[i + 1..], off - after))
  {
    hide Flatten;
    FlattenTake(lines[..i], lines[i], i);
    assert lines[..i] + [lines[i]] == lines[..i + 1];
    assert (lines[..i + 1])[..i + 1] == lines[..i + 1];
    assert lines[i..][1..] == lines[i + 1..];
  }

  /** The new file text of a line/range edit. */
  method BuildSplice(d: string, spans: seq<Span>, start: nat, end: nat, text: string)
    returns (out: string, addNewline: bool)
    requires SpansAre(d, spans, Lines(d)) && 1 <= start <= end <= |spans|
    ensures |spans| == |Lines(d)|
    ensures out == Splice(d, start, end, text) && addNewline == AddsNewline(Lines(d)[end - 1], text)
  {
    hide Lines, Flatten, Body;
    var s, e := spans[start - 1], spans[end - 1];
    EditedRange(d, spans, Lines(d), start, end);
    addNewline := e.end > e.contentEnd && |text| > 0 && text[|text| - 1] != '\n';
    out := d[..s.start] + text;
    if addNewline { out := out + "\n"; }
    out := out + d[e.end..];
    assert d[..s.start] + text + "\n" == d[..s.start] + (text + "\n");
  }

  class Worker {
    var files: map<string, string>
    var views: map<string, View>
    ghost var seen: seq<Told>

    ghost function W(): World
      reads this
    {
      World(files, views, seen)
    }

    constructor (files: map<string, string>)
      ensures W() == World(files, map[], [])
    {
      this.files, views, seen := files, map[], [];
    }

    /** The view of a path, created empty when there is none. */
    method GetView(path: string) returns (v: View)
      ensures v == ViewOf(W(), path)
    {
      v := if path in views then views[path] else [];
    }

    method RememberShown(path: string, d: string, spans: seq<Span>, ghost lines: seq<string>, from: nat, to: nat)
      requires SpansAre(d, spans, lines) && from <= to <= |spans|
      modifies `views
      ensures views == old(views)[path := RememberRange(ViewOf(old(W()), path), lines, from, to)]
    {
      hide Crc;
      var v := GetView(path);
      if |spans| > |v| { v := Resize(v, |spans|); }
      ghost var g := v;
      var i := from;
      while i < to
        invariant from <= i <= to && |v| == |g|
        invariant forall k :: 0 <= k < |v| ==> v[k] == if from <= k < i then Sum(lines[k]) else g[k]
      {
        var sp := spans[i];
        v := v[i := Some(Crc(d[sp.start..sp.contentEnd]))];
        i := i + 1;
      }
      assert v == RememberRange(ViewOf(old(W()), path), lines, from, to);
      views := views[path := v];
    }

    method VerifySeenRange(path: string, d: string, spans: seq<Span>, ghost lines: seq<string>, start: nat, end: nat)
      returns (why: Option<Refusal>)
      requires SpansAre(d, spans, lines) && 1 <= start && end <= |spans|
      ensures why == if path !in views then Some(NeverSeen) else VerifyFrom(views[path], lines, start, end)
    {
      hide Crc;
      if path !in views {
        return Some(NeverSeen);
      }
      var v := views[path];
      var line := start;
      while line <= end
        invariant start <= line && (line <= end + 1 || line == start)
        invariant VerifyFrom(v, lines, start, end) == VerifyFrom(v, lines, line, end)
      {
        if line > |v| || v[line - 1].None? {
          return Some(NotShown(line));
        }
        var sp := spans[line - 1];
        var current := Crc(d[sp.start..sp.contentEnd]);
        if current != v[line - 1].value {
          return Some(Changed(line));
        }
        line := line + 1;
      }
      return None;
    }

    method UpdateViewAfterEdit(path: string, d: string, start: nat, end: nat, replaced: nat)
      requires 1 <= start <= end
      modifies `views
      ensures views == old(views)[path := AfterEdit(ViewOf(old(W()), path), Lines(d), start, end, replaced)]
    {
      hide Crc, Lines;
      var before := GetView(path);
      var spans := SplitLines(d);
      var n := |spans|;
      var v: View := seq(n, _ => None);
      ghost var lines := Lines(d);
      var i := 0;
      while i < start - 1 && i < |before| && i < n
        invariant 0 <= i <= n && i <= start - 1 && i <= |before| && |v| == n
        invariant forall k :: 0 <= k < n ==> v[k] == if k < i then before[k] else None
      {
        v := v[i := before[i]];
        i := i + 1;
      }
      ghost var v1 := v;
      i := start - 1;
      while i < start - 1 + replaced && i < n
        invariant start - 1 <= i && (i <= n || i == start - 1) && i <= start - 1 + replaced && |v| == n
        invariant forall k :: 0 <= k < n ==> v[k] == if start - 1 <= k < i then Sum(lines[k]) else v1[k]
      {
        var sp := spans[i];
        v := v[i := Some(Crc(d[sp.start..sp.contentEnd]))];
        i := i + 1;
      }
      if replaced == end - start + 1 {
        ghost var v2 := v;
        i := end;
        while i < |before|
          invariant end <= i && (i <= |before| || i == end) && |v| == n
          invariant forall k :: 0 <= k < n ==> v[k] == if end <= k < i && k < |before| then before[k] else v2[k]
        {
          if i < n { v := v[i := before[i]]; }
          i := i + 1;
        }
      }
      assert v == AfterEdit(before, lines, start, end, replaced);
      views := views[path := v];
    }

    method UpdateViewAfterOldNew(path: string, oldLines: nat, newLines: nat, start: nat, end: nat,
                                 ghost was: seq<string>, ghost now: seq<string>)
      requires 1 <= start <= end && oldLines == |was| && newLines == |now|
      modifies `views
      ensures views == if path in old(views)
                       then old(views)[path := AfterOldNew(old(views)[path], was, now, start, end)] else old(views)
    {
      if path !in views {
        return;
      }
      var before := views[path];
      var v: View := seq(newLines, _ => None);
      var i := 0;
      while i < start - 1 && i < |before| && i < newLines
        invariant 0 <= i <= newLines && i <= start - 1 && i <= |before| && |v| == newLines
        invariant forall k :: 0 <= k < newLines ==> v[k] == if k < i then before[k] else None
      {
        v := v[i := before[i]];
        i := i + 1;
      }
      if newLines == oldLines {
        ghost var v1 := v;
        i := end;
        while i < |before|
          invariant end <= i && (i <= |before| || i == end) && |v| == newLines
          invariant forall k :: 0 <= k < newLines ==> v[k] == if end <= k < i && k < |before| then before[k] else v1[k]
        {
          if i < newLines { v := v[i := before[i]]; }
          i := i + 1;
        }
      }
      assert v == AfterOldNew(before, was, now, start, end);
      views := views[path := v];
    }

    /** The nearby post-edit lines are displayed, of a long edit only its two ends, and all of
        them are remembered. */
    method AppendContext(path: string, d: string, anchorStart: int, anchorEnd: int) returns (shown: seq<nat>)
      modifies `views
      ensures views == if Lines(d) == [] then old(views)
                       else old(views)[path := Context(ViewOf(old(W()), path), Lines(d), anchorStart, anchorEnd)]
      ensures shown == ShownAround(Lines(d), anchorStart, anchorEnd)
    {
      hide Lines, SpansAre;
      shown := [];
      var spans := SplitLines(d);
      SameCount(d, spans, Lines(d));
      if |spans| == 0 {
        return;
      }
      var a := Clamp(anchorStart, 1, |spans|);
      var b := Clamp(anchorEnd, a, |spans|);
      var ctxStart := Clamp(a - CONTEXT_BEFORE, 1, |spans|);
      var ctxEnd := Clamp(b + CONTEXT_AFTER, 1, |spans|);
      if b - a + 1 <= EDITED_CONTEXT_HEAD + EDITED_CONTEXT_TAIL {
        shown := ShowLines(ctxStart, ctxEnd);
      } else {
        var head := ShowLines(ctxStart, a + EDITED_CONTEXT_HEAD - 1);
        var tail := ShowLines(b - EDITED_CONTEXT_TAIL + 1, ctxEnd);
        shown := head + tail;
      }
      RememberShown(path, d, spans, Lines(d), ctxStart - 1, ctxEnd);
    }

    /** Display lines `first`..`last`, counted from 1. */
    method ShowLines(first: nat, last: nat) returns (shown: seq<nat>)
      requires 1 <= first <= last + 1
      ensures shown == Range(first - 1, last)
    {
      shown := [];
      var line := first;
      while line <= last
        invariant first <= line <= last + 1
        invariant shown + Range(line - 1, last) == Range(first - 1, last)
      {
        assert shown + ([line - 1] + Range(line, last)) == shown + [line - 1] + Range(line, last);
        shown := shown + [line - 1];
        line := line + 1;
      }
      assert shown + [] == shown;
    }

    /** A write of the whole file; a short one leaves what it wrote. */
    method WriteFile(path: string, d: string, outcome: Outcome) returns (ok: bool)
      modifies `files
      ensures ok == (outcome == Written)
      ensures W() == if ok then old(W()).(files := old(files)[path := d]) else Failed(old(W()), path, outcome).0
    {
      match outcome
      case Written =>
        files := files[path := d];
        return true;
      case OpenFailed =>
        return false;
      case Short(left) =>
        files := files[path := left];
        return false;
    }

    ghost method Note(t: Told)
      modifies `seen
      ensures W() == Noted(old(W()), t)
    {
      seen := seen + [t];
    }

    method EditLineRange(path: string, start: int, end: int, text: string, outcome: Outcome) returns (r: Reply)
      modifies this
      ensures (W(), r) == DoEditRange(old(W()), path, start, end, text, outcome)
    {
      hide Lines, ContextRange, RememberRange, AfterEdit, VerifyFrom, Splice, AddsNewline, SpansAre, Crc;
      hide ContextShown, LinesWithin, Replacement, Flatten;
      if start <= 0 || end <= 0 || end < start {
        return Refused(InvalidRange);
      }
      if path !in files || |files[path]| > FILE_MAX_BYTES {
        return Refused(Unreadable);
      }
      var d := files[path];
      var spans := SplitLines(d);
      ghost var lines := Lines(d);
      SameCount(d, spans, lines);
      if start > |spans| || end > |spans| {
        return Refused(OutsideFile);
      }
      var why := VerifySeenRange(path, d, spans, lines, start, end);
      if why.Some? {
        return Refused(why.value);
      }
      var out, addNewline := BuildSplice(d, spans, start, end, text);
      var ok := WriteFile(path, out, outcome);
      var n := CountTextLines(text);
      var replaced := if n != 0 then n else if addNewline then 1 else 0;
      if !ok {
        return Refused(WriteFailed);
      }
      ghost var v := AfterEdit(old(views)[path], Lines(out), start, end, replaced);
      var anchorEnd := if replaced > 0 then start + replaced - 1 else start;
      UpdateViewAfterEdit(path, out, start, end, replaced);
      var shown := AppendContext(path, out, start, anchorEnd);
      assert views == old(views)[path := Context(v, Lines(out), start, anchorEnd)];
      ghost var from := |Flatten(lines[..start - 1])|;
      Note(Told(path, out, shown, LinesWithin(out, from, from + |Replacement(lines[end - 1], text)|)));
      return Done;
    }

    method EditOldNew(path: string, old_: string, text: string, outcome: Outcome) returns (r: Reply)
      modifies this
      ensures (W(), r) == DoEditOldNew(old(W()), path, old_, text, outcome)
    {
      hide FindSub, StoreOldNew;
      if |old_| == 0 {
        return Refused(EmptyOld);
      }
      if path !in files || |files[path]| > FILE_MAX_BYTES {
        return Refused(Unreadable);
      }
      var d := files[path];
      var first := Memmem(d, 0, old_);
      if first.None? {
        return Refused(NotFound);
      }
      var p := first.value;
      var second := Memmem(d, p + |old_|, old_);
      if second.Some? {
        return Refused(NotUnique);
      }
      var out := d[..p] + text + d[p + |old_|..];
      var ok := WriteFile(path, out, outcome);
      if !ok {
        return Refused(WriteFailed);
      }
      FinishOldNew(path, d, out, p, |old_|, text, old(W()));
      return Done;
    }

    /** Behind the write: the touched lines, the view and the displayed context. */
    method FinishOldNew(path: string, d: string, out: string, p: nat, oldLen: nat, text: string, ghost w: World)
      requires W() == w.(files := w.files[path := out]) && path in w.files && w.files[path] == d
      requires 0 < oldLen && p + oldLen <= |d| && out == ReplaceAt(d, p, oldLen, text)
      modifies `views, `seen
      ensures W() == StoreOldNew(w, path, p, oldLen, text)
    {
      hide Lines, RememberRange, ContextRange, ContextShown, AfterOldNew, LineFor, SpansAre, LinesWithin, ReplaceAt;
      var spans := SplitLines(d);
      var newSpans := SplitLines(out);
      SameCount(d, spans, Lines(d));
      SameCount(out, newSpans, Lines(out));
      var start := LineForOffset(d, spans, Lines(d), p);
      var end := LineForOffset(d, spans, Lines(d), p + oldLen - 1);
      OldNewOrder(Lines(d), p, oldLen);
      UpdateViewAfterOldNew(path, |spans|, |newSpans|, start, end, Lines(d), Lines(out));
      var last := end + |newSpans| - |spans|;
      var shown := AppendContext(path, out, start, if last < start then start else last);
      Note(Told(path, out, shown, LinesWithin(out, p, p + |text|)));
    }
  }

  /** The bytes in front of the first edited line and behind the last one, and whether that
      line ended in a terminator. */
  lemma EditedRange(d: string, spans: seq<Span>, lines: seq<string>, start: nat, end: nat)
    requires SpansAre(d, spans, lines) && lines == Lines(d) && 1 <= start <= end <= |lines|
    ensures d[..spans[start - 1].start] == Flatten(lines[..start - 1])
    ensures d[spans[end - 1].end..] == Flatten(lines[end..])
    ensures (spans[end - 1].end > spans[end - 1].contentEnd) == (Body(lines[end - 1]) != lines[end - 1])
  {
    hide Lines, Flatten;
    CutAt(d, start - 1);
    CutAt(d, end);
    assert lines[..start - 1 + 1] == lines[..start];
    hide SpansAre;
    SpanTerminated(d, spans, lines, end - 1);
  }

  lemma SameCount(d: string, spans: seq<Span>, lines: seq<string>)
    requires SpansAre(d, spans, lines)
    ensures |spans| == |lines|
  {
  }

  /** Cutting a buffer at a line boundary. */
  lemma CutAt(d: string, k: nat)
    requires k <= |Lines(d)|
    ensures var n := |Flatten(Lines(d)[..k])|;
            n <= |d| && d[..n] == Flatten(Lines(d)[..k]) && d[n..] == Flatten(Lines(d)[k..])
  {
    hide Lines, Flatten;
    LinesTile(d);
    var lines := Lines(d);
    assert lines[..k] + lines[k..] == lines;
    FlattenAppend(lines[..k], lines[k..]);
  }

  lemma SpanTerminated(d: string, spans: seq<Span>, lines: seq<string>, i: nat)
    requires SpansAre(d, spans, lines) && i < |spans|
    ensures (spans[i].end > spans[i].contentEnd) == (Body(lines[i]) != lines[i])
  {
    hide Flatten;
    var sp := spans[i];
    assert |d[sp.start..sp.end]| == sp.end - sp.start && |d[sp.start..sp.contentEnd]| == sp.contentEnd - sp.start;
  }
}
