/** Incremental parsing equals batch parsing: the parser may be called after every byte,
    in any chunking, without changing what it finds. */
module DsmlResume {
  import opened Options
  import opened Text
  import opened Dsml

  predicate TagName(name: string) {
    name == "tool_calls" || name == "invoke" || name == "parameter"
  }

  lemma NoAngle(name: string)
    requires TagName(name)
    ensures '>' !in CLOSE_START + name && '>' !in BAR && '<' !in BAR
    ensures forall k :: 0 < k < |CLOSE_START + name| ==> (CLOSE_START + name)[k] != '<'
  {
  }

  /** Skipping spaces gives the same answer on two buffers that agree up to a non-space. */
  lemma SkipSpaceLocal(s: string, t: string, i: nat, g: nat)
    requires i <= g < |s| && g < |t|
    requires forall k :: i <= k <= g ==> s[k] == t[k]
    requires !IsSpace(s[g])
    ensures SkipSpace(s, i) == SkipSpace(t, i) <= g
  {
    var m := SkipSpace(s, i);
    SkipSpaceUnique(t, i, m);
  }

  lemma AtLocal(s: string, t: string, i: nat, g: nat, pat: string)
    requires i <= g < |s| && g < |t|
    requires forall k :: i <= k <= g ==> s[k] == t[k]
    requires s[g] == '>' && '>' !in pat
    ensures At(s, i, pat) == At(t, i, pat)
    ensures At(s, i, pat) ==> i + |pat| <= g
  {
    if At(s, i, pat) { AtBefore(s, i, g, pat); assert t[i..i + |pat|] == s[i..i + |pat|]; }
    if At(t, i, pat) { AtBefore(t, i, g, pat); assert t[i..i + |pat|] == s[i..i + |pat|]; }
  }

  lemma AtBefore(s: string, i: nat, g: nat, pat: string)
    requires At(s, i, pat) && i <= g < |s| && s[g] == '>' && '>' !in pat
    ensures i + |pat| <= g
  {
  }

  /** Whether a closing tag stands at `i` is decided by the bytes up to the first '>', and
      such a tag ends exactly there. */
  lemma TagEndLocal(s: string, t: string, i: nat, prefix: string, bar: string, g: nat)
    requires '>' !in prefix && '>' !in bar
    requires i <= g < |s| && g < |t|
    requires forall k :: i <= k <= g ==> s[k] == t[k]
    requires s[g] == '>' && forall k :: i <= k < g ==> s[k] != '>'
    ensures TagEnd(s, i, prefix, bar) == TagEnd(t, i, prefix, bar)
    ensures TagEnd(s, i, prefix, bar).Some? ==> TagEnd(s, i, prefix, bar).value == g + 1
  {
    hide SkipSpace, At;
    AtLocal(s, t, i, g, prefix);
    if At(s, i, prefix) {
      SkipSpaceLocal(s, t, i + |prefix|, g);
      var j := SkipSpace(s, i + |prefix|);
      AtLocal(s, t, j, g, bar);
      var k := if At(s, j, bar) then j + |bar| else j;
      SkipSpaceLocal(s, t, k, g);
    }
  }

  /** No closing tag can stand where no '>' follows. */
  lemma CloseTagNeedsAngle(s: string, i: nat, name: string)
    requires i <= |s|
    requires forall k :: i <= k < |s| ==> s[k] != '>'
    ensures CloseTagEnd(s, i, name).None?
  {
  }

  /** A closing tag holds no second '<' and nothing past the first '>'. */
  lemma TagEndShape(s: string, i: nat, prefix: string, bar: string)
    requires i <= |s| && TagEnd(s, i, prefix, bar).Some?
    requires '>' !in prefix && '>' !in bar && '<' !in bar
    requires forall k :: 0 < k < |prefix| ==> prefix[k] != '<'
    ensures var e := TagEnd(s, i, prefix, bar).value;
            && (forall k :: i < k < e ==> s[k] != '<')
            && (forall k :: i <= k < e - 1 ==> s[k] != '>')
  {
    var j := SkipSpace(s, i + |prefix|);
    var k := if At(s, j, bar) then j + |bar| else j;
    var m := SkipSpace(s, k);
    assert forall q :: i <= q < i + |prefix| ==> s[q] == s[i..i + |prefix|][q - i];
    assert At(s, j, bar) ==> forall q :: j <= q < k ==> s[q] == s[j..j + |bar|][q - j];
  }

  lemma CloseTagShape(s: string, i: nat, name: string)
    requires TagName(name) && i <= |s| && CloseTagEnd(s, i, name).Some?
    ensures var e := CloseTagEnd(s, i, name).value;
            && (forall k :: i < k < e ==> s[k] != '<')
            && (forall k :: i <= k < e - 1 ==> s[k] != '>')
  {
    NoAngle(name);
    TagEndShape(s, i, CLOSE_START + name, BAR);
  }

  /** An appended suffix cannot change an answer that a '>' at or after `i` settles. */
  lemma CloseTagAppend(s: string, x: string, i: nat, name: string)
    requires TagName(name) && i <= |s|
    requires exists g :: i <= g < |s| && s[g] == '>'
    ensures CloseTagEnd(s + x, i, name) == CloseTagEnd(s, i, name)
  {
    var g := FindChar(s, i, '>').value;
    NoAngle(name);
    TagEndLocal(s, s + x, i, CLOSE_START + name, BAR, g);
  }

  lemma FindCloseUnique(s: string, i: nat, name: string, e: nat, after: nat)
    requires i <= e <= |s| && CloseTagEnd(s, e, name) == Some(after)
    requires forall k :: i <= k < e ==> CloseTagEnd(s, k, name).None?
    ensures FindClose(s, i, name) == Some((e, after))
  {
  }

  /** A closing tag found in a buffer is still the first one after more bytes arrive. */
  lemma FindCloseAppend(s: string, x: string, i: nat, name: string)
    requires TagName(name) && i <= |s| && FindClose(s, i, name).Some?
    ensures FindClose(s + x, i, name) == FindClose(s, i, name)
  {
    var (e, after) := FindClose(s, i, name).value;
    assert s[after - 1] == '>';
    forall k | i <= k <= e
      ensures CloseTagEnd(s + x, k, name) == CloseTagEnd(s, k, name)
    {
      CloseTagAppend(s, x, k, name);
    }
    FindCloseUnique(s + x, i, name, e, after);
  }

  /** A structural tag whose '>' has arrived is read the same way after more bytes. */
  lemma OpenTagAppend(p: Parser, tag: string, x: string)
    ensures OpenTag(p.Append(x), tag) ==
            match OpenTag(p, tag) { case Go(q) => Go(q.Append(x)) case Stop(q) => Stop(q.Append(x)) }
  {
  }

  lemma StepStructuralAppend(p: Parser, x: string)
    requires p.Valid() && p.phase == Structural
    requires var i := SkipSpace(p.raw, p.pos); exists g :: i <= g < |p.raw| && p.raw[g] == '>'
    ensures StepStructural(p.Append(x)) ==
            match StepStructural(p) { case Go(q) => Go(q.Append(x)) case Stop(q) => Stop(q.Append(x)) }
  {
    hide OpenTag, CloseTagEnd, SkipSpace, FindChar;
    var raw, raw' := p.raw, p.raw + x;
    var i := SkipSpace(raw, p.pos);
    assert i < |raw|;
    SkipSpaceUnique(raw', p.pos, i);
    CloseTagAppend(raw, x, i, "tool_calls");
    CloseTagAppend(raw, x, i, "invoke");
    var g := FindChar(raw, i, '>').value;
    FindCharUnique(raw', i, '>', g);
    assert raw'[i..g + 1] == raw[i..g + 1];
    OpenTagAppend(p.(pos := i), raw[i..g + 1], x);
  }

  /** A value whose closing tag has arrived is read the same way after more bytes. */
  lemma StepValueAppend(p: Parser, x: string)
    requires p.Valid() && p.phase == ParamValue
    requires StepValue(p).Go?
    ensures StepValue(p.Append(x)) == Go(StepValue(p).p.Append(x))
  {
    hide CloseTagEnd, FindClose;
    FindCloseAppend(p.raw, x, p.valueStart, "parameter");
    var e := FindClose(p.raw, p.valueStart, "parameter").value.0;
    assert (p.raw + x)[p.valueStart..e] == p.raw[p.valueStart..e];
  }

  /** Without a '>' ahead the structural step only skips spaces, and loses nothing by it. */
  lemma StepWaitAppend(p: Parser, x: string)
    requires p.Valid() && p.phase == Structural
    requires var i := SkipSpace(p.raw, p.pos); forall g :: i <= g < |p.raw| ==> p.raw[g] != '>'
    ensures StepStructural(p) == Stop(p.(pos := SkipSpace(p.raw, p.pos)))
    ensures StepStructural(p.Append(x)) == StepStructural(StepStructural(p).p.Append(x))
  {
    hide OpenTag, CloseTagEnd, SkipSpace, FindChar;
    var i := SkipSpace(p.raw, p.pos);
    CloseTagNeedsAngle(p.raw, i, "tool_calls");
    CloseTagNeedsAngle(p.raw, i, "invoke");
    var m := SkipSpace(p.raw + x, i);
    SkipSpaceUnique(p.raw + x, p.pos, m);
  }

  /** What an iteration did, it does again when more bytes follow; and an iteration that
      only waited may as well not have run. */
  lemma StepAppend(p: Parser, x: string)
    requires p.Valid() && p.Live()
    ensures Step(p).Go? ==> Step(p.Append(x)) == Go(Step(p).p.Append(x))
    ensures Step(p).Stop? && Step(p).p.Finished() ==> Step(p.Append(x)) == Stop(Step(p).p.Append(x))
    ensures Step(p).Stop? && !Step(p).p.Finished() ==>
              Step(p).p.Live() && Step(p.Append(x)) == Step(Step(p).p.Append(x))
  {
    hide StepStructural, SkipSpace;
    if p.phase == ParamValue {
      if StepValue(p).Go? { StepValueAppend(p, x); }
    } else {
      var i := SkipSpace(p.raw, p.pos);
      if exists g :: i <= g < |p.raw| && p.raw[g] == '>' {
        StepStructuralAppend(p, x);
        StepStopsFinished(p);
      } else {
        StepWaitAppend(p, x);
      }
    }
  }

  /** With a '>' ahead the structural step either goes on or finishes. */
  lemma StepStopsFinished(p: Parser)
    requires p.Valid() && p.phase == Structural
    requires var i := SkipSpace(p.raw, p.pos); exists g :: i <= g < |p.raw| && p.raw[g] == '>'
    ensures StepStructural(p).Stop? ==> StepStructural(p).p.Finished()
  {
    hide CloseTagEnd, SkipSpace, FindChar, ParseAttr;
  }

  /** Resumption: parsing what has arrived and then the rest equals parsing it all. */
  lemma {:induction false} ParseResume(p: Parser, x: string)
    requires p.Valid()
    ensures Parse(p.Append(x)) == Parse(Parse(p).Append(x))
    decreases |p.raw| - p.pos
  {
    if p.Live() {
      StepAppend(p, x);
      var r := Step(p);
      if r.Go? { ParseResume(r.p, x); }
    }
  }

  /** Feeding a body one byte per call, with a parse after each byte, gives the same phase,
      cursor, open call, calls and error as appending it all and parsing once. */
  lemma {:induction false} IncrementalEqualsBatch(p: Parser, body: string)
    requires p.Valid() && p.phase != Search
    ensures FeedLoop(Parse(p), body).Observed() == Parse(p.Append(body)).Observed()
    decreases |body|
  {
    hide Step;
    if body == [] {
      assert p.Append(body) == p;
    } else {
      var c, rest := body[0], body[1..];
      var q := Parse(p);
      ParseKeepsPhase(p);
      ParseResume(p, [c]);
      ParseIdempotent(p.Append([c]));
      assert FeedByte(q, c) == Parse(p.Append([c]));
      IncrementalEqualsBatch(p.Append([c]), rest);
      assert p.raw + [c] + rest == p.raw + body;
    }
  }

  lemma {:induction false} ParseKeepsPhase(p: Parser)
    requires p.Valid() && p.phase != Search
    ensures Parse(p).phase != Search
    decreases |p.raw| - p.pos
  {
    if p.Live() {
      var r := Step(p);
      if r.Go? { ParseKeepsPhase(r.p); }
    }
  }

  /** A second parse of the same buffer does nothing. */
  lemma {:induction false} ParseIdempotent(p: Parser)
    requires p.Valid()
    ensures Parse(Parse(p)) == Parse(p)
  {
    ParseResume(p, []);
    assert p.Append([]) == p && Parse(p).Append([]) == Parse(p);
  }

  /** A finished parser ignores everything it is given, up to its dead buffer. */
  lemma {:induction false} FeedLoopFinished(p: Parser, s: string)
    requires p.Valid() && p.Finished()
    ensures FeedLoop(p, s).Observed() == p.Observed()
    decreases |s|
  {
    if s != [] {
      FeedLoopFinished(FeedByte(p, s[0]), s[1..]);
    }
  }

  lemma {:induction false} FeedLoopSplit(p: Parser, a: string, b: string)
    requires p.Valid()
    ensures FeedLoop(p, a + b) == FeedLoop(FeedLoop(p, a), b)
    decreases |a|
  {
    if a == [] {
      assert a + b == b;
    } else {
      assert (a + b)[1..] == a[1..] + b;
      FeedLoopSplit(FeedByte(p, a[0]), a[1..], b);
    }
  }

  /** Chunk independence: however the stream is cut, the result is that of one call. */
  lemma {:induction false} ChunkIndependence(p: Parser, chunks: seq<string>)
    requires p.Valid()
    ensures FeedChunks(p, chunks).Observed() == Feed(p, Flatten(chunks)).Observed()
    decreases |chunks|
  {
    if chunks != [] {
      var a, rest := chunks[0], chunks[1..];
      var q := Feed(p, a);
      ChunkIndependence(q, rest);
      if !p.Finished() {
        FeedLoopSplit(p, a, Flatten(rest));
        if q.Finished() { FeedLoopFinished(q, Flatten(rest)); }
      }
    }
  }

  // ---------- finding the opening marker ----------

  function LastBytes(s: string, n: nat): string {
    if |s| <= n then s else s[|s| - n..]
  }

  /** The parser while it is still looking, having read `pre`. */
  function Looking(pre: string): Parser {
    Initial.(searchTail := LastBytes(pre, SEARCH_TAIL_SIZE))
  }

  /** The 64-byte window loses nothing a 22-byte marker could need. */
  lemma WindowEnough(pre: string, c: char, mark: string)
    requires |mark| <= SEARCH_TAIL_SIZE
    ensures PushTail(Looking(pre).searchTail, c) == LastBytes(pre + [c], SEARCH_TAIL_SIZE)
    ensures EndsWith(LastBytes(pre + [c], SEARCH_TAIL_SIZE), mark) == EndsWith(pre + [c], mark)
  {
    var s := pre + [c];
    var tail := LastBytes(s, SEARCH_TAIL_SIZE);
    if |mark| <= |s| {
      assert tail[|tail| - |mark|..] == s[|s| - |mark|..];
    }
  }

  lemma FreshStart()
    ensures Parse(Begin(Initial)) == Begin(Initial)
  {
    hide CloseTagEnd, OpenTag;
    SkipSpaceUnique(START, |START|, |START|);
  }

  lemma NoneLater(pre: string, t: string, mark: string)
    requires |mark| <= |pre|
    requires forall j :: 0 <= j < |pre| - |mark| ==> !At(pre, j, mark)
    ensures forall j :: 0 <= j < |pre| - |mark| ==> !At(pre + t, j, mark)
  {
    forall j | 0 <= j < |pre| - |mark| ensures !At(pre + t, j, mark) {
      assert !At(pre, j, mark);
      assert (pre + t)[j..j + |mark|] == pre[j..j + |mark|];
    }
  }

  lemma {:induction false} SearchFrom(pre: string, t: string)
    requires forall j :: 0 <= j ==> !At(pre, j, START)
    ensures FindSub(pre + t, 0, START).None? ==> FeedLoop(Looking(pre), t) == Looking(pre + t)
    ensures FindSub(pre + t, 0, START).Some? ==>
              var k := FindSub(pre + t, 0, START).value + |START|;
              FeedLoop(Looking(pre), t).Observed() == Parse(Begin(Initial).Append((pre + t)[k..])).Observed()
    decreases |t|
  {
    hide Parse, FindSub, At, EndsWith;
    if t == [] {
      assert pre + t == pre;
      NoMark(pre, START);
    } else {
      var c, rest := t[0], t[1..];
      var s := pre + [c];
      assert pre + t == s + rest;
      WindowEnough(pre, c, START);
      if EndsWith(s, START) {
        MarkJustEnded(pre, c, rest, START);
        assert (s + rest)[|s|..] == rest;
        FreshStart();
        IncrementalEqualsBatch(Begin(Initial), rest);
      } else {
        StillNoMark(pre, c, START);
        SearchFrom(s, rest);
      }
    }
  }

  /** The byte that completes the marker completes its first occurrence. */
  lemma MarkJustEnded(pre: string, c: char, rest: string, mark: string)
    requires mark != "" && EndsWith(pre + [c], mark)
    requires forall j :: 0 <= j ==> !At(pre, j, mark)
    ensures FindSub(pre + [c] + rest, 0, mark) == Some(|pre| + 1 - |mark|)
  {
    var s := pre + [c];
    var k := |s| - |mark|;
    assert At(s + rest, k, mark) by { assert (s + rest)[k..k + |mark|] == s[k..]; }
    NotBeforeEnd(pre, c, mark);
    hide FindSub, At, EndsWith;
    NoneLater(s, rest, mark);
    FindSubUnique(s + rest, 0, mark, k);
  }

  lemma NotBeforeEnd(pre: string, c: char, mark: string)
    requires mark != "" && |mark| <= |pre| + 1
    requires forall j :: 0 <= j ==> !At(pre, j, mark)
    ensures forall j :: 0 <= j < |pre| + 1 - |mark| ==> !At(pre + [c], j, mark)
  {
    forall j | 0 <= j < |pre| + 1 - |mark| ensures !At(pre + [c], j, mark) {
      assert !At(pre, j, mark);
      assert (pre + [c])[j..j + |mark|] == pre[j..j + |mark|];
    }
  }

  lemma StillNoMark(pre: string, c: char, mark: string)
    requires mark != "" && !EndsWith(pre + [c], mark)
    requires forall j :: 0 <= j ==> !At(pre, j, mark)
    ensures forall j :: 0 <= j ==> !At(pre + [c], j, mark)
  {
    var s := pre + [c];
    forall j: nat | 0 <= j ensures !At(s, j, mark) {
      if j + |mark| <= |pre| {
        assert !At(pre, j, mark);
        assert s[j..j + |mark|] == pre[j..j + |mark|];
      } else if j + |mark| == |s| {
        assert s[j..j + |mark|] == s[|s| - |mark|..];
      }
    }
  }

  lemma NoMark(s: string, mark: string)
    requires forall j :: 0 <= j ==> !At(s, j, mark)
    ensures FindSub(s, 0, mark).None?
  {
  }

  /** Over a whole stream: without a marker the parser only looks; with one it ends as if the
      bytes after the first marker had been parsed in one go. */
  lemma {:induction false} SearchFindsFirst(t: string)
    ensures FindSub(t, 0, START).None? ==> Feed(Initial, t).phase == Search
    ensures FindSub(t, 0, START).Some? ==>
              var k := FindSub(t, 0, START).value + |START|;
              Feed(Initial, t).Observed() == Parse(Begin(Initial).Append(t[k..])).Observed()
  {
    hide Parse, FeedLoop;
    SearchFrom([], t);
    assert [] + t == t;
    assert Looking([]) == Initial;
  }
}
