/** From sampled text to executable calls: thinking, a tool stanza in either opening form and
    any closing spelling, cut into any chunks. */
module AgentEndToEnd {
  import opened Text
  import opened TagSplitter
  import opened Dsml
  import opened DsmlResume
  import opened DsmlPrint
  import opened Detector
  import opened AgentStream
  import opened AgentStreamProofs

  function AnyAll(s: Stream, t: string): Stream
    decreases |t|
  {
    if t == [] then s else AnyAll(AnyByte(s, t[0]), t[1..])
  }

  /** The splitter finds no thinking tag in `t`. */
  ghost predicate NoTag(t: string) {
    forall i: nat :: !At(t, i, OPEN) && !At(t, i, CLOSE)
  }

  /** Nor does one start in it when something that begins with a '<', or nothing, follows. */
  lemma NoTagAcross(t: string, rest: string)
    requires NoTag(t) && t != [] && (rest == [] || rest[0] == '<')
    ensures !At(t + rest, 0, OPEN) && !At(t + rest, 0, CLOSE)
  {
    NotAcross(t, rest, OPEN);
    NotAcross(t, rest, CLOSE);
  }

  lemma NotAcross(t: string, rest: string, tag: string)
    requires t != [] && !At(t, 0, tag) && (rest == [] || rest[0] == '<')
    requires tag == OPEN || tag == CLOSE
    ensures !At(t + rest, 0, tag)
  {
    if |tag| <= |t| {
      assert (t + rest)[0..|tag|] == t[0..|tag|];
    } else if rest != [] {
      assert tag[|t|] != '<';
      NotAt(t + rest, 0, tag, |t|);
    }
  }

  lemma NoTagTail(t: string)
    requires NoTag(t) && t != []
    ensures NoTag(t[1..])
  {
    forall i: nat | true ensures !At(t[1..], i, OPEN) && !At(t[1..], i, CLOSE) {
      assert !At(t, i + 1, OPEN) && !At(t, i + 1, CLOSE);
      assert i + 1 + |OPEN| <= |t| ==> t[1..][i..i + |OPEN|] == t[i + 1..i + 1 + |OPEN|];
      assert i + 1 + |CLOSE| <= |t| ==> t[1..][i..i + |CLOSE|] == t[i + 1..i + 1 + |CLOSE|];
    }
  }

  /** Text without tags goes byte by byte to the byte action. */
  lemma {:induction false} RunUntagged(s: Stream, t: string, rest: string)
    requires NoTag(t) && (rest == [] || rest[0] == '<')
    ensures Run(AGENT, s, t + rest, true) == Run(AGENT, AnyAll(s, t), rest, true)
    decreases |t|
  {
    hide At, AnyByte, NoTag;
    if t == [] {
      assert t + rest == rest;
    } else {
      NoTagAcross(t, rest);
      NoTagTail(t);
      assert (t + rest)[1..] == t[1..] + rest;
      RunUntagged(AnyByte(s, t[0]), t[1..], rest);
    }
  }

  lemma {:induction false} AnySnoc(s: Stream, t: string, c: char)
    ensures AnyAll(s, t + [c]) == AnyByte(AnyAll(s, t), c)
    decreases |t|
  {
    hide AnyByte;
    if t == [] {
      assert AnyAll(AnyByte(s, c), []) == AnyByte(s, c);
      assert (t + [c])[1..] == [];
    } else {
      assert (t + [c])[1..] == t[1..] + [c];
      AnySnoc(AnyByte(s, t[0]), t[1..], c);
    }
  }

  /** Outside stanzas the byte action is the normal one. */
  lemma {:induction false} AnyIsNormal(s: Stream, t: string)
    requires forall k :: 0 <= k < |t| ==> !NormalAll(s, t[..k]).active
    ensures AnyAll(s, t) == NormalAll(s, t)
    decreases |t|
  {
    hide NormalByte;
    if t != [] {
      var u, c := t[..|t| - 1], t[|t| - 1];
      assert u + [c] == t;
      AnySnoc(s, u, c);
      forall k | 0 <= k < |u| ensures !NormalAll(s, u[..k]).active {
        assert u[..k] == t[..k];
      }
      AnyIsNormal(s, u);
    }
  }

  lemma {:induction false} AnyAllInv(s: Stream, t: string)
    requires ThinkInv(s)
    ensures ThinkInv(AnyAll(s, t))
    decreases |t|
  {
    hide ThinkInv, AnyByte;
    if t != [] {
      AnyByteInv(s, t[0]);
      AnyAllInv(AnyByte(s, t[0]), t[1..]);
    }
  }

  lemma {:induction false} StoppedOccurs(t: string)
    ensures ScanAll(t).Stopped? ==> Occurs(t, |ScanAll(t).out|)
  {
    hide FormComplete, FormMatch, ScanAll;
    ScanExact(t);
    var sc := ScanAll(t);
    if sc.Stopped? {
      assert t[|sc.out|..|sc.out| + |sc.form|] == (sc.out + sc.form)[|sc.out|..];
      FormIsOne(sc.form);
    }
  }

  /** Without an opening form in it the detector only scans a text. */
  lemma {:induction false} FormFree(t: string)
    requires forall i: nat :: !Occurs(t, i)
    ensures ScanAll(t).Scanning?
  {
    hide ScanAll, Occurs;
    StoppedOccurs(t);
  }

  lemma FormIsOne(form: string)
    requires FormComplete(form)
    ensures form == START || form == MISSING_BAR
  {
  }

  /** Thinking text: shown grey as far as the detector released it, and recorded. */
  lemma {:induction false} ThoughtBytes(s: Stream, t: string)
    requires !s.active && !s.gap && s.startTail == [] && ScanAll(t).Scanning?
    ensures AnyAll(s, t) == Reached(NoteAll(s, t), ScanAll(t))
  {
    hide Reached, ScanAll, NoteAll, NormalAll;
    forall k | 0 <= k < |t| ensures !NormalAll(s, t[..k]).active {
      assert t[..k] + t[k..] == t;
      ScanPrefix(t[..k], t[k..]);
      NormalIsScan(s, t[..k]);
      ReachedInactive(s, t[..k]);
    }
    AnyIsNormal(s, t);
    NormalIsScan(s, t);
  }

  lemma ReachedInactive(s: Stream, t: string)
    requires !s.active && ScanAll(t).Scanning?
    ensures !Reached(NoteAll(s, t), ScanAll(t)).active
  {
    hide NoteAll, ScanAll, Show;
    NoteAllFrame(s, t);
  }

  /** Prose behind thinking, while the gap may still be open. */
  lemma {:induction false} ProseBytes(s: Stream, t: string)
    requires !s.active && !s.inThink && s.gap && s.startTail == [] && ScanAll(GapText(t)).Scanning?
    ensures AnyAll(s, t) == GapReached(s, ScanAll(GapText(t)))
  {
    hide ScanAll, NormalAll, GapText, Show;
    forall k | 0 <= k < |t| ensures !NormalAll(s, t[..k]).active {
      GapPrefix(t, k);
      GapIsScan(s, t[..k]);
    }
    AnyIsNormal(s, t);
    GapIsScan(s, t);
  }

  ghost predicate OpensStanza(s: Stream, t: string) {
    exists k :: 0 <= k <= |t| && AnyAll(s, t[..k]).active
  }

  /** Right after thinking a text opens a stanza, an executable one, if and only if an opening form
      occurs in its GapText. */
  lemma {:induction false} GapOpensExact(s: Stream, t: string)
    requires !s.active && !s.inThink && s.gap && s.startTail == []
    ensures OpensStanza(s, t) <==> exists i: nat :: Occurs(GapText(t), i)
    ensures OpensStanza(s, t) ==>
              exists k :: 0 <= k <= |t| && AnyAll(s, t[..k]).active && !AnyAll(s, t[..k]).ignored
  {
    hide ScanAll, NormalAll, AnyAll, GapText, Show, Occurs;
    if ScanAll(GapText(t)).Stopped? {
      var k := GapOpens(s, t);
      forall j | 0 <= j < k ensures !NormalAll(s, t[..k][..j]).active {
        assert t[..k][..j] == t[..j];
        GapIsScan(s, t[..j]);
      }
      AnyIsNormal(s, t[..k]);
      assert AnyAll(s, t[..k]).active;
      StoppedOccurs(GapText(t));
    } else {
      ScanExact(GapText(t));
      forall k | 0 <= k <= |t| ensures !AnyAll(s, t[..k]).active {
        GapPrefix(t, k);
        ProseBytes(s, t[..k]);
      }
    }
  }

  /** A concrete text that holds no opening form and opens a stanza all the same: a marker with a
      space behind its '<'. */
  lemma {:induction false} SpacedMarkerOpens()
    ensures var t := "< " + START[1..];
            OpensStanza(CloseThink(Start0(true)), t) && forall i: nat :: !Occurs(t, i)
  {
    hide ScanAll, NormalAll, AnyAll, GapText;
    var t := "< " + START[1..];
    SpacedGapText(|START|);
    assert START[1..|START|] == START[1..] && START[..|START|] == START;
    assert At(START, 0, START);
    assert Occurs(GapText(t), 0);
    GapOpensExact(CloseThink(Start0(true)), t);
    FormShape();
    forall i: nat | true ensures !Occurs(t, i) {
      if i == 0 {
        NotAt(t, 0, START, 1);
        NotAt(t, 0, MISSING_BAR, 1);
      } else if i < |t| {
        assert t[i] == ' ' || t[i] == START[i - 1];
        NotAt(t, i, START, 0);
        NotAt(t, i, MISSING_BAR, 0);
      }
    }
  }

  lemma {:induction false} SpacedGapText(k: nat)
    requires 1 <= k <= |START|
    ensures GapText("< " + START[1..k]) == START[..k]
    decreases k
  {
    hide ScanAll, FormMatch, FormComplete;
    FormShape();
    var t := "< " + START[1..k];
    if k == 1 {
      assert t == "< " && t[..1] == "<" && t[..1][..0] == [] && START[..1] == "<";
      EmptyScan();
      StartScans(1);
      assert GapText("") == "";
      assert GapText("<") == "" + ['<'] == "<";
      assert t[|t| - 1] == ' ';
    } else {
      assert t[..|t| - 1] == "< " + START[1..k - 1] && t[|t| - 1] == START[k - 1];
      assert START[..k - 1] + [START[k - 1]] == START[..k];
      SpacedGapText(k - 1);
      NoSpaces(START, k - 1);
    }
  }

  lemma StartScans(k: nat)
    requires k < |START|
    ensures ScanAll(START[..k]) == Scanning([], START[..k])
  {
    FormPrefix(START, k);
    assert START[..k][..k] == START[..k];
    ScanOfHeld(START[..k], k);
  }

  lemma FormByte(form: string, k: nat)
    requires FormComplete(form) && k < |form|
    ensures form[..k] + [form[k]] == form[..k + 1]
    ensures DetectByte(form[..k], form[k]) == if k + 1 == |form| then Found else Hold(form[..k + 1])
    ensures !IsSpace(form[k])
  {
    hide FormMatch, FormComplete;
    var u := form[..k + 1];
    assert form[..k] + [form[k]] == u;
    DetectCases(form[..k], form[k]);
    FormPrefix(form, k + 1);
    NoSpaces(form, k);
  }

  lemma FormPrefix(form: string, k: nat)
    requires FormComplete(form) && k <= |form|
    ensures form == START || form == MISSING_BAR
    ensures FormMatch(form[..k]) && (FormComplete(form[..k]) <==> k == |form|)
  {
    assert START[1] != MISSING_BAR[1];
    assert form[..|form|] == form;
    assert 1 < k ==> form[..k][1] == form[1];
  }

  lemma FormStep(s: Stream, form: string, k: nat)
    requires FormComplete(form) && k < |form|
    requires !s.active && !s.inThink && s.startTail == form[..k]
    ensures AnyByte(s, form[k]) == if k + 1 == |form| then StartStanza(s) else s.(startTail := form[..k + 1])
  {
    hide FormComplete, FormMatch, DetectByte, StartStanza;
    FormByte(form, k);
    FormPrefix(form, 0);
    FormShape();
  }

  lemma NoTagHere(buf: string)
    requires buf != [] && buf[0] != '<'
    ensures !At(buf, 0, OPEN) && !At(buf, 0, CLOSE)
  {
    NotAt(buf, 0, OPEN, 0);
    NotAt(buf, 0, CLOSE, 0);
  }

  /** Either opening form, fed after thinking, starts a stanza. */
  lemma {:induction false} RunForm(s: Stream, form: string, k: nat, rest: string)
    requires FormComplete(form) && k < |form|
    requires !s.active && !s.inThink && s.startTail == form[..k]
    ensures Run(AGENT, s, form[k..] + rest, true) == Run(AGENT, StartStanza(s), rest, true)
    decreases |form| - k
  {
    hide At, FormComplete, FormMatch, DetectByte, StartStanza;
    var buf := form[k..] + rest;
    FormPrefix(form, 0);
    FormShape();
    assert buf[0] == form[k] && buf[1..] == form[k + 1..] + rest;
    FormByte(form, k);
    if k == 0 {
      FormNoTag(form, rest, buf);
    } else {
      NoTagHere(buf);
    }
    FormStep(s, form, k);
    hide AnyByte;
    var s1 := AnyByte(s, form[k]);
    if k + 1 == |form| {
      assert form[k + 1..] + rest == rest;
    } else {
      RunForm(s1, form, k + 1, rest);
      SameStart(s, form[..k + 1]);
    }
  }

  lemma SameStart(s: Stream, tail: string)
    ensures StartStanza(s.(startTail := tail)) == StartStanza(s)
  {
  }

  lemma FormNoTag(form: string, rest: string, buf: string)
    requires (form == START || form == MISSING_BAR) && buf == form + rest
    ensures !At(buf, 0, OPEN) && !At(buf, 0, CLOSE)
  {
    assert buf[1] == form[1];
    NotAt(buf, 0, OPEN, 1);
    NotAt(buf, 0, CLOSE, 1);
  }

  /** The stream behind a stanza that the parser has finished: one that began inside thinking is
      dropped, any other is left for the worker. */
  function StanzaEnd(s: Stream, q: ValidParser): Stream {
    var t := s.(parser := q);
    if s.ignored then DropStanza(t, if q.phase == Done then NOT_ALLOWED else MALFORMED) else t.(active := false)
  }

  /** One byte of a stanza goes to the parser, whatever follows it. */
  lemma {:induction false} OneStanzaByte(s: Stream, q: Parser, c: char, tail: string)
    requires s.active && q.Valid() && s.parser == Parse(q) && !Parse(q).Finished() && q.phase != Search
    ensures Run(AGENT, s, [c] + tail, true) == Run(AGENT, StanzaByte(s, c), tail, true)
    ensures var p := Parse(q.Append([c]));
            StanzaByte(s, c) == if p.Finished() then StanzaEnd(s, p) else s.(parser := p)
  {
    hide Parse, At, DropStanza;
    ParseKeepsPhase(q);
    ParseResume(q, [c]);
    FeedIsParse(s.parser, c);
    assert ([c] + tail)[1..] == tail;
  }

  /** Stanza bytes reach the parser one by one until it is done, or in error, with the last of
      them. */
  lemma {:induction false} RunStanza(s: Stream, q: Parser, body: string, rest: string)
    requires s.active && q.Valid() && s.parser == Parse(q) && !Parse(q).Finished()
    requires q.phase != Search
    requires body != []
    requires forall i :: 0 <= i < |body| ==> !Parse(q.Append(body[..i])).Finished()
    requires Parse(q.Append(body)).Finished()
    ensures Run(AGENT, s, body + rest, true) == Run(AGENT, StanzaEnd(s, Parse(q.Append(body))), rest, true)
    decreases |body|
  {
    hide Parse, StanzaByte, DropStanza, Run;
    var c, more := body[0], body[1..];
    var q1 := q.Append([c]);
    assert body[..1] == [c];
    assert body + rest == [c] + (more + rest);
    OneStanzaByte(s, q, c, more + rest);
    if more == [] {
      assert body == [c] && more + rest == rest;
    } else {
      assert !Parse(q.Append(body[..1])).Finished();
      RestUnfinished(q, body, c, more);
      RunStanza(StanzaByte(s, c), q1, more, rest);
    }
  }

  /** Stanza bytes that do not finish the parser leave the stanza under way. */
  lemma {:induction false} RunUnfinished(s: Stream, q: Parser, body: string)
    requires s.active && q.Valid() && s.parser == Parse(q) && q.phase != Search
    requires forall i :: 0 <= i <= |body| ==> !Parse(q.Append(body[..i])).Finished()
    ensures Run(AGENT, s, body, true) == Split(s.(parser := Parse(q.Append(body))), [])
    decreases |body|
  {
    hide Parse, StanzaByte, StanzaEnd, Run;
    if body == [] {
      RunEmpty(AGENT, s, true);
      assert q.Append(body) == q;
    } else {
      var c, more := body[0], body[1..];
      var q1 := q.Append([c]);
      assert body[..0] == [] && q.Append([]) == q;
      assert !Parse(q.Append(body[..0])).Finished() && !Parse(q.Append(body[..1])).Finished();
      assert body[..1] == [c] && [c] + more == body;
      OneStanzaByte(s, q, c, more);
      RestUnfinishedAll(q, body, c, more);
      RunUnfinished(StanzaByte(s, c), q1, more);
    }
  }

  lemma RestUnfinishedAll(q: Parser, body: string, c: char, rest: string)
    requires q.Valid() && body == [c] + rest
    requires forall i :: 0 <= i <= |body| ==> !Parse(q.Append(body[..i])).Finished()
    ensures q.Append([c]).Append(rest) == q.Append(body)
    ensures forall i :: 0 <= i <= |rest| ==> !Parse(q.Append([c]).Append(rest[..i])).Finished()
  {
    hide Parse;
    RestUnfinished(q, body, c, rest);
    assert rest[..|rest|] == rest && body[..|body|] == body;
    assert !Parse(q.Append(body[..|body|])).Finished();
  }

  lemma RestUnfinished(q: Parser, body: string, c: char, rest: string)
    requires q.Valid() && body == [c] + rest
    requires forall i :: 0 <= i < |body| ==> !Parse(q.Append(body[..i])).Finished()
    ensures q.Append([c]).Append(rest) == q.Append(body)
    ensures forall i :: 0 <= i < |rest| ==> !Parse(q.Append([c]).Append(rest[..i])).Finished()
  {
    hide Parse;
    assert q.raw + [c] + rest == q.raw + body;
    forall i | 0 <= i < |rest| ensures !Parse(q.Append([c]).Append(rest[..i])).Finished() {
      assert [c] + rest[..i] == body[..i + 1];
      assert q.raw + [c] + rest[..i] == q.raw + body[..i + 1];
      assert !Parse(q.Append(body[..i + 1])).Finished();
    }
  }

  lemma FeedIsParse(p: Parser, c: char)
    requires p.Valid() && p.phase != Search && !p.Finished()
    ensures Feed(p, [c]) == Parse(p.Append([c]))
  {
    hide Parse;
    assert FeedLoop(p, [c]) == FeedLoop(FeedByte(p, c), []);
  }

  /** The parser cannot finish before the last byte of a printed stanza: it stops right after. */
  lemma {:induction false} NotFinishedEarly(d: Stanza, i: nat)
    requires StanzaOk(d) && i < |Print(d)|
    ensures !Parse(Begin(Initial).Append(Print(d)[..i])).Finished()
  {
    hide Step, StanzaOk, Print;
    var q, body := Begin(Initial), Print(d);
    var early := q.Append(body[..i]);
    RoundTrip(d, []);
    assert body + [] == body;
    ParseResume(early, body[i..]);
    assert q.raw + body[..i] + body[i..] == q.raw + body;
    assert early.Append(body[i..]) == q.Append(body);
  }

  lemma PrintNonempty(d: Stanza)
    ensures Print(d) != []
  {
  }

  /** The first byte of a form releases what the detector still held. */
  lemma FirstOfForm(s: Stream, form: string)
    requires FormComplete(form) && !s.active && !s.inThink && FormMatch(s.startTail) && !FormComplete(s.startTail)
    ensures form != [] && form[0] == '<'
    ensures !AnyByte(s, '<').active && !AnyByte(s, '<').inThink && AnyByte(s, '<').startTail == form[..1]
    ensures StartStanza(AnyByte(s, '<')) == StartStanza(FlushTail(s))
  {
    hide FormMatch, FormComplete, Begin, Show;
    FormShape();
    FormIsOne(form);
    DetectCases(s.startTail, '<');
    if s.startTail != [] {
      HoldsOneAngle(s.startTail);
      assert s.startTail + ['<'] != [];
    } else {
      assert s.startTail + ['<'] == "<";
    }
    assert form[..1] == "<";
  }

  lemma HoldsOneAngle(tail: string)
    requires tail != [] && FormMatch(tail)
    ensures !FormMatch(tail + ['<']) && !FormComplete(tail + ['<'])
  {
    hide FormMatch, FormComplete;
    var t := tail + ['<'];
    assert t[|tail|] == '<';
    if FormMatch(t) { TailHasOneAngle(t); }
    if FormComplete(t) {
      FormIsOne(t);
      FormShape();
    }
  }

  /** Whatever the detector holds, an opening form starts a stanza behind it. */
  lemma {:induction false} RunFormAfter(s: Stream, form: string, rest: string)
    requires FormComplete(form) && !s.active && !s.inThink && FormMatch(s.startTail) && !FormComplete(s.startTail)
    ensures Run(AGENT, s, form + rest, true) == Run(AGENT, StartStanza(FlushTail(s)), rest, true)
  {
    hide FormMatch, FormComplete, AnyByte, StartStanza, FlushTail, At;
    FirstOfForm(s, form);
    FormIsOne(form);
    FormNoTag(form, rest, form + rest);
    assert (form + rest)[1..] == form[1..] + rest;
    RunForm(AnyByte(s, '<'), form, 1, rest);
  }

  /** A thought without tool markup holds no opening form either. */
  lemma NoFormInThought(thought: string)
    requires !Marked(thought) && !Occurring(thought, MISSING_BAR)
    ensures forall i: nat :: !Occurs(thought, i)
  {
    hide At;
    forall i: nat | true ensures !Occurs(thought, i) {
      StartIsMarked(thought, i);
    }
  }

  lemma StartIsMarked(t: string, i: nat)
    ensures At(t, i, START) ==> Occurring(t, FULL_MARK)
  {
    var rest := "tool_calls>";
    assert START == "<" + (FULL_MARK + rest);
    hide At;
    AtSplit(t, i, "<", FULL_MARK + rest);
    AtSplit(t, i + 1, FULL_MARK, rest);
  }

  lemma StartInv(inThink: bool)
    ensures ThinkInv(Start0(inThink))
  {
    hide Marked;
    NotMarkedEmpty();
  }

  /** The stream after thinking: all of the thought is grey, and the gap is open. */
  lemma {:induction false} AfterThought(s0: Stream, thought: string) returns (s: Stream)
    requires s0 == Start0(true) && !Marked(thought) && !Occurring(thought, MISSING_BAR)
    ensures s == CloseThink(AnyAll(s0, thought)) && !AnyAll(s0, thought).active
    ensures !s.active && !s.inThink && !s.ignored && !s.mark && s.gap && s.startTail == []
    ensures s.events == Show(thought, true) + [Gap] && s.parser == Initial
  {
    hide Marked, Occurring, ScanAll, NoteAll, Show, EndsWith, LastBytes;
    NoFormInThought(thought);
    FormFree(thought);
    ScanExact(thought);
    var sc := ScanAll(thought);
    StartInv(true);
    AnyAllInv(s0, thought);
    ThoughtBytes(s0, thought);
    NoteAllFrame(s0, thought);
    var r := AnyAll(s0, thought);
    assert s0.thought + thought == thought;
    s := CloseThink(r);
    ShowMore([], sc.out, sc.tail, true);
    NothingInFront(Show(sc.out, true), Show(sc.out + sc.tail, true));
    if sc.tail == [] { assert sc.out + sc.tail == sc.out; }
  }

  lemma NothingInFront(a: seq<Event>, b: seq<Event>)
    ensures [] + a == a && [] + b == b
  {
  }

  /** End to end: any thinking text without tool markup, the closing tag, any prose, an accepted
      opening form and a printed stanza, in any chunking, show exactly the thinking text and the
      prose as it looks behind the gap, and leave exactly the printed calls ready to run. */
  lemma {:induction false} ThinkThenCall(thought: string, prose: string, form: string, d: Stanza, chunks: seq<string>)
    requires NoTag(thought) && !Marked(thought) && !Occurring(thought, MISSING_BAR)
    requires NoTag(prose) && forall i: nat :: !Occurs(GapText(prose), i)
    requires FormComplete(form) && StanzaOk(d)
    requires Flatten(chunks) == thought + (CLOSE + (prose + (form + Print(d))))
    ensures var r := StreamText(StreamChunks(Split(Start0(true), []), chunks), [], true);
            && r.pending == [] && Executes(r.s)
            && r.s.parser.calls == Calls(d.calls)
            && r.s.events == Show(thought, true) + [Gap] + Show(GapText(prose), false)
  {
    hide Run, Print, StanzaOk, Parse, FormComplete, FormMatch, Marked, Occurring, Begin, NoTag;
    hide GapText, ScanAll, Show, Occurs;
    var s0 := Start0(true);
    StreamChunkIndependence(Split(s0, []), chunks);
    assert [] + Flatten(chunks) == Flatten(chunks);
    RunUntagged(s0, thought, CLOSE + (prose + (form + Print(d))));
    var s2 := AfterThought(s0, thought);
    RunClose(AnyAll(s0, thought), prose + (form + Print(d)));
    FormIsOne(form);
    RunUntagged(s2, prose, form + Print(d));
    FormFree(GapText(prose));
    ScanExact(GapText(prose));
    ProseBytes(s2, prose);
    var sc := ScanAll(GapText(prose));
    var s3 := AnyAll(s2, prose);
    RunFormAfter(s3, form, Print(d));
    StanzaRuns(StartStanza(FlushTail(s3)), d, []);
    RoundTrip(d, []);
    assert Print(d) + [] == Print(d);
    RunEmpty(AGENT, StanzaEnd(StartStanza(FlushTail(s3)), Parse(Begin(Initial).Append(Print(d)))), true);
    ShowMore(s2.events, sc.out, sc.tail, false);
    if sc.tail == [] { assert sc.out + sc.tail == sc.out; }
  }

  /** In particular: spaces and then prose that does not begin with a '<' are shown as that prose. */
  lemma {:induction false} PlainCall(thought: string, gap: string, body: string, form: string, d: Stanza,
                                     chunks: seq<string>)
    requires NoTag(thought) && !Marked(thought) && !Occurring(thought, MISSING_BAR)
    requires Spaces(gap) && (body == [] || (!IsSpace(body[0]) && body[0] != '<'))
    requires NoTag(gap + body) && forall i: nat :: !Occurs(body, i)
    requires FormComplete(form) && StanzaOk(d)
    requires Flatten(chunks) == thought + (CLOSE + ((gap + body) + (form + Print(d))))
    ensures var r := StreamText(StreamChunks(Split(Start0(true), []), chunks), [], true);
            && r.pending == [] && Executes(r.s)
            && r.s.parser.calls == Calls(d.calls)
            && r.s.events == Show(thought, true) + [Gap] + Show(body, false)
  {
    hide Print, StanzaOk, FormComplete, Marked, Occurring, NoTag, Show, Occurs, StreamText, StreamChunks;
    GapTextPlain(gap, body);
    ThinkThenCall(thought, gap + body, form, d, chunks);
  }

  lemma RunClose(s: Stream, rest: string)
    requires !s.active
    ensures Run(AGENT, s, CLOSE + rest, true) == Run(AGENT, CloseThink(s), rest, true)
  {
    var buf := CLOSE + rest;
    assert buf[..|CLOSE|] == CLOSE && buf[|CLOSE|..] == rest;
    NotBoth(buf);
  }

  lemma {:induction false} StanzaRuns(s: Stream, d: Stanza, rest: string)
    requires StanzaOk(d) && s.active && s.parser == Begin(Initial)
    ensures Run(AGENT, s, Print(d) + rest, true) ==
            Run(AGENT, StanzaEnd(s, Parse(Begin(Initial).Append(Print(d)))), rest, true)
  {
    hide Run, Print, StanzaOk, Parse, StanzaEnd;
    FreshStart();
    PrintNonempty(d);
    RoundTrip(d, []);
    assert Print(d) + [] == Print(d);
    forall i | 0 <= i < |Print(d)| ensures !Parse(Begin(Initial).Append(Print(d)[..i])).Finished() {
      NotFinishedEarly(d, i);
    }
    RunStanza(s, Begin(Initial), Print(d), rest);
  }
}
