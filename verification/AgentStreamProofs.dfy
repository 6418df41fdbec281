/** What the streaming state machine guarantees over whole texts: tool markup inside thinking
    is always noticed, ordinary text is conserved, and a printed stanza comes out as calls. */
module AgentStreamProofs {
  import opened Text
  import opened TagSplitter
  import opened Dsml
  import opened DsmlResume
  import opened DsmlPrint
  import opened Detector
  import opened AgentStream

  // ---------- no tool call out of thinking ----------

  ghost predicate Occurring(t: string, mark: string) {
    exists i :: 0 <= i && At(t, i, mark)
  }

  ghost predicate Marked(t: string) {
    Occurring(t, FULL_MARK) || Occurring(t, ASCII_MARK)
  }

  /** The flag is up whenever a mark occurs in what was read as thinking, and only when a
      mark, or the short opening form, does. */
  ghost predicate ThinkInv(s: Stream) {
    && (!s.mark ==> s.thinkTail == LastBytes(s.thought, THINK_TAIL_SIZE) && !Marked(s.thought))
    && (s.mark ==> Marked(s.thought) || Occurring(s.thought, MISSING_BAR))
    && (s.ignored ==> s.mark)
    && (s.inThink ==> !s.gap && EndsWith(s.thought, s.startTail))
  }

  lemma OccursAppend(t: string, x: string, mark: string)
    requires Occurring(t, mark)
    ensures Occurring(t + x, mark)
  {
    var i :| 0 <= i && At(t, i, mark);
    AtAppend(t, x, i, mark);
  }

  /** Appending a byte makes a mark occur exactly when it ends one. */
  lemma OccursSnoc(t: string, c: char, mark: string)
    requires mark != "" && !Occurring(t, mark)
    ensures Occurring(t + [c], mark) == EndsWith(t + [c], mark)
  {
    var u := t + [c];
    if EndsWith(u, mark) {
      assert At(u, |u| - |mark|, mark);
    } else {
      forall i: nat | 0 <= i ensures !At(u, i, mark) {
        assert !At(t, i, mark);
        if i + |mark| <= |t| {
          assert u[i..i + |mark|] == t[i..i + |mark|];
        } else if i + |mark| == |u| {
          assert u[i..i + |mark|] == u[|u| - |mark|..];
        }
      }
    }
  }

  lemma WindowStep(t: string, c: char, mark: string)
    requires |mark| <= THINK_TAIL_SIZE
    ensures PushWindow(LastBytes(t, THINK_TAIL_SIZE), c) == LastBytes(t + [c], THINK_TAIL_SIZE)
    ensures EndsWith(LastBytes(t + [c], THINK_TAIL_SIZE), mark) == EndsWith(t + [c], mark)
  {
    var u := t + [c];
    var tail := LastBytes(u, THINK_TAIL_SIZE);
    if |mark| <= |u| {
      assert tail[|tail| - |mark|..] == u[|u| - |mark|..];
    }
  }

  lemma NoteInv(s: Stream, c: char)
    requires ThinkInv(s)
    ensures var t := Note(s, c);
            && (!t.mark ==> t.thinkTail == LastBytes(t.thought, THINK_TAIL_SIZE) && !Marked(t.thought))
            && (t.mark ==> Marked(t.thought) || Occurring(t.thought, MISSING_BAR))
            && (t.ignored ==> t.mark)
  {
    hide EndsWith, At, LastBytes;
    if s.inThink {
      if s.mark {
        if Occurring(s.thought, FULL_MARK) { OccursAppend(s.thought, [c], FULL_MARK); }
        if Occurring(s.thought, ASCII_MARK) { OccursAppend(s.thought, [c], ASCII_MARK); }
        if Occurring(s.thought, MISSING_BAR) { OccursAppend(s.thought, [c], MISSING_BAR); }
      } else {
        WindowStep(s.thought, c, FULL_MARK);
        WindowStep(s.thought, c, ASCII_MARK);
        OccursSnoc(s.thought, c, FULL_MARK);
        OccursSnoc(s.thought, c, ASCII_MARK);
      }
    }
  }

  lemma SuffixOccurs(t: string, form: string, i: nat, mark: string)
    requires EndsWith(t, form) && At(form, i, mark)
    ensures Occurring(t, mark)
  {
    var k := |t| - |form|;
    assert t[k + i..k + i + |mark|] == t[k..][i..i + |mark|];
    assert At(t, k + i, mark);
  }

  /** A complete opening form at the end of the thinking bytes is itself a mark. */
  lemma FormMarks(thought: string, form: string)
    requires FormComplete(form) && EndsWith(thought, form)
    ensures Marked(thought) || Occurring(thought, MISSING_BAR)
  {
    if form == START {
      assert START[1..1 + |FULL_MARK|] == FULL_MARK;
      SuffixOccurs(thought, form, 1, FULL_MARK);
    } else {
      assert MISSING_BAR[0..|MISSING_BAR|] == MISSING_BAR;
      SuffixOccurs(thought, form, 0, MISSING_BAR);
    }
  }

  lemma EndsWithSnoc(t: string, tail: string, c: char)
    requires EndsWith(t, tail)
    ensures EndsWith(t + [c], tail + [c]) && EndsWith(t + [c], [c]) && EndsWith(t + [c], [])
  {
  }

  lemma NoteFrame(s: Stream, c: char)
    ensures var t := Note(s, c);
            && t == s.(thinkTail := t.thinkTail, mark := t.mark, thought := t.thought)
            && t.thought == if s.inThink then s.thought + [c] else s.thought
  {
  }

  lemma NormalByteInv(s: Stream, c: char)
    requires ThinkInv(s) && !s.active
    ensures ThinkInv(NormalByte(s, c))
  {
    hide EndsWith, LastBytes, FormComplete, FormMatch, Begin, Marked, Occurring, DetectByte, Note, Show;
    NoteInv(s, c);
    NoteFrame(s, c);
    EmptySuffix(s.thought);
    if s.inThink {
      EndsWithSnoc(s.thought, s.startTail, c);
      if FormComplete(s.startTail + [c]) {
        FormMarks(s.thought + [c], s.startTail + [c]);
      }
    }
    if s.startTail != [] || c == '<' { DetectCases(s.startTail, c); }
  }

  lemma AnyByteInv(s: Stream, c: char)
    requires ThinkInv(s)
    ensures ThinkInv(AnyByte(s, c))
  {
    hide EndsWith, LastBytes, Marked, Occurring, NormalByte, Feed;
    if !s.active { NormalByteInv(s, c); }
  }

  lemma EmptySuffix(t: string)
    ensures EndsWith(t, [])
  {
  }

  lemma {:induction false} RunInv(s: Stream, buf: string, finish: bool)
    requires ThinkInv(s)
    ensures ThinkInv(Run(AGENT, s, buf, finish).s)
    decreases |buf|
  {
    hide At, EndsWith, LastBytes, Marked, Occurring, AnyByte, Held;
    if buf != [] {
      EmptySuffix(s.thought);
      if !s.active && At(buf, 0, OPEN) {
        AtInside(buf, 0, OPEN);
        RunInv(OpenThink(s), buf[|OPEN|..], finish);
      } else if !s.active && At(buf, 0, CLOSE) {
        AtInside(buf, 0, CLOSE);
        RunInv(CloseThink(s), buf[|CLOSE|..], finish);
      } else if !(!finish && !s.active && Held(buf)) {
        AnyByteInv(s, buf[0]);
        RunInv(AnyByte(s, buf[0]), buf[1..], finish);
      }
    }
  }

  /** The worker runs the parsed calls only when the stanza is complete and the flag is down. */
  predicate Executes(s: Stream) {
    s.parser.phase == Done && !s.mark
  }

  /** Safety: in every text and every chunking, a call runs only if no tool markup was read as
      thinking; and the flag never goes up without markup there. */
  lemma {:induction false} NoCallFromThinking(inThink: bool, chunks: seq<string>)
    ensures var r := StreamText(StreamChunks(Split(Start0(inThink), []), chunks), [], true).s;
            && (Executes(r) ==> !Marked(r.thought))
            && (r.mark ==> Marked(r.thought) || Occurring(r.thought, MISSING_BAR))
            && (r.mark ==> r.reported)
  {
    hide At, EndsWith, Marked, Run;
    var st := Split(Start0(inThink), []);
    StreamChunkIndependence(st, chunks);
    EmptySuffix([]);
    NotMarkedEmpty();
    RunInv(st.s, [] + Flatten(chunks), true);
    EmptySuffix(Run(AGENT, st.s, [] + Flatten(chunks), true).s.thought);
  }

  lemma NotMarkedEmpty()
    ensures !Marked([])
  {
  }

  // ---------- ordinary text is conserved ----------

  function NormalAll(s: Stream, t: string): Stream {
    if t == [] then s else NormalByte(NormalAll(s, t[..|t| - 1]), t[|t| - 1])
  }

  lemma ShowAppend(a: string, b: string, grey: bool)
    ensures Show(a + b, grey) == Show(a, grey) + Show(b, grey)
  {
  }

  /** What reading `t` leaves in the record of thinking. */
  function NoteAll(s: Stream, t: string): Stream {
    if t == [] then s else Note(NoteAll(s, t[..|t| - 1]), t[|t| - 1])
  }

  lemma {:induction false} NoteAllFrame(s: Stream, t: string)
    ensures var r := NoteAll(s, t);
            && r == s.(thinkTail := r.thinkTail, mark := r.mark, thought := r.thought)
            && r.thought == (if s.inThink then s.thought + t else s.thought)
            && (!s.inThink ==> r == s)
    decreases |t|
  {
    hide Note;
    if t == [] {
      assert s.thought + t == s.thought;
    } else {
      var u, c := t[..|t| - 1], t[|t| - 1];
      NoteAllFrame(s, u);
      NoteFrame(NoteAll(s, u), c);
      NotThinking(NoteAll(s, u), c);
      assert s.thought + u + [c] == s.thought + t;
    }
  }

  lemma NotThinking(s: Stream, c: char)
    ensures !s.inThink ==> Note(s, c) == s
  {
  }

  /** In thinking and outside it, except in the gap behind it, what becomes visible is exactly
      what the detector releases. */
  lemma {:induction false} NormalIsScan(s: Stream, t: string)
    requires !s.active && !s.gap && s.startTail == []
    requires ScanAll(t).Scanning?
    ensures NormalAll(s, t) == Reached(NoteAll(s, t), ScanAll(t))
    decreases |t|
  {
    hide ScanByte, NormalByte, Note;
    if t == [] {
      NothingMore(s.events, s.inThink);
    } else {
      var u, c := t[..|t| - 1], t[|t| - 1];
      assert ScanAll(t) == ScanByte(ScanAll(u), c);
      if ScanAll(u).Stopped? { StoppedForGood(ScanAll(u), c); }
      NormalIsScan(s, u);
      NoteAllFrame(s, u);
      NormalByteIsScan(NoteAll(s, u), ScanAll(u), c);
    }
  }

  lemma StoppedForGood(sc: Scan, c: char)
    requires sc.Stopped?
    ensures ScanByte(sc, c).Stopped?
  {
  }

  lemma ScanCases(sc: Scan, c: char)
    requires sc.Scanning?
    ensures ScanByte(sc, c) ==
            if sc.tail == [] && c != '<' then Scanning(sc.out + [c], [])
            else match DetectByte(sc.tail, c)
              case Hold(tail) => Scanning(sc.out, tail)
              case Release(out, tail) => Scanning(sc.out + out, tail)
              case Found => Stopped(sc.out, sc.tail + [c])
  {
  }

  /** The stream `s` after the detector reached `sc`. */
  function Reached(s: Stream, sc: Scan): Stream
    requires sc.Scanning?
  {
    s.(events := s.events + Show(sc.out, s.inThink), startTail := sc.tail)
  }

  lemma NoteReached(s: Stream, sc: Scan, c: char)
    requires sc.Scanning?
    ensures Note(Reached(s, sc), c) == Reached(Note(s, c), sc)
  {
    hide EndsWith, Show;
  }

  lemma NormalByteIsScan(s: Stream, sc: Scan, c: char)
    requires !s.active && !s.gap
    requires sc.Scanning? && ScanByte(sc, c).Scanning?
    ensures NormalByte(Reached(s, sc), c) == Reached(Note(s, c), ScanByte(sc, c))
  {
    hide DetectByte, ScanByte, Show, Note;
    ScanCases(sc, c);
    NoteReached(s, sc, c);
    NoteFrame(s, c);
    if sc.tail == [] && c != '<' {
      ShowMore(s.events, sc.out, [c], s.inThink);
    } else {
      var v := DetectByte(sc.tail, c);
      if v.Release? { ShowMore(s.events, sc.out, v.out, s.inThink); }
    }
  }

  lemma ShowMore(events: seq<Event>, a: string, b: string, grey: bool)
    ensures events + Show(a, grey) + Show(b, grey) == events + Show(a + b, grey)
  {
    ShowAppend(a, b, grey);
    assert events + Show(a, grey) + Show(b, grey) == events + (Show(a, grey) + Show(b, grey));
  }

  function Size(s: Stream): nat {
    |s.events| + |s.startTail|
  }

  /** No byte is ever shown twice. */
  lemma {:induction false} NormalGrowth(s: Stream, t: string)
    requires !s.inThink
    ensures Size(NormalAll(s, t)) <= Size(s) + |t| && !NormalAll(s, t).inThink
    decreases |t|
  {
    if t != [] {
      var u, c := t[..|t| - 1], t[|t| - 1];
      NormalGrowth(s, u);
      DetectCases(NormalAll(s, u).startTail, c);
    }
  }

  /** The bytes of `t` up to and including position m-1 start an opening form. */
  ghost predicate StartsForm(t: string, m: nat) {
    m <= |t| && FormMatch(t[..m]) && !FormComplete(t[..m])
  }

  /** Right after thinking, while a '<' is held, the gap is still open. */
  lemma {:induction false} GapHolds(s: Stream, t: string, m: nat)
    requires !s.active && !s.inThink && s.gap && s.startTail == [] && StartsForm(t, m)
    ensures NormalAll(s, t[..m]) == s.(startTail := t[..m])
    decreases m
  {
    hide FormMatch, FormComplete, NormalByte;
    if m == 0 {
      assert t[..0] == [];
    } else {
      var u, c := t[..m - 1], t[m - 1];
      assert t[..m][..m - 1] == u && t[..m][m - 1] == c && u + [c] == t[..m];
      PrefixStarts(t, m);
      GapHolds(s, t, m - 1);
      HeldByte(s, u, c);
    }
  }

  lemma HeldByte(s: Stream, u: string, c: char)
    requires !s.active && !s.inThink && FormMatch(u + [c]) && !FormComplete(u + [c])
    requires !IsSpace(c) && (u == [] ==> c == '<')
    ensures NormalByte(s.(startTail := u), c) == s.(startTail := u + [c])
  {
    hide FormMatch, FormComplete;
    DetectCases(u, c);
  }

  lemma PrefixStarts(t: string, m: nat)
    requires StartsForm(t, m) && 0 < m
    ensures StartsForm(t, m - 1) && !IsSpace(t[m - 1]) && (m == 1 ==> t[0] == '<')
  {
    FormShape();
    var u := t[..m - 1];
    OneForm(t[..m]);
    assert START[..|START|] == START && MISSING_BAR[..|MISSING_BAR|] == MISSING_BAR;
    assert u == t[..m][..m - 1] && t[..m][m - 1] == t[m - 1];
    if PrefixOf(t[..m], START) {
      assert START[..m][..m - 1] == START[..m - 1];
      assert t[m - 1] == START[..m][m - 1] == START[m - 1];
      NoSpaces(START, m - 1);
    } else {
      assert MISSING_BAR[..m][..m - 1] == MISSING_BAR[..m - 1];
      assert t[m - 1] == MISSING_BAR[..m][m - 1] == MISSING_BAR[m - 1];
      NoSpaces(MISSING_BAR, m - 1);
    }
  }

  lemma NoSpaces(form: string, k: nat)
    requires (form == START || form == MISSING_BAR) && k < |form|
    ensures !IsSpace(form[k])
  {
  }

  /** The gap after thinking is meant to end at the first byte that is not a space.  It does
      not while that byte is a held '<': a space that arrives then is lost.  Visible plus held
      bytes are the text if and only if no space directly follows the longest run that still
      starts an opening form. */
  lemma {:induction false} GapConserves(s: Stream, t: string, m: nat)
    requires !s.active && !s.inThink && s.gap && s.startTail == []
    requires StartsForm(t, m)
    requires m < |t| ==> !FormMatch(t[..m + 1])
    requires ScanAll(t).Scanning? && (t != [] ==> !IsSpace(t[0]))
    ensures (var r := NormalAll(s, t);
             && r.events + Show(r.startTail, false) == s.events + Show(t, false))
            <==> (m == |t| || !IsSpace(t[m]))
  {
    hide FormMatch, FormComplete, DetectByte, ScanAll, NormalByte;
    GapHolds(s, t, m);
    if m == |t| {
      assert t[..m] == t;
    } else {
      var held := t[..m];
      assert t[..m + 1][..m] == held && t[..m + 1][m] == t[m];
      var s1 := NormalAll(s, t[..m + 1]);
      if IsSpace(t[m]) {
        SpaceDropped(s, held, t[m]);
        NormalSplit(s, t[..m + 1], t[m + 1..]);
        assert t[..m + 1] + t[m + 1..] == t;
        NormalGrowth(s1, t[m + 1..]);
        assert Size(NormalAll(s, t)) < Size(s) + |t|;
        assert |Show(t, false)| == |t|;
        var r := NormalAll(s, t);
        assert |r.events + Show(r.startTail, false)| == Size(r);
      } else {
        GapCloses(s, t, m);
      }
    }
  }

  lemma SpaceDropped(s: Stream, held: string, c: char)
    requires !s.active && !s.inThink && s.gap && IsSpace(c)
    ensures NormalByte(s.(startTail := held), c) == s.(startTail := held)
  {
  }

  lemma {:induction false} NormalSplit(s: Stream, a: string, b: string)
    ensures NormalAll(s, a + b) == NormalAll(NormalAll(s, a), b)
    decreases |b|
  {
    hide NormalByte;
    if b == [] {
      assert a + b == a;
    } else {
      assert (a + b)[..|a + b| - 1] == a + b[..|b| - 1];
      NormalSplit(s, a, b[..|b| - 1]);
    }
  }

  /** Without a gap, what is shown and what is held are together the text. */
  lemma {:induction false} ScanShowsAll(s: Stream, t: string)
    requires !s.active && !s.inThink && !s.gap && s.startTail == []
    requires ScanAll(t).Scanning?
    ensures var r := NormalAll(s, t);
            r.events + Show(r.startTail, false) == s.events + Show(t, false)
  {
    hide FormMatch, FormComplete, ScanAll, NormalAll, Show;
    NormalIsScan(s, t);
    NoteAllFrame(s, t);
    ScanExact(t);
    var sc := ScanAll(t);
    ShowMore(s.events, sc.out, sc.tail, false);
  }

  /** The byte that settles the held run also closes the gap. */
  lemma {:induction false} SettledSame(s: Stream, t: string, m: nat)
    requires !s.active && !s.inThink && s.gap && s.startTail == []
    requires StartsForm(t, m) && m < |t| && !FormMatch(t[..m + 1]) && !IsSpace(t[m])
    requires ScanAll(t[..m + 1]).Scanning?
    ensures NormalAll(s, t[..m + 1]) == NormalAll(s.(gap := false), t[..m + 1])
  {
    hide FormMatch, FormComplete, DetectByte, ScanAll, NormalByte, Show;
    var s' := s.(gap := false);
    var a := t[..m + 1];
    GapHolds(s, t, m);
    ScanOfHeld(t, m);
    assert a[..|a| - 1] == t[..m] && a[|a| - 1] == t[m];
    NormalIsScan(s', t[..m]);
    NoteAllFrame(s', t[..m]);
    NothingMore(s'.events, false);
    assert t[..m] + [t[m]] == a;
    Settles(s, t[..m], t[m]);
  }

  lemma NothingMore(events: seq<Event>, grey: bool)
    ensures events + Show([], grey) == events
  {
  }

  /** Once a byte that is not a space settles the held run, everything is as without a gap. */
  lemma {:induction false} GapCloses(s: Stream, t: string, m: nat)
    requires !s.active && !s.inThink && s.gap && s.startTail == []
    requires StartsForm(t, m) && m < |t| && !FormMatch(t[..m + 1]) && !IsSpace(t[m])
    requires ScanAll(t).Scanning?
    ensures var r := NormalAll(s, t);
            r.events + Show(r.startTail, false) == s.events + Show(t, false)
  {
    hide FormMatch, FormComplete, ScanAll, NormalAll, Show, StartsForm;
    var s' := s.(gap := false);
    var a, b := t[..m + 1], t[m + 1..];
    assert a + b == t;
    ScanPrefix(a, b);
    SettledSame(s, t, m);
    NormalSplit(s, a, b);
    NormalSplit(s', a, b);
    ScanShowsAll(s', t);
  }

  lemma Settles(s: Stream, held: string, c: char)
    requires !s.active && !s.inThink && s.startTail == [] && !IsSpace(c)
    requires FormMatch(held) && !FormComplete(held) && !FormMatch(held + [c])
    ensures NormalByte(s.(startTail := held), c) == NormalByte(s.(startTail := held, gap := false), c)
  {
    DetectCases(held, c);
    FormShape();
  }

  lemma {:induction false} ScanOfHeld(t: string, m: nat)
    requires StartsForm(t, m)
    ensures ScanAll(t[..m]) == Scanning([], t[..m])
    decreases m
  {
    hide FormMatch, FormComplete, DetectByte;
    if m == 0 {
      assert t[..0] == [];
    } else {
      var u, c := t[..m - 1], t[m - 1];
      assert t[..m][..m - 1] == u && t[..m][m - 1] == c && u + [c] == t[..m];
      PrefixStarts(t, m);
      ScanOfHeld(t, m - 1);
      DetectCases(u, c);
    }
  }

  lemma {:induction false} ScanPrefix(a: string, b: string)
    requires ScanAll(a + b).Scanning?
    ensures ScanAll(a).Scanning?
    decreases |b|
  {
    hide DetectByte;
    if b == [] {
      assert a + b == a;
    } else {
      assert (a + b)[..|a + b| - 1] == a + b[..|b| - 1];
      ScanPrefix(a, b[..|b| - 1]);
    }
  }

  // ---------- all of the gap ----------

  /** The text behind thinking as the detector sees it: a space that arrives before anything has
      been shown is dropped. */
  function GapText(t: string): string {
    if t == [] then []
    else
      var u, c := GapText(t[..|t| - 1]), t[|t| - 1];
      if ScanAll(u).Scanning? && ScanAll(u).out == [] && IsSpace(c) then u else u + [c]
  }

  function GapReached(s: Stream, sc: Scan): Stream
    requires sc.Scanning?
  {
    Reached(s, sc).(gap := sc.out == [])
  }

  lemma GapByteIsScan(s: Stream, sc: Scan, c: char)
    requires !s.active && !s.inThink
    requires sc.Scanning? && ScanByte(sc, c).Scanning? && (sc.out == [] ==> !IsSpace(c))
    ensures NormalByte(GapReached(s, sc), c) == GapReached(s, ScanByte(sc, c))
  {
    hide ScanByte, Show, FormMatch, FormComplete;
    ScanCases(sc, c);
    DetectCases(sc.tail, c);
    if sc.tail == [] && c != '<' {
      ShowMore(s.events, sc.out, [c], false);
    } else {
      var v := DetectByte(sc.tail, c);
      if v.Release? { ShowMore(s.events, sc.out, v.out, false); }
    }
  }

  /** In the gap the stream does to a text what the detector does to its GapText. */
  lemma {:induction false} GapIsScan(s: Stream, t: string)
    requires !s.active && !s.inThink && s.gap && s.startTail == []
    requires ScanAll(GapText(t)).Scanning?
    ensures NormalAll(s, t) == GapReached(s, ScanAll(GapText(t)))
    decreases |t|
  {
    hide NormalByte, ScanAll;
    EmptyScan();
    if t == [] {
      NothingMore(s.events, false);
    } else {
      var prefix, c := t[..|t| - 1], t[|t| - 1];
      var u := GapText(prefix);
      if GapText(t) == u {
        GapIsScan(s, prefix);
        GapDrops(s, prefix, c);
      } else {
        ScanSnoc(u, c);
        GapIsScan(s, prefix);
        GapByteIsScan(s, ScanAll(u), c);
      }
    }
  }

  /** The other texts open a stanza: the first prefix whose GapText holds a form does, behind the
      bytes in front of that form, and the stanza is not one to be ignored. */
  lemma {:induction false} GapOpens(s: Stream, t: string) returns (k: nat)
    requires !s.active && !s.inThink && s.gap && s.startTail == []
    requires ScanAll(GapText(t)).Stopped?
    ensures k <= |t| && var sc := ScanAll(GapText(t));
            && GapText(t[..k]) == sc.out + sc.form
            && NormalAll(s, t[..k]) == StartStanza(s.(events := s.events + Show(sc.out, false)))
            && forall j :: 0 <= j < k ==> ScanAll(GapText(t[..j])).Scanning?
    decreases |t|
  {
    hide NormalByte, ScanAll, StartStanza, Show;
    EmptyScan();
    var prefix, c := t[..|t| - 1], t[|t| - 1];
    var u := GapText(prefix);
    if ScanAll(u).Stopped? {
      k := GapOpens(s, prefix);
      assert prefix[..k] == t[..k] && forall j :: 0 <= j < k ==> prefix[..j] == t[..j];
      ScanSnoc(u, c);
      StoppedSame(ScanAll(u), c);
    } else {
      k := |t|;
      assert t[..k] == t;
      ScanSnoc(u, c);
      GapIsScan(s, prefix);
      GapByteOpens(s, ScanAll(u), c);
      ScanExact(GapText(t));
      FoundAtEnd(u, c);
      forall j | 0 <= j < k ensures ScanAll(GapText(t[..j])).Scanning? {
        assert t[..j] == prefix[..j];
        GapPrefix(prefix, j);
      }
    }
  }

  lemma StoppedSame(sc: Scan, c: char)
    requires sc.Stopped?
    ensures ScanByte(sc, c) == sc
  {
  }

  /** A scan that stops at its last byte ends with the form. */
  lemma FoundAtEnd(u: string, c: char)
    requires ScanAll(u).Scanning? && ScanAll(u + [c]).Stopped?
    ensures u + [c] == ScanAll(u + [c]).out + ScanAll(u + [c]).form
  {
    hide ScanAll, FormMatch, FormComplete;
    ScanExact(u);
    ScanSnoc(u, c);
    ScanCases(ScanAll(u), c);
  }

  lemma GapByteOpens(s: Stream, sc: Scan, c: char)
    requires !s.active && !s.inThink
    requires sc.Scanning? && ScanByte(sc, c).Stopped? && (sc.out == [] ==> !IsSpace(c))
    ensures ScanByte(sc, c).out == sc.out
    ensures NormalByte(GapReached(s, sc), c) == StartStanza(s.(events := s.events + Show(sc.out, false)))
  {
    hide Show, FormMatch, FormComplete, Begin;
    ScanCases(sc, c);
    DetectCases(sc.tail, c);
  }

  lemma {:induction false} GapPrefix(t: string, k: nat)
    requires k <= |t| && ScanAll(GapText(t)).Scanning?
    ensures ScanAll(GapText(t[..k])).Scanning?
    decreases |t|
  {
    hide ScanAll;
    if k == |t| {
      assert t[..k] == t;
    } else {
      var u := t[..|t| - 1];
      ScanSnoc(GapText(u), t[|t| - 1]);
      assert u[..k] == t[..k];
      GapPrefix(u, k);
    }
  }

  lemma EmptyScan()
    ensures ScanAll([]) == Scanning([], [])
  {
  }

  lemma ScanSnoc(u: string, c: char)
    ensures ScanAll(u + [c]) == ScanByte(ScanAll(u), c)
    ensures ScanAll(u + [c]).Scanning? ==> ScanAll(u).Scanning?
  {
    assert (u + [c])[..|u|] == u;
  }

  /** A dropped space: the text kept is the shorter one only when the gap is still open. */
  lemma GapDrops(s: Stream, prefix: string, c: char)
    requires !s.active && !s.inThink && ScanAll(GapText(prefix)).Scanning?
    requires ScanAll(GapText(prefix)).out == [] && IsSpace(c)
    ensures NormalByte(GapReached(s, ScanAll(GapText(prefix))), c) == GapReached(s, ScanAll(GapText(prefix)))
  {
    hide ScanAll, Show;
  }

  /** Leading spaces go, and a text that does not start with a '<' is then kept whole. */
  lemma {:induction false} GapTextPlain(gap: string, body: string)
    requires Spaces(gap) && (body == [] || (!IsSpace(body[0]) && body[0] != '<'))
    ensures GapText(gap + body) == body
    decreases |gap| + |body|
  {
    hide ScanAll;
    EmptyScan();
    var t := gap + body;
    if body == [] {
      if gap != [] {
        assert t[..|t| - 1] == gap[..|gap| - 1] + [];
        GapTextPlain(gap[..|gap| - 1], []);
        assert t[|t| - 1] in gap;
      }
    } else {
      var init := body[..|body| - 1];
      assert t[..|t| - 1] == gap + init && t[|t| - 1] == body[|body| - 1];
      GapTextPlain(gap, init);
      assert init + [body[|body| - 1]] == body;
      if init != [] { PlainStart(init); }
    }
  }

  lemma {:induction false} PlainStart(t: string)
    requires t != [] && t[0] != '<'
    ensures ScanAll(t).Scanning? ==> ScanAll(t).out != []
    decreases |t|
  {
    hide DetectByte;
    EmptyScan();
    var u := t[..|t| - 1];
    if u == [] {
      assert ScanAll(t) == ScanByte(ScanAll([]), t[0]);
    } else {
      PlainStart(u);
    }
  }

  /** A concrete loss: after "</think>", the text "< b" is shown as "<b". */
  lemma {:induction false} GapLosesSpace()
    ensures NormalAll(CloseThink(Start0(true)), "< b").events == [Gap, Shown('<', false), Shown('b', false)]
  {
    hide NormalByte, FormMatch, FormComplete;
    var s := CloseThink(Start0(true));
    var t := "< b";
    FormShape();
    assert t[..2] == "< " && t[..1] == "<" && t[..2][..1] == "<" && t[..1][..0] == "";
    assert "<"[..1] == "<";
    GapHolds(s, "<", 1);
    SpaceDropped(s, "<", ' ');
    assert NormalAll(s, "< ") == s.(startTail := "<");
    LoneAngle(s, 'b');
    assert NormalAll(s, t) == NormalByte(NormalAll(s, "< "), 'b');
    assert Show("<b", false) == [Shown('<', false), Shown('b', false)];
  }

  lemma LoneAngle(s: Stream, c: char)
    requires !s.inThink && !IsSpace(c) && c == 'b'
    ensures NormalByte(s.(startTail := "<"), c) == ShowBytes(s, "<b").(startTail := "")
  {
    FormShape();
    DetectCases("<", c);
    var u := "<" + [c];
    assert u == "<b";
    assert START[..2][1] == START[1] && MISSING_BAR[..2][1] == MISSING_BAR[1] && u[1] == 'b';
  }
}
