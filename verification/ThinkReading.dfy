/** Which bytes of a sampled text are thinking, fixed from the text alone, and what the stream
    makes of the whole text: what is shown in which style, what counts as thinking for the guard,
    and which tool stanzas may run. */
module ThinkReading {
  import opened Text
  import opened TagSplitter
  import opened Dsml
  import opened DsmlResume
  import opened DsmlPrint
  import opened Detector
  import opened AgentStream
  import opened AgentStreamProofs
  import opened AgentEndToEnd

  // A thinking tag and the text behind it, up to the next one.
  datatype Part = Part(opens: bool, body: string)

  function TagOf(opens: bool): string {
    if opens then OPEN else CLOSE
  }

  function Rest(parts: seq<Part>): string {
    if parts == [] then "" else TagOf(parts[0].opens) + (parts[0].body + Rest(parts[1..]))
  }

  /** A text cut at its thinking tags. */
  function Spelled(first: string, parts: seq<Part>): string {
    first + Rest(parts)
  }

  ghost predicate Untagged(first: string, parts: seq<Part>)
    decreases |parts|
  {
    NoTag(first) && (parts != [] ==> Untagged(parts[0].body, parts[1..]))
  }

  /** The thinking bytes: those behind an opening tag, or at the start of a text that starts in
      thinking, with no closing tag in between. */
  function Thought(thinking: bool, first: string, parts: seq<Part>): string
    decreases |parts|
  {
    (if thinking then first else "") +
    (if parts == [] then "" else Thought(parts[0].opens, parts[0].body, parts[1..]))
  }

  function EndsThinking(thinking: bool, parts: seq<Part>): bool {
    if parts == [] then thinking else parts[|parts| - 1].opens
  }

  /** What is left of a text that stands behind a closing tag: all but the spaces that are
      dropped there. */
  function Kept(gap: bool, body: string): string {
    if gap then GapText(body) else body
  }

  /** No opening form of a stanza occurs in any part. */
  ghost predicate Quiet(gap: bool, first: string, parts: seq<Part>)
    decreases |parts|
  {
    (forall i: nat :: !Occurs(Kept(gap, first), i)) &&
    (parts != [] ==> Quiet(!parts[0].opens, parts[0].body, parts[1..]))
  }

  /** What is shown: thinking bytes grey and all others plain, and the blank line for every
      closing tag. */
  function Look(thinking: bool, gap: bool, first: string, parts: seq<Part>): seq<Event>
    decreases |parts|
  {
    Show(Kept(gap, first), thinking) +
    (if parts == [] then []
     else (if parts[0].opens then [] else [Gap])
          + Look(parts[0].opens, !parts[0].opens, parts[0].body, parts[1..]))
  }

  // ---------- the cut is the reading of the splitter ----------

  function Bytes(t: string): seq<Piece> {
    seq(|t|, i requires 0 <= i < |t| => Byte(t[i]))
  }

  function PiecesOf(first: string, parts: seq<Part>): seq<Piece>
    decreases |parts|
  {
    Bytes(first) +
    (if parts == [] then [] else [if parts[0].opens then Opened else Closed] + PiecesOf(parts[0].body, parts[1..]))
  }

  /** The bytes of a reading that stand behind an opening tag and no closing one. */
  function ThinkingPieces(thinking: bool, ps: seq<Piece>): string
    decreases |ps|
  {
    if ps == [] then ""
    else match ps[0]
      case Opened => ThinkingPieces(true, ps[1..])
      case Closed => ThinkingPieces(false, ps[1..])
      case Byte(c) => (if thinking then [c] else []) + ThinkingPieces(thinking, ps[1..])
  }

  lemma RestStartsAngle(parts: seq<Part>)
    ensures Rest(parts) == [] || Rest(parts)[0] == '<'
  {
  }

  lemma BytesFirst(t: string, ps: seq<Piece>)
    requires t != []
    ensures var all := Bytes(t) + ps; all[0] == Byte(t[0]) && all[1..] == Bytes(t[1..]) + ps
  {
  }

  lemma SpellByte(c: char, ps: seq<Piece>)
    requires ps != [] && ps[0] == Byte(c)
    ensures Spell(ps) == [c] + Spell(ps[1..])
  {
  }

  lemma {:induction false} SpellBytes(t: string, ps: seq<Piece>)
    ensures Spell(Bytes(t) + ps) == t + Spell(ps)
    decreases |t|
  {
    hide Spell;
    if t == [] {
      assert Bytes(t) + ps == ps;
    } else {
      BytesFirst(t, ps);
      SpellByte(t[0], Bytes(t) + ps);
      SpellBytes(t[1..], ps);
      assert [t[0]] + (t[1..] + Spell(ps)) == t + Spell(ps);
    }
  }

  lemma {:induction false} ThinkingBytes(t: string, ps: seq<Piece>, thinking: bool)
    ensures ThinkingPieces(thinking, Bytes(t) + ps) == (if thinking then t else "") + ThinkingPieces(thinking, ps)
    decreases |t|
  {
    if t == [] {
      assert Bytes(t) + ps == ps;
    } else {
      BytesFirst(t, ps);
      ThinkingBytes(t[1..], ps, thinking);
      if thinking { assert [t[0]] + (t[1..] + ThinkingPieces(thinking, ps)) == t + ThinkingPieces(thinking, ps); }
    }
  }

  lemma {:induction false} GreedyBytes(t: string, ps: seq<Piece>)
    requires Greedy(ps) && NoTag(t) && (Spell(ps) == [] || Spell(ps)[0] == '<')
    ensures Greedy(Bytes(t) + ps)
    decreases |t|
  {
    hide At, NoTag, Spell;
    if t == [] {
      assert Bytes(t) + ps == ps;
    } else {
      NoTagTail(t);
      BytesFirst(t, ps);
      GreedyBytes(t[1..], ps);
      SpellBytes(t, ps);
      NoTagAcross(t, Spell(ps));
    }
  }

  /** Cut at its tags, a text is read as the splitter reads it, and its thinking bytes are those
      of that reading. */
  lemma {:induction false} CutIsGreedy(thinking: bool, first: string, parts: seq<Part>)
    requires Untagged(first, parts)
    ensures Greedy(PiecesOf(first, parts)) && Spell(PiecesOf(first, parts)) == Spelled(first, parts)
    ensures ThinkingPieces(thinking, PiecesOf(first, parts)) == Thought(thinking, first, parts)
    decreases |parts|
  {
    hide NoTag, At;
    RestStartsAngle(parts);
    var ps: seq<Piece> := [];
    if parts != [] {
      var p := parts[0];
      var more := PiecesOf(p.body, parts[1..]);
      CutIsGreedy(p.opens, p.body, parts[1..]);
      ps := [if p.opens then Opened else Closed] + more;
      assert ps[1..] == more;
      assert Spell(ps) == TagOf(p.opens) + Spell(more);
      assert Spell(ps) == Rest(parts);
    }
    SpellBytes(first, ps);
    ThinkingBytes(first, ps, thinking);
    GreedyBytes(first, ps);
    assert PiecesOf(first, parts) == Bytes(first) + ps;
  }

  /** Every text can be cut so. */
  lemma {:induction false} CutExists(t: string) returns (first: string, parts: seq<Part>)
    ensures Untagged(first, parts) && Spelled(first, parts) == t
    decreases |t|
  {
    var k := FirstTag(t, 0);
    first, parts := t[..k], [];
    NoTagBefore(t, k);
    if k < |t| {
      hide At, NoTag;
      var opens := At(t, k, OPEN);
      var tag := TagOf(opens);
      AtInside(t, k, tag);
      var body, more := CutExists(t[k + |tag|..]);
      parts := [Part(opens, body)] + more;
      assert t[k..k + |tag|] == tag by { AtSlice(t, k, tag); }
      assert t == t[..k] + (t[k..k + |tag|] + t[k + |tag|..]);
      assert parts[1..] == more;
    } else {
      assert t[..k] + "" == t;
    }
  }

  /** Where the first tag at or behind `i` starts, or the end of the text. */
  function FirstTag(t: string, i: nat): (k: nat)
    requires i <= |t|
    ensures i <= k <= |t| && (k < |t| ==> At(t, k, OPEN) || At(t, k, CLOSE))
    ensures forall j :: i <= j < k ==> !At(t, j, OPEN) && !At(t, j, CLOSE)
    decreases |t| - i
  {
    if i == |t| || At(t, i, OPEN) || At(t, i, CLOSE) then i else FirstTag(t, i + 1)
  }

  lemma NoTagBefore(t: string, k: nat)
    requires k <= |t| && forall j :: 0 <= j < k ==> !At(t, j, OPEN) && !At(t, j, CLOSE)
    ensures NoTag(t[..k])
  {
    forall i: nat | true ensures !At(t[..k], i, OPEN) && !At(t[..k], i, CLOSE) {
      NotInFront(t, k, i, OPEN);
      NotInFront(t, k, i, CLOSE);
    }
  }

  lemma NotInFront(t: string, k: nat, i: nat, tag: string)
    requires k <= |t| && tag != "" && (i < k ==> !At(t, i, tag))
    ensures !At(t[..k], i, tag)
  {
    if i + |tag| <= k { assert t[..k][i..i + |tag|] == t[i..i + |tag|]; }
  }

  // ---------- one part ----------

  /** The flag is up exactly when a tool mark stands in what was read as thinking. */
  ghost predicate MarkExact(s: Stream) {
    && (s.mark <==> Marked(s.thought))
    && (!s.mark ==> s.thinkTail == LastBytes(s.thought, THINK_TAIL_SIZE))
  }

  lemma {:induction false} NoteExact(s: Stream, c: char)
    requires MarkExact(s)
    ensures MarkExact(Note(s, c))
  {
    hide EndsWith, At, LastBytes;
    if s.inThink {
      if s.mark {
        if Occurring(s.thought, FULL_MARK) { OccursAppend(s.thought, [c], FULL_MARK); }
        if Occurring(s.thought, ASCII_MARK) { OccursAppend(s.thought, [c], ASCII_MARK); }
      } else {
        WindowStep(s.thought, c, FULL_MARK);
        WindowStep(s.thought, c, ASCII_MARK);
        OccursSnoc(s.thought, c, FULL_MARK);
        OccursSnoc(s.thought, c, ASCII_MARK);
      }
    }
  }

  lemma {:induction false} NoteAllExact(s: Stream, t: string)
    requires MarkExact(s)
    ensures MarkExact(NoteAll(s, t))
    decreases |t|
  {
    hide MarkExact, Note;
    if t != [] {
      NoteAllExact(s, t[..|t| - 1]);
      NoteExact(NoteAll(s, t[..|t| - 1]), t[|t| - 1]);
    }
  }

  /** A stream at the start of a part. */
  ghost predicate AtPart(s: Stream) {
    !s.active && s.startTail == [] && (s.gap ==> !s.inThink) && MarkExact(s)
  }

  /** `r` is the stream `s` behind a part, with what the detector still holds released. */
  ghost predicate BehindPart(s: Stream, body: string, r: Stream) {
    && !r.active && r.inThink == s.inThink && r.startTail == [] && MarkExact(r)
    && r.ignored == s.ignored && r.reported == s.reported && r.parser == s.parser
    && r.events == s.events + Show(Kept(s.gap, body), s.inThink)
    && r.thought == s.thought + (if s.inThink then body else "")
  }

  lemma {:induction false} ReadPart(s: Stream, body: string)
    requires AtPart(s) && forall i: nat :: !Occurs(Kept(s.gap, body), i)
    ensures var r := AnyAll(s, body);
            && !r.active && r.inThink == s.inThink && (r.inThink ==> !r.gap)
            && FormMatch(r.startTail) && !FormComplete(r.startTail)
            && BehindPart(s, body, FlushTail(r))
  {
    hide ScanAll, NoteAll, AnyAll, GapText, Show, Occurs, Marked, LastBytes, FormMatch, FormComplete;
    var kept := Kept(s.gap, body);
    FormFree(kept);
    ScanExact(kept);
    var sc := ScanAll(kept);
    ShowMore(s.events, sc.out, sc.tail, s.inThink);
    if sc.tail == [] { assert sc.out + sc.tail == sc.out; }
    assert s.thought + "" == s.thought;
    if s.gap {
      ProseBytes(s, body);
    } else {
      ThoughtBytes(s, body);
      NoteAllExact(s, body);
      NoteAllFrame(s, body);
    }
  }

  lemma RunOpen(s: Stream, rest: string)
    requires !s.active
    ensures Run(AGENT, s, OPEN + rest, true) == Run(AGENT, OpenThink(s), rest, true)
  {
    var buf := OPEN + rest;
    assert buf[..|OPEN|] == OPEN && buf[|OPEN|..] == rest;
  }

  /** A tag behind a part: the held bytes are released, and thinking starts or ends. */
  lemma {:induction false} NextPart(s: Stream, body: string, opens: bool, rest: string) returns (t: Stream)
    requires AtPart(s) && NoTag(body) && forall i: nat :: !Occurs(Kept(s.gap, body), i)
    ensures Run(AGENT, s, body + (TagOf(opens) + rest), true) == Run(AGENT, t, rest, true)
    ensures AtPart(t) && t.inThink == opens && t.gap == !opens
    ensures t.ignored == s.ignored && t.reported == s.reported && t.parser == s.parser
    ensures t.events == s.events + Show(Kept(s.gap, body), s.inThink) + (if opens then [] else [Gap])
    ensures t.thought == s.thought + (if s.inThink then body else "")
  {
    hide Run, AnyAll, Kept, Show, Occurs, Marked, LastBytes, NoTag, FormMatch, FormComplete;
    ReadPart(s, body);
    var r := AnyAll(s, body);
    RunUntagged(s, body, TagOf(opens) + rest);
    if opens {
      RunOpen(r, rest);
      t := OpenThink(r);
      assert FlushTail(r).events + [] == FlushTail(r).events;
    } else {
      RunClose(r, rest);
      t := CloseThink(r);
    }
  }

  // ---------- all parts ----------

  /** What the stream makes of a text without opening forms, in front of anything else. */
  ghost predicate BehindParts(s: Stream, first: string, parts: seq<Part>, r: Stream) {
    && !r.active && r.inThink == EndsThinking(s.inThink, parts) && r.startTail == [] && MarkExact(r)
    && r.ignored == s.ignored && r.reported == s.reported && r.parser == s.parser
    && r.events == s.events + Look(s.inThink, s.gap, first, parts)
    && r.thought == s.thought + Thought(s.inThink, first, parts)
  }

  /** The last part, in front of the end or of a tag or form. */
  lemma {:induction false} ReadLast(s: Stream, first: string, rest: string) returns (r: Stream)
    requires AtPart(s) && Untagged(first, []) && Quiet(s.gap, first, []) && (rest == [] || rest[0] == '<')
    ensures Run(AGENT, s, Spelled(first, []) + rest, true) == Run(AGENT, r, rest, true)
    ensures !r.active && r.inThink == s.inThink && (r.inThink ==> !r.gap)
    ensures FormMatch(r.startTail) && !FormComplete(r.startTail)
    ensures BehindParts(s, first, [], FlushTail(r))
  {
    hide Run, AnyAll, Kept, Show, Occurs, MarkExact, NoTag, FormMatch, FormComplete, FlushTail;
    ReadPart(s, first);
    r := AnyAll(s, first);
    RunUntagged(s, first, rest);
    assert Spelled(first, []) == first;
    assert Show(Kept(s.gap, first), s.inThink) + [] == Look(s.inThink, s.gap, first, []);
    assert (if s.inThink then first else "") + "" == Thought(s.inThink, first, []);
  }

  lemma {:induction false} ReadParts(s: Stream, first: string, parts: seq<Part>, rest: string) returns (r: Stream)
    requires AtPart(s) && Untagged(first, parts) && Quiet(s.gap, first, parts) && (rest == [] || rest[0] == '<')
    ensures Run(AGENT, s, Spelled(first, parts) + rest, true) == Run(AGENT, r, rest, true)
    ensures !r.active && r.inThink == EndsThinking(s.inThink, parts) && (r.inThink ==> !r.gap)
    ensures FormMatch(r.startTail) && !FormComplete(r.startTail)
    ensures BehindParts(s, first, parts, FlushTail(r))
    decreases |parts|
  {
    hide Run, Kept, Show, Occurs, NoTag, FormMatch, FormComplete, FlushTail, Look, Thought, BehindParts;
    if parts == [] {
      r := ReadLast(s, first, rest);
    } else {
      var p, more := parts[0], Rest(parts[1..]);
      var t := NextPart(s, first, p.opens, p.body + more + rest);
      assert first + (TagOf(p.opens) + (p.body + more + rest)) == Spelled(first, parts) + rest;
      assert Spelled(p.body, parts[1..]) == p.body + more;
      r := ReadParts(t, p.body, parts[1..], rest);
      MoreParts(s, first, parts, t, FlushTail(r));
    }
  }

  lemma MoreParts(s: Stream, first: string, parts: seq<Part>, t: Stream, r: Stream)
    requires parts != [] && t.inThink == parts[0].opens && t.gap == !parts[0].opens
    requires t.ignored == s.ignored && t.reported == s.reported && t.parser == s.parser
    requires t.events == s.events + Show(Kept(s.gap, first), s.inThink) + (if parts[0].opens then [] else [Gap])
    requires t.thought == s.thought + (if s.inThink then first else "")
    requires BehindParts(t, parts[0].body, parts[1..], r)
    ensures BehindParts(s, first, parts, r)
  {
    hide Kept, Show, MarkExact;
    var p := parts[0];
    var a, b := Show(Kept(s.gap, first), s.inThink), if p.opens then [] else [Gap];
    var c := Look(p.opens, !p.opens, p.body, parts[1..]);
    assert Look(s.inThink, s.gap, first, parts) == a + (b + c);
    assert s.events + a + b + c == s.events + (a + (b + c));
    var x, y := if s.inThink then first else "", Thought(p.opens, p.body, parts[1..]);
    assert s.thought + x + y == s.thought + (x + y);
  }

  lemma {:induction false} StartIsPart(thinking: bool)
    ensures AtPart(Start0(thinking))
  {
    NotMarkedEmpty();
    hide Marked;
  }

  /** What finishing adds: the report of tool markup in thinking, if there was any. */
  function Report(marked: bool): seq<Event> {
    if marked then [Notice(NOT_ALLOWED)] else []
  }

  lemma FinishQuiet(r: Stream)
    requires !r.active && !r.reported
    ensures var f, e := FlushTail(r), Finish(r);
            && e.events == f.events + Report(f.mark) && e.thought == f.thought && e.mark == f.mark
            && e.inThink == f.inThink && e.parser == (if f.mark then Initial else f.parser)
  {
    hide Show;
    assert FlushTail(r).events + [] == FlushTail(r).events;
  }

  /** A text without opening forms, with any tags, in any chunking: every thinking byte is shown
      grey and no other byte is, the thinking bytes are what the guard has read as thinking, it
      reports exactly if they hold a tool mark, and nothing may run. */
  lemma {:induction false} QuietText(thinking: bool, first: string, parts: seq<Part>, chunks: seq<string>)
    requires Untagged(first, parts) && Quiet(false, first, parts) && Flatten(chunks) == Spelled(first, parts)
    ensures var r := StreamText(StreamChunks(Split(Start0(thinking), []), chunks), [], true).s;
            && r.events == Look(thinking, false, first, parts) + Report(Marked(Thought(thinking, first, parts)))
            && r.thought == Thought(thinking, first, parts) && r.inThink == EndsThinking(thinking, parts)
            && (r.mark <==> Marked(Thought(thinking, first, parts)))
            && !Executes(r) && r.parser == Initial
  {
    hide Run, Untagged, Quiet, Look, Thought, Marked, Finish, FlushTail, FormMatch, FormComplete;
    var s := Start0(thinking);
    StartIsPart(thinking);
    StreamChunkIndependence(Split(s, []), chunks);
    var r := ReadParts(s, first, parts, []);
    assert Spelled(first, parts) + [] == Spelled(first, parts) == [] + Flatten(chunks);
    RunEmpty(AGENT, r, true);
    NotReported(s, first, parts, r);
    FinishQuiet(r);
    assert [] + Look(thinking, false, first, parts) == Look(thinking, false, first, parts);
    assert [] + Thought(thinking, first, parts) == Thought(thinking, first, parts);
  }

  lemma NotReported(s: Stream, first: string, parts: seq<Part>, r: Stream)
    requires BehindParts(s, first, parts, FlushTail(r))
    ensures r.reported == s.reported
  {
    hide Look, Thought, MarkExact, Show;
  }

  // ---------- a stanza outside thinking ----------

  /** The parser of a stanza whose bytes so far are `body`. */
  function StanzaParser(body: string): (q: ValidParser) {
    Parse(Begin(Initial).Append(body))
  }

  /** The bytes up to, but without, the last one leave the parser unfinished. */
  ghost predicate NotEarlier(body: string) {
    forall i :: 0 <= i < |body| ==> !StanzaParser(body[..i]).Finished()
  }

  /** Any text without opening forms that ends outside thinking, an opening form and the bytes of a
      stanza up to where it ends, if it does, in any chunking: all is shown as it should be, and
      the message ends with the parser of those bytes, unless the thinking bytes hold a tool mark;
      then it is reported and its stanza forgotten. */
  lemma {:induction false} StanzaAfterText(thinking: bool, first: string, parts: seq<Part>, form: string, body: string,
                                           chunks: seq<string>)
    requires Untagged(first, parts) && Quiet(false, first, parts) && !EndsThinking(thinking, parts)
    requires FormComplete(form) && NotEarlier(body)
    requires Flatten(chunks) == Spelled(first, parts) + (form + body)
    ensures var r := StreamText(StreamChunks(Split(Start0(thinking), []), chunks), [], true).s;
            var thought := Thought(thinking, first, parts);
            && r.events == Look(thinking, false, first, parts) + Report(Marked(thought))
            && r.thought == thought && !r.active
            && r.parser == (if Marked(thought) then Initial else StanzaParser(body))
            && (r.mark <==> Marked(thought))
  {
    hide Run, Untagged, Quiet, Look, Thought, Marked, Finish, FlushTail, FormMatch, FormComplete;
    hide Parse, Begin, StanzaEnd, Spelled;
    var s := Start0(thinking);
    StartIsPart(thinking);
    StreamChunkIndependence(Split(s, []), chunks);
    FormIsOne(form);
    FormStarts(form);
    assert [] + Flatten(chunks) == Flatten(chunks);
    var r := ReadParts(s, first, parts, form + body);
    RunFormAfter(r, form, body);
    var f := FlushTail(r);
    var u := StartStanza(f);
    StartedFrom(f);
    var v := StanzaBytes(u, body, []);
    assert body + [] == body;
    if StanzaParser(body).Finished() { EndsPlain(u, StanzaParser(body)); }
    RunEmpty(AGENT, v, true);
    FinishStanza(v, u);
    assert [] + Look(thinking, false, first, parts) == Look(thinking, false, first, parts);
    assert [] + Thought(thinking, first, parts) == Thought(thinking, first, parts);
  }

  /** The stream behind the bytes of a stanza, ended or not. */
  lemma {:induction false} StanzaBytes(u: Stream, body: string, rest: string) returns (v: Stream)
    requires u.active && u.parser == Begin(Initial) && NotEarlier(body)
    requires StanzaParser(body).Finished() || rest == []
    ensures Run(AGENT, u, body + rest, true) == Run(AGENT, v, rest, true)
    ensures var p := StanzaParser(body); v == if p.Finished() then StanzaEnd(u, p) else u.(parser := p)
  {
    hide Run, Parse, StanzaEnd, Begin;
    FreshStart();
    var q := Begin(Initial);
    BeginLive();
    assert q.Append([]) == q && body[..|body|] == body;
    if StanzaParser(body).Finished() {
      v := StanzaEnd(u, StanzaParser(body));
      assert body != [];
      forall i | 0 <= i < |body| ensures !Parse(q.Append(body[..i])).Finished() {
        assert !StanzaParser(body[..i]).Finished();
      }
      RunStanza(u, q, body, rest);
    } else {
      v := u.(parser := StanzaParser(body));
      forall i | 0 <= i <= |body| ensures !Parse(q.Append(body[..i])).Finished() {
        assert i < |body| ==> !StanzaParser(body[..i]).Finished();
      }
      RunUnfinished(u, q, body);
      assert body + rest == body;
      RunEmpty(AGENT, v, true);
    }
  }

  lemma BeginLive()
    ensures Begin(Initial).phase == Structural && Begin(Initial).Valid()
  {
  }

  lemma EndsPlain(u: Stream, q: ValidParser)
    requires u.active && !u.ignored
    ensures StanzaEnd(u, q) == u.(parser := q, active := false)
  {
  }

  /** The end of a stream whose stanza began outside thinking. */
  lemma FinishStanza(v: Stream, u: Stream)
    requires u.active && !u.ignored && u.startTail == [] && !u.reported
    requires v == u.(parser := v.parser, active := v.active)
    ensures var e := Finish(v);
            && e.events == u.events + Report(u.mark) && e.thought == u.thought && e.mark == u.mark && !e.active
            && e.parser == if u.mark then Initial else v.parser
  {
    hide Show;
    assert u.events + [] == u.events;
  }

  /** With a printed stanza: the printed calls are ready to run if and only if the thinking bytes
      hold no tool mark. */
  lemma {:induction false} CallAfterText(thinking: bool, first: string, parts: seq<Part>, form: string, d: Stanza,
                                         chunks: seq<string>)
    requires Untagged(first, parts) && Quiet(false, first, parts) && !EndsThinking(thinking, parts)
    requires FormComplete(form) && StanzaOk(d)
    requires Flatten(chunks) == Spelled(first, parts) + (form + Print(d))
    ensures var r := StreamText(StreamChunks(Split(Start0(thinking), []), chunks), [], true).s;
            var thought := Thought(thinking, first, parts);
            && r.events == Look(thinking, false, first, parts) + Report(Marked(thought))
            && (Executes(r) <==> !Marked(thought))
            && (!Marked(thought) ==> r.parser.calls == Calls(d.calls))
  {
    hide Untagged, Quiet, Look, Thought, Marked, FormComplete, Print, StanzaOk, Parse, Begin, Spelled;
    hide StreamText, StreamChunks;
    PrintNotEarlier(d);
    RoundTrip(d, []);
    assert Print(d) + [] == Print(d);
    StanzaAfterText(thinking, first, parts, form, Print(d), chunks);
  }

  lemma {:induction false} PrintNotEarlier(d: Stanza)
    requires StanzaOk(d)
    ensures NotEarlier(Print(d))
  {
    hide Print, StanzaOk, Parse, Begin;
    forall i | 0 <= i < |Print(d)| ensures !StanzaParser(Print(d)[..i]).Finished() { NotFinishedEarly(d, i); }
  }

  lemma FormStarts(form: string)
    requires form == START || form == MISSING_BAR
    ensures form != [] && form[0] == '<'
  {
  }

  lemma StartedFrom(f: Stream)
    requires !f.inThink && f.parser == Initial && f.startTail == []
    ensures var u := StartStanza(f);
            && u.active && !u.ignored && u.parser == Begin(Initial) && u.events == f.events && u.thought == f.thought
            && u.mark == f.mark && u.reported == f.reported && u.inThink == f.inThink && u.startTail == []
  {
    hide Begin;
  }

  // ---------- a stanza in thinking ----------

  lemma {:induction false} InThinkingByte(s: Stream, form: string, k: nat) returns (t: Stream)
    requires FormComplete(form) && k < |form|
    requires !s.active && s.inThink && !s.gap && s.startTail == form[..k]
    ensures !t.active && t.inThink && !t.gap && t.events == s.events && t.parser == s.parser
    ensures t.reported == s.reported
    ensures AnyByte(s, form[k]) == if k + 1 == |form| then StartStanza(t) else t
    ensures k + 1 < |form| ==> t.startTail == form[..k + 1]
  {
    hide FormComplete, FormMatch, DetectByte, StartStanza, Note;
    FormByte(form, k);
    FormPrefix(form, 0);
    FormShape();
    NoteFrame(s, form[k]);
    t := Note(s, form[k]);
    if k + 1 < |form| { t := t.(startTail := form[..k + 1]); }
  }

  /** Either opening form, read in thinking, starts a stanza that is ignored. */
  lemma {:induction false} FormInThinking(s: Stream, form: string, k: nat, rest: string) returns (t: Stream)
    requires FormComplete(form) && k < |form|
    requires !s.active && s.inThink && !s.gap && s.startTail == form[..k]
    ensures Run(AGENT, s, form[k..] + rest, true) == Run(AGENT, StartStanza(t), rest, true)
    ensures t.inThink && t.events == s.events && t.parser == s.parser && t.reported == s.reported
    decreases |form| - k
  {
    hide At, FormComplete, FormMatch, DetectByte, StartStanza, AnyByte;
    var buf := form[k..] + rest;
    FormPrefix(form, 0);
    FormIsOne(form);
    FormShape();
    assert buf[0] == form[k] && buf[1..] == form[k + 1..] + rest;
    if k == 0 {
      FormNoTag(form, rest, buf);
    } else {
      NoTagHere(buf);
    }
    var u := InThinkingByte(s, form, k);
    if k + 1 == |form| {
      t := u;
      assert form[k + 1..] + rest == rest;
    } else {
      t := FormInThinking(u, form, k + 1, rest);
    }
  }

  /** Whatever the detector still held is released by the form's first byte. */
  lemma {:induction false} AngleInThinking(s: Stream)
    requires !s.active && s.inThink && !s.gap && FormMatch(s.startTail) && !FormComplete(s.startTail)
    ensures var u := AnyByte(s, '<');
            && !u.active && u.inThink && !u.gap && u.startTail == "<" && u.events == FlushTail(s).events
            && u.parser == s.parser && u.reported == s.reported
  {
    hide FormMatch, FormComplete, DetectByte, Show;
    FormShape();
    NoteFrame(s, '<');
    DetectCases(s.startTail, '<');
    hide Note;
    if s.startTail != [] {
      HoldsOneAngle(s.startTail);
      assert (s.startTail + ['<'])[..|s.startTail|] == s.startTail;
    } else {
      assert s.startTail + ['<'] == "<";
    }
  }

  lemma {:induction false} FormBehindHeld(s: Stream, form: string, rest: string) returns (t: Stream)
    requires FormComplete(form) && !s.active && s.inThink && !s.gap
    requires FormMatch(s.startTail) && !FormComplete(s.startTail)
    ensures Run(AGENT, s, form + rest, true) == Run(AGENT, StartStanza(t), rest, true)
    ensures t.inThink && t.events == FlushTail(s).events && t.parser == s.parser && t.reported == s.reported
  {
    hide FormMatch, FormComplete, StartStanza, At, AnyByte, FlushTail;
    FormIsOne(form);
    FormStarts(form);
    FormShape();
    FormNoTag(form, rest, form + rest);
    AngleInThinking(s);
    var u := AnyByte(s, '<');
    assert form[..1] == "<" && (form + rest)[1..] == form[1..] + rest;
    t := FormInThinking(u, form, 1, rest);
  }

  /** The flag stays up, and a message with the flag up is not run. */
  lemma {:induction false} MarkStays(s: Stream, buf: string, finish: bool)
    requires s.mark
    ensures Run(AGENT, s, buf, finish).s.mark
    decreases |buf|
  {
    hide At, AnyByte, Held;
    if buf != [] {
      if !s.active && At(buf, 0, OPEN) {
        AtInside(buf, 0, OPEN);
        MarkStays(OpenThink(s), buf[|OPEN|..], finish);
      } else if !s.active && At(buf, 0, CLOSE) {
        AtInside(buf, 0, CLOSE);
        MarkStays(CloseThink(s), buf[|CLOSE|..], finish);
      } else if !(!finish && !s.active && Held(buf)) {
        MarkStaysByte(s, buf[0]);
        MarkStays(AnyByte(s, buf[0]), buf[1..], finish);
      }
    }
  }

  lemma MarkStaysByte(s: Stream, c: char)
    requires s.mark
    ensures AnyByte(s, c).mark
  {
    hide DetectByte, Feed, Show;
  }

  lemma MarkedNeverRuns(s: Stream)
    requires s.mark
    ensures !Executes(Finish(s))
  {
    hide Show;
  }

  /** When the first opening form lies in thinking, nothing of the message is run, whatever
      follows. */
  lemma {:induction false} FormInThinkingNeverRuns(thinking: bool, first: string, parts: seq<Part>, form: string,
                                                   rest: string, chunks: seq<string>)
    requires Untagged(first, parts) && Quiet(false, first, parts) && EndsThinking(thinking, parts)
    requires FormComplete(form) && Flatten(chunks) == Spelled(first, parts) + (form + rest)
    ensures !Executes(StreamText(StreamChunks(Split(Start0(thinking), []), chunks), [], true).s)
  {
    hide Run, Untagged, Quiet, Look, Thought, Marked, Finish, FlushTail, FormMatch, FormComplete, Spelled, Executes;
    var s := Start0(thinking);
    StartIsPart(thinking);
    StreamChunkIndependence(Split(s, []), chunks);
    FormIsOne(form);
    FormStarts(form);
    assert [] + Flatten(chunks) == Flatten(chunks);
    var r := ReadParts(s, first, parts, form + rest);
    var t := FormBehindHeld(r, form, rest);
    MarkStays(StartStanza(t), rest, true);
    MarkedNeverRuns(Run(AGENT, StartStanza(t), rest, true).s);
  }

  /** A stanza there that ends is dropped as a whole, with a notice, and thinking goes on behind
      it; one that does not end is dropped when the text ends. */
  lemma {:induction false} StanzaInThinkingDropped(s: Stream, form: string, body: string, rest: string)
    returns (t: Stream)
    requires FormComplete(form) && !s.active && s.inThink && !s.gap && s.parser == Initial && !s.reported
    requires FormMatch(s.startTail) && !FormComplete(s.startTail) && NotEarlier(body)
    requires StanzaParser(body).Finished() || rest == []
    ensures Run(AGENT, s, form + (body + rest), true) == Run(AGENT, t, rest, true)
    ensures t.inThink && t.mark && t.startTail == []
    ensures StanzaParser(body).Finished() ==>
              && !t.active && !t.ignored && t.reported && t.parser == Initial
              && t.events == FlushTail(s).events
                             + [Notice(if StanzaParser(body).phase == Done then NOT_ALLOWED else MALFORMED)]
    ensures !StanzaParser(body).Finished() ==>
              && Finish(t).events == FlushTail(s).events + [Notice(UNFINISHED)]
              && !Finish(t).active && Finish(t).parser == Initial
  {
    hide Run, Parse, FlushTail, FormMatch, FormComplete, Begin;
    var u := FormBehindHeld(s, form, body + rest);
    IgnoredStart(u);
    t := StanzaBytes(StartStanza(u), body, rest);
    if !StanzaParser(body).Finished() {
      UnfinishedDropped(t);
    }
  }

  lemma IgnoredStart(u: Stream)
    requires u.inThink && u.parser == Initial && !u.reported
    ensures var s := StartStanza(u);
            s.active && s.ignored && s.mark && s.inThink && s.parser == Begin(Initial) && s.events == u.events
            && s.startTail == [] && !s.reported
  {
    hide Begin;
  }

  lemma UnfinishedDropped(t: Stream)
    requires t.active && t.ignored && t.startTail == []
    ensures Finish(t).events == t.events + [Notice(UNFINISHED)] && !Finish(t).active && Finish(t).parser == Initial
  {
    hide Show;
  }

  // ---------- every text ----------

  /** Safety, from the text alone: a message may run only if the thinking bytes of every front
      part of it that holds no opening form hold no tool mark. */
  lemma {:induction false} OnlyUnmarkedThinkingRuns(thinking: bool, first: string, parts: seq<Part>, rest: string,
                                                    chunks: seq<string>)
    requires Untagged(first, parts) && Quiet(false, first, parts) && (rest == [] || rest[0] == '<')
    requires Flatten(chunks) == Spelled(first, parts) + rest
    ensures Executes(StreamText(StreamChunks(Split(Start0(thinking), []), chunks), [], true).s)
            ==> !Marked(Thought(thinking, first, parts))
  {
    hide Run, Untagged, Quiet, Look, Thought, Marked, Finish, FlushTail, FormMatch, FormComplete, Spelled, Executes;
    var s := Start0(thinking);
    StartIsPart(thinking);
    StreamChunkIndependence(Split(s, []), chunks);
    assert [] + Flatten(chunks) == Flatten(chunks);
    var r := ReadParts(s, first, parts, rest);
    assert [] + Thought(thinking, first, parts) == Thought(thinking, first, parts);
    if Marked(Thought(thinking, first, parts)) {
      SameMark(r);
      MarkStays(r, rest, true);
      MarkedNeverRuns(Run(AGENT, r, rest, true).s);
    }
  }

  lemma SameMark(s: Stream)
    ensures FlushTail(s).mark == s.mark
  {
    hide Show;
  }
}
