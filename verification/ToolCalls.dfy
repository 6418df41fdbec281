/** What one assistant message asks for: the tool state after each sampled token, and after the
    message the calls that may run. */
module ToolCalls {
  import opened Text
  import opened TagSplitter
  import opened Dsml
  import opened Detector
  import opened AgentStream
  import opened AgentStreamProofs

  datatype ToolState = NoTool | ToolDone | ToolError

  function ToolOf(st: Split<Stream>): ToolState {
    if st.s.parser.phase == Done then ToolDone
    else if st.s.parser.phase == Error then ToolError
    else NoTool
  }

  /** A whole message read in one go. */
  function Whole(thinking: bool, text: string): Stream {
    StreamText(Split(Start0(thinking), []), text, true).s
  }

  // ---------- a stanza under way is not finished ----------

  ghost predicate ActiveInv(s: Stream) {
    s.active ==> !s.parser.Finished()
  }

  lemma {:induction false} RunKeepsActive(s: Stream, buf: string, finish: bool)
    requires ActiveInv(s)
    ensures ActiveInv(Run(AGENT, s, buf, finish).s)
    decreases |buf|
  {
    hide At, AnyByte, Held;
    if buf != [] {
      if !s.active && At(buf, 0, OPEN) {
        AtInside(buf, 0, OPEN);
        RunKeepsActive(OpenThink(s), buf[|OPEN|..], finish);
      } else if !s.active && At(buf, 0, CLOSE) {
        AtInside(buf, 0, CLOSE);
        RunKeepsActive(CloseThink(s), buf[|CLOSE|..], finish);
      } else if !(!finish && !s.active && Held(buf)) {
        ByteKeepsActive(s, buf[0]);
        RunKeepsActive(AnyByte(s, buf[0]), buf[1..], finish);
      }
    }
  }

  lemma ByteKeepsActive(s: Stream, c: char)
    requires ActiveInv(s)
    ensures ActiveInv(AnyByte(s, c))
  {
    hide Note, Feed, DetectByte, Show;
    NoteFrame(s, c);
  }

  // ---------- finishing adds nothing to a complete call ----------

  lemma {:induction false} PendingIsHeld<S>(h: Hooks<S>, s: S, buf: string)
    ensures var r := Run(h, s, buf, false);
            r.pending == [] || (Held(r.pending) && !h.raw(r.s))
    decreases |buf|
  {
    hide At, Held;
    if buf != [] {
      if !h.raw(s) && At(buf, 0, OPEN) {
        AtInside(buf, 0, OPEN);
        PendingIsHeld(h, h.open(s), buf[|OPEN|..]);
      } else if !h.raw(s) && At(buf, 0, CLOSE) {
        AtInside(buf, 0, CLOSE);
        PendingIsHeld(h, h.close(s), buf[|CLOSE|..]);
      } else if !(!h.raw(s) && Held(buf)) {
        PendingIsHeld(h, h.byte(s, buf[0]), buf[1..]);
      }
    }
  }

  lemma HeldHasNoAngle(buf: string)
    requires Held(buf)
    ensures '>' !in buf
  {
    var tag := if Partial(buf, OPEN) then OPEN else CLOSE;
    AtChars(tag, 0, buf);
    assert forall k :: 0 <= k < |tag| - 1 ==> tag[k] != '>';
    assert forall k :: 0 <= k < |buf| ==> buf[k] == tag[0 + k];
  }

  lemma ByteNoStanza(s: Stream, c: char)
    requires !s.active && c != '>'
    ensures !AnyByte(s, c).active && AnyByte(s, c).parser == s.parser
  {
    hide Note, Show, FormMatch;
    NoteFrame(s, c);
    var t := s.startTail + [c];
    assert t[|t| - 1] == c;
    assert START[|START| - 1] == '>' && MISSING_BAR[|MISSING_BAR| - 1] == '>';
  }

  /** Bytes without a '>' complete neither a tag nor an opening form. */
  lemma {:induction false} RunNoAngle(s: Stream, buf: string)
    requires !s.active && '>' !in buf
    ensures var r := Run(AGENT, s, buf, true); !r.s.active && r.s.parser == s.parser
    decreases |buf|
  {
    hide At, AnyByte;
    if buf != [] {
      NoTagWithout(buf, OPEN);
      NoTagWithout(buf, CLOSE);
      ByteNoStanza(s, buf[0]);
      RunNoAngle(AnyByte(s, buf[0]), buf[1..]);
    }
  }

  lemma NoTagWithout(buf: string, tag: string)
    requires '>' !in buf && '>' in tag
    ensures !At(buf, 0, tag)
  {
    var k :| 0 <= k < |tag| && tag[k] == '>';
    if |tag| <= |buf| {
      assert buf[k] in buf;
      NotAt(buf, 0, tag, k);
    }
  }

  /** After a message in any pieces: what the worker sees at the end is the whole message read in
      one go; and if the last piece completed a call that is not dropped for thinking, that call
      and nothing else is what may run. */
  lemma {:induction false} MessageEnds(thinking: bool, text: string)
    ensures var st := Process(AGENT, Split(Start0(thinking), []), text, false);
            && StreamText(st, [], true).s == Whole(thinking, text)
            && (ToolOf(st) == ToolDone && !Whole(thinking, text).mark ==>
                  Executes(Whole(thinking, text)) && Whole(thinking, text).parser.calls == st.s.parser.calls)
  {
    hide Run, DropStanza;
    var s0 := Start0(thinking);
    var st := Process(AGENT, Split(s0, []), text, false);
    RunResume(AGENT, s0, [] + text, [], true);
    assert [] + text + [] == [] + text && st.pending + [] == st.pending;
    RunKeepsActive(s0, [] + text, false);
    PendingIsHeld(AGENT, s0, [] + text);
    if ToolOf(st) == ToolDone && !Whole(thinking, text).mark {
      if st.pending != [] { HeldHasNoAngle(st.pending); }
      RunNoAngle(st.s, st.pending);
      FinishKeeps(Run(AGENT, st.s, st.pending, true).s);
    }
  }

  lemma FinishKeeps(s: Stream)
    requires !s.active
    ensures !Finish(s).mark ==> Finish(s).parser == s.parser
  {
    hide Show;
  }

  /** Reading one more piece is reading the longer text. */
  lemma {:induction false} OneMorePiece(st: Split<Stream>, a: string, b: string)
    ensures StreamText(StreamText(st, a, false), b, false) == StreamText(st, a + b, false)
  {
    hide Run, Finish;
    RunResume(AGENT, st.s, st.pending + a, b, false);
    assert st.pending + a + b == st.pending + (a + b);
  }

  lemma {:induction false} NothingRead(thinking: bool)
    ensures StreamText(Split(Start0(thinking), []), [], false) == Split(Start0(thinking), [])
    ensures ToolOf(Split(Start0(thinking), [])) == NoTool
  {
    hide Finish;
    RunEmpty(AGENT, Start0(thinking), false);
  }

  /** An executable message holds no tool markup in its thinking. */
  lemma {:induction false} WholeUnmarked(thinking: bool, text: string)
    ensures Executes(Whole(thinking, text)) ==> !Marked(Whole(thinking, text).thought)
  {
    hide StreamText, Marked, Executes;
    NoCallFromThinking(thinking, [text]);
    NothingReadIn(thinking, text);
  }

  lemma {:induction false} NothingReadIn(thinking: bool, text: string)
    ensures StreamText(StreamChunks(Split(Start0(thinking), []), [text]), [], true)
         == StreamText(Split(Start0(thinking), []), text, true)
  {
    hide StreamText;
    StreamChunkIndependence(Split(Start0(thinking), []), [text]);
    assert Flatten([text]) == text + Flatten<char>([]);
    assert text + [] == text;
  }
}
