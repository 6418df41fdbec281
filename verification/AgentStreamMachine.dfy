/** The stream renderer as the agent runs it: a struct updated byte by byte, holding a reference
    to the parser; every method is proved equal to its function in module AgentStream. */
module AgentStreamMachine {
  import opened Text
  import opened TagSplitter
  import opened Dsml
  import opened DsmlMachine
  import opened Detector
  import opened AgentStream
  import opened AgentStreamProofs

  class StreamRenderer {
    const parser: StreamParser
    var inThink: bool
    var active: bool
    var ignored: bool
    var startTail: string
    var thinkTail: string
    var mark: bool
    var reported: bool
    var gap: bool
    var pending: string
    ghost var thought: string
    var events: seq<Event>

    ghost predicate Valid()
      reads this, parser
    {
      parser.St().Valid()
    }

    ghost function St(): Stream
      requires Valid()
      reads this, parser
    {
      Stream(inThink, active, ignored, startTail, thinkTail, mark, reported, gap, parser.St(), events, thought)
    }

    constructor (parser: StreamParser, inThink: bool)
      requires parser.St() == Initial
      ensures Valid() && this.parser == parser
      ensures St() == Start0(inThink) && pending == []
    {
      this.parser, this.inThink := parser, inThink;
      active, ignored, startTail, thinkTail := false, false, [], [];
      mark, reported, gap, pending, thought, events := false, false, false, [], [], [];
    }

    method WriteBytes(t: string)
      requires Valid()
      modifies `gap, `events
      ensures Valid() && St() == ShowBytes(old(St()), t)
    {
      gap := false;
      var i := 0;
      while i < |t|
        invariant 0 <= i <= |t| && !gap && events == old(events) + Show(t[..i], inThink)
      {
        assert Show(t[..i + 1], inThink) == Show(t[..i], inThink) + [Shown(t[i], inThink)];
        events := events + [Shown(t[i], inThink)];
        i := i + 1;
      }
      assert t[..|t|] == t;
    }

    method FlushStartTail()
      requires Valid()
      modifies `gap, `events, `startTail
      ensures Valid() && St() == FlushTail(old(St()))
    {
      if startTail == [] { return; }
      WriteBytes(startTail);
      startTail := [];
    }

    method NoteThinkingByte(c: char)
      requires Valid()
      modifies `thought, `thinkTail, `mark
      ensures Valid() && St() == Note(old(St()), c)
    {
      if !inThink { return; }
      thought := thought + [c];
      if mark { return; }
      if |thinkTail| == THINK_TAIL_SIZE { thinkTail := thinkTail[1..]; }
      thinkTail := thinkTail + [c];
      mark := EndsWith(thinkTail, FULL_MARK) || EndsWith(thinkTail, ASCII_MARK);
    }

    method StartDsml()
      requires Valid()
      modifies this, parser
      ensures Valid() && St() == StartStanza(old(St())) && pending == old(pending)
    {
      active, ignored := true, inThink;
      if inThink { mark := true; }
      startTail, gap := [], false;
      parser.Start();
    }

    method WriteNormal(c: char)
      requires Valid()
      modifies this, parser
      ensures Valid() && St() == NormalByte(old(St()), c) && pending == old(pending)
    {
      hide FormMatch, FormComplete, Begin, Note, Show, StartStanza, DetectByte;
      NoteThinkingByte(c);
      if gap && IsSpace(c) { return; }
      if startTail != [] || c == '<' {
        DetectCases(startTail, c);
        startTail := startTail + [c];
        if FormMatch(startTail) || FormComplete(startTail) {
          if FormComplete(startTail) {
            SameStanza(St(), startTail[..|startTail| - 1]);
            StartDsml();
          }
          return;
        }
        if |startTail| > 1 && c == '<' {
          WriteBytes(startTail[..|startTail| - 1]);
          startTail := "<";
          return;
        }
        FlushStartTail();
        return;
      }
      WriteBytes([c]);
    }

    method FinishIgnored(msg: string)
      requires Valid()
      modifies this, parser
      ensures Valid() && St() == DropStanza(old(St()), msg) && pending == old(pending)
    {
      mark, reported := true, true;
      events := events + [Notice(msg)];
      parser.Reset();
      active, ignored := false, false;
    }

    method FeedStanza(c: char)
      requires Valid()
      modifies this, parser
      ensures Valid() && St() == StanzaByte(old(St()), c) && pending == old(pending)
    {
      hide Feed;
      parser.FeedChunk([c]);
      if parser.phase == Done {
        if ignored {
          FinishIgnored(NOT_ALLOWED);
        } else {
          active := false;
        }
      } else if parser.phase == Error {
        if ignored {
          FinishIgnored(MALFORMED);
        } else {
          active := false;
        }
      }
    }

    method FinishStream()
      requires Valid()
      modifies this, parser
      ensures Valid() && St() == Finish(old(St())) && pending == old(pending)
    {
      hide FlushTail, DropStanza;
      FlushStartTail();
      gap := false;
      if active {
        if ignored {
          FinishIgnored(UNFINISHED);
        } else {
          active := false;
        }
      }
      if mark && !reported {
        FinishIgnored(NOT_ALLOWED);
      }
    }

    /** Take a whole tag off the front of `cur`; zero bytes when there is none. */
    method TakeTag(cur: string) returns (n: nat)
      requires Valid()
      modifies this
      ensures Valid() && n <= |cur| && pending == old(pending)
      ensures n == 0 ==> St() == old(St()) && (active || (!At(cur, 0, OPEN) && !At(cur, 0, CLOSE)))
      ensures forall f :: n > 0 ==> Run(AGENT, old(St()), cur, f) == Run(AGENT, St(), cur[n..], f)
    {
      hide At, FlushTail;
      n := 0;
      if active { return; }
      if At(cur, 0, OPEN) {
        AtInside(cur, 0, OPEN);
        FlushStartTail();
        gap, inThink := false, true;
        n := |OPEN|;
      } else if At(cur, 0, CLOSE) {
        AtInside(cur, 0, CLOSE);
        FlushStartTail();
        inThink, gap := false, true;
        events := events + [Gap];
        n := |CLOSE|;
      }
    }

    method TakeByte(c: char)
      requires Valid()
      modifies this, parser
      ensures Valid() && St() == AnyByte(old(St()), c) && pending == old(pending)
    {
      hide StanzaByte, NormalByte;
      if active {
        FeedStanza(c);
      } else {
        WriteNormal(c);
      }
    }

    /** One chunk of sampled text, and on the last call the end of the stream. */
    method StreamChunk(text: string, finish: bool)
      requires Valid()
      modifies this, parser
      ensures Valid() && Split(St(), pending) == StreamText(old(Split(St(), pending)), text, finish)
    {
      hide At, Finish, AnyByte, Run, OpenThink, CloseThink, Partial;
      var buf := pending + text;
      pending := [];
      var i := 0;
      while i < |buf|
        invariant 0 <= i <= |buf| && pending == [] && Valid()
        invariant Run(AGENT, St(), buf[i..], finish) == Run(AGENT, old(St()), buf, finish)
      {
        var cur := buf[i..];
        assert cur[1..] == buf[i + 1..];
        var n := TakeTag(cur);
        if n > 0 {
          assert cur[n..] == buf[i + n..];
          i := i + n;
          continue;
        }
        if !finish && !active && (Partial(cur, OPEN) || Partial(cur, CLOSE)) {
          HeldFits(cur);
          RunHeld(AGENT, St(), cur);
          if |cur| < PENDING_SIZE { pending := cur; }
          return;
        }
        RunByte(AGENT, St(), cur, finish);
        TakeByte(cur[0]);
        i := i + 1;
      }
      RunEmpty(AGENT, St(), finish);
      if finish { FinishStream(); }
    }
  }

  /** What is held always fits the fixed pending buffer. */
  lemma HeldFits(cur: string)
    requires Held(cur)
    ensures |cur| < PENDING_SIZE
  {
  }

  lemma SameStanza(s: Stream, tail: string)
    ensures StartStanza(s.(startTail := tail)) == StartStanza(s)
  {
  }
}
