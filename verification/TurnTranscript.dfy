/** What a turn leaves in the transcript, message by message, stated over the transcript alone. */
module TurnTranscript {
  import opened Basics
  import opened Options
  import opened ToolCalls
  import opened TurnLoop
  import AgentStream
  import AgentStreamProofs
  import Dsml
  import TagSplitter

  // How a round ended.
  datatype Ending =
    | NoRoom          // the compaction in front of it failed, and nothing was appended
    | Broken          // the sync failed, or an evaluation: the message stops short
    | Plain           // the message asks for nothing
    | Queued          // it asks for something, but a queued prompt is waiting
    | Lost            // its result could not be delivered
    | Answered(text: string)

  // One round: what a compaction in front of it rebuilt, the message that was sampled, and what
  // a compaction rebuilt that made room for its result.
  datatype RoundLog = RoundLog(before: Option<Tokens>, message: Tokens, between: Option<Tokens>, ending: Ending)

  function Front(t: Tokens, rebuilt: Option<Tokens>): Tokens {
    if rebuilt.Some? then rebuilt.value else t
  }

  /** The transcript behind a round that found `t`. */
  function Replay1(e: Engine, r: Round, t: Tokens, l: RoundLog): Tokens {
    var spoken := Front(t, l.before) + e.assistantPrefix + l.message;
    match l.ending
    case NoRoom => t
    case Broken => spoken
    case Plain => spoken + [e.eos]
    case Queued => spoken + [e.eos] + e.tool(r.stopped)
    case Lost => Front(spoken + [e.eos], l.between)
    case Answered(text) => Front(spoken + [e.eos], l.between) + e.tool(text)
  }

  function Replay(e: Engine, rounds: seq<Round>, t: Tokens, log: seq<RoundLog>): Tokens
    requires |log| <= |rounds|
    decreases |log|
  {
    if log == [] then t else Replay(e, rounds[1..], Replay1(e, rounds[0], t, log[0]), log[1..])
  }

  /** What a compaction of `t` may rebuild: nothing new when `t` holds no more than the system
      prompt, else system prompt, summary, tail and bash update. */
  ghost predicate Rebuilds(e: Engine, t: Tokens, c: CompactScript, x: Tokens) {
    if |t| <= |e.sys| then x == t
    else exists text: string, n: nat, k: nat :: RebuiltAs(e, t, c, x, text, n, k)
  }

  /** When a compaction of `t` succeeds: there is nothing to do, or there is room to ask for a
      summary, the engine accepts the request and gives a summary, and what that builds fits. */
  ghost predicate CanCompact(e: Engine, t: Tokens, c: CompactScript) {
    || |t| <= |e.sys|
    || (&& e.ctx - |t + c.ask| - 1 >= COMPACT_SUMMARY_MIN_ROOM && c.sync == SyncOk && c.rebuild == SyncOk
        && exists text: string, k: nat :: Summarized(e, t, c, text, k))
  }

  ghost predicate Summarized(e: Engine, t: Tokens, c: CompactScript, text: string, k: nat)
    requires |e.sys| <= |t|
  {
    var room := Min(e.ctx - |t + c.ask| - 1, COMPACT_SUMMARY_MAX_TOKENS);
    && room >= 0 && SummaryIs(e, c.steps, room, k, text) && text != []
    && 0 < |e.sys + e.system(SummaryMessage(text)) + t[TailStart(e, t)..]| < e.ctx
  }

  /** What a message asks for, from its whole text. */
  function Asks(whole: AgentStream.Stream): ToolState {
    if whole.mark then ToolError
    else if whole.parser.phase == Dsml.Done then ToolDone
    else if whole.parser.phase == Dsml.Error then ToolError
    else NoTool
  }

  /** The result of a message that asks for something: what its calls return, or the complaint
      about its stanza. */
  function ResultOf(r: Round, whole: AgentStream.Stream): string {
    if Asks(whole) == ToolDone then r.result(whole.parser.calls)
    else r.malformed(if whole.mark then AgentStream.NOT_ALLOWED else whole.parser.error)
  }

  /** The message is made of sampled tokens, and complete ones stop where they should. */
  ghost predicate MessageOk(e: Engine, r: Round, spokenTo: Tokens, l: RoundLog) {
    && l.message <= TokensOf(r.samples)
    && (!l.ending.NoRoom? && !l.ending.Broken? ==>
          var k := |l.message|;
          var budget := MaxTokens(e, |spokenTo + e.assistantPrefix|);
          && (forall i :: 0 <= i < k ==> r.samples[i].token != e.eos && r.samples[i].evalOk)
          && (Asks(Whole(e.thinking, MessageText(e, l.message))) != NoTool
              || k >= budget || k == |r.samples| || r.samples[k].token == e.eos))
  }

  /** A round that found the transcript `t`. */
  ghost predicate RoundOk(e: Engine, r: Round, first: bool, t: Tokens, l: RoundLog) {
    var t0 := Front(t, l.before);
    var said := t0 + e.assistantPrefix + l.message + [e.eos];
    var whole := Whole(e.thinking, MessageText(e, l.message));
    var result := ResultOf(r, whole);
    var fits := |said + e.tool(result)| + TOOL_RESULT_RESERVE_TOKENS < e.ctx;
    && (l.before.Some? <==> !first && ShouldCompact(e, |t|) && !l.ending.NoRoom?)
    && (l.before.Some? ==> Rebuilds(e, t, r.compact, l.before.value) && CanCompact(e, t, r.compact))
    && (l.ending.NoRoom? ==> !first && ShouldCompact(e, |t|) && !CanCompact(e, t, r.compact))
    && MessageOk(e, r, t0, l)
    && (l.between.Some? ==> !fits && Rebuilds(e, said, r.makeRoom, l.between.value) && CanCompact(e, said, r.makeRoom))
    && (l.ending.Plain? ==> Asks(whole) == NoTool)
    && (l.ending.Queued? ==> Asks(whole) != NoTool && r.queued)
    && (l.ending.Answered? || l.ending.Lost? ==>
          && Asks(whole) != NoTool && !r.queued
          && (l.between.None? ==> if l.ending.Answered? then fits && l.ending.text == result
                                  else !fits && !CanCompact(e, said, r.makeRoom))
          && (l.between.Some? ==>
                var t1 := l.between.value;
                if |t1 + e.tool(result)| + TOOL_RESULT_RESERVE_TOKENS < e.ctx then l.ending == Answered(result)
                else if |t1 + e.tool(r.tooLarge)| + TOOL_ERROR_RESERVE_TOKENS < e.ctx
                then l.ending == Answered(r.tooLarge)
                else l.ending == Lost))
  }

  /** The rounds of a turn that found `t`: each goes on from where the one before left the
      transcript, and only an answered one is followed by another. */
  ghost predicate RoundsOk(e: Engine, rounds: seq<Round>, first: bool, t: Tokens, log: seq<RoundLog>)
    decreases |log|
  {
    && |log| <= |rounds|
    && (log == [] ==> rounds == [])
    && (log != [] ==>
          && RoundOk(e, rounds[0], first, t, log[0])
          && (if log[0].ending.Answered?
              then RoundsOk(e, rounds[1..], false, Replay1(e, rounds[0], t, log[0]), log[1..])
              else |log| == 1))
  }

  function Outcome(log: seq<RoundLog>): TurnResult {
    if log == [] then Unfinished
    else match log[|log| - 1].ending
      case NoRoom => Failed
      case Broken => Failed
      case Lost => Failed
      case Plain => Completed
      case Queued => Completed
      case Answered(_) => Unfinished
  }

  // ---------- compaction, on the transcript ----------

  lemma {:induction false} SummarizeTranscript(e: Engine, w: Worker, steps: seq<SummaryStep>, room: nat, text: string)
    ensures Summarize(e, w, steps, room, text).w.transcript == w.transcript
    decreases |steps|
  {
    if room != 0 && steps != [] && steps[0].Propose? && !Stops(e, steps[0].token) && steps[0].evalOk {
      SummarizeTranscript(e, Eval(w, steps[0].token, true).0, steps[1..], room - 1, text + e.text(steps[0].token));
    }
  }

  /** A summary of `k` tokens is what the loop finds. */
  lemma {:induction false} SummaryFound(e: Engine, w: Worker, steps: seq<SummaryStep>, room: nat,
                                        before: string, k: nat)
    requires k <= |steps| && k <= room
    requires forall i :: 0 <= i < k ==> steps[i].Propose? && steps[i].evalOk && !Stops(e, steps[i].token)
    requires k == room || (k < |steps| && steps[k].Propose? && Stops(e, steps[k].token))
    ensures var s := Summarize(e, w, steps, room, before);
            var spoken := before + Spoken(e, steps[..k]);
            s.Text? && s.text == LessAngle(spoken, k < room && steps[k].token == e.dsml && e.dsml != e.eos)
    decreases k
  {
    CutIsDrop(before);
    hide LessAngle, DropLt;
    if k == 0 {
      assert before + Spoken(e, steps[..0]) == before;
    } else {
      var t := steps[0].token;
      SummaryFound(e, Eval(w, t, true).0, steps[1..], room - 1, before + e.text(t), k - 1);
      assert steps[..k] == [steps[0]] + steps[1..][..k - 1];
      assert steps[..k][1..] == steps[1..][..k - 1];
      assert before + e.text(t) + Spoken(e, steps[1..][..k - 1]) == before + Spoken(e, steps[..k]);
    }
  }

  lemma SummaryFoundAs(e: Engine, w: Worker, steps: seq<SummaryStep>, room: nat, k: nat, text: string)
    requires SummaryIs(e, steps, room, k, text)
    ensures Summarize(e, w, steps, room, []).Text? && Summarize(e, w, steps, room, []).text == text
  {
    hide Summarize;
    SummaryFound(e, w, steps, room, [], k);
    assert [] + Spoken(e, steps[..k]) == Spoken(e, steps[..k]);
  }

  lemma {:induction false} CompactSucceeds(e: Engine, w: Worker, c: CompactScript)
    ensures Compact(e, w, c).1 <==> CanCompact(e, w.transcript, c)
  {
    hide Summarize, SummaryMessage, TailStart, SummaryIs;
    var prompt := w.transcript + c.ask;
    var room := e.ctx - |prompt| - 1;
    if |w.transcript| > |e.sys| && room >= COMPACT_SUMMARY_MIN_ROOM && c.sync == SyncOk {
      var max := Min(room, COMPACT_SUMMARY_MAX_TOKENS);
      var w1 := Sync(e, w, prompt, c.sync, false).0;
      var s := Summarize(e, w1, c.steps, max, []);
      if s.Text? {
        var k := SummaryOf(e, w1, c.steps, max);
        if Compact(e, w, c).1 { assert Summarized(e, w.transcript, c, s.text, k); }
      }
      forall text: string, k: nat | Summarized(e, w.transcript, c, text, k) ensures s.Text? && s.text == text {
        SummaryFoundAs(e, w1, c.steps, max, k, text);
      }
    }
  }

  lemma {:induction false} CompactTranscript(e: Engine, w: Worker, c: CompactScript)
    ensures var (x, ok) := Compact(e, w, c);
            if ok then Rebuilds(e, w.transcript, c, x.transcript) && CanCompact(e, w.transcript, c)
            else x.transcript == w.transcript && !CanCompact(e, w.transcript, c)
  {
    CompactSucceeds(e, w, c);
    hide CanCompact;
    hide Summarize, SummaryMessage, TailStart, SummaryIs;
    var prompt := w.transcript + c.ask;
    var room := e.ctx - |prompt| - 1;
    if |w.transcript| > |e.sys| && room >= COMPACT_SUMMARY_MIN_ROOM {
      var max := Min(room, COMPACT_SUMMARY_MAX_TOKENS);
      var (w1, ok1) := Sync(e, w, prompt, c.sync, false);
      if ok1 {
        SummarizeTranscript(e, w1, c.steps, max, []);
        var s := Summarize(e, w1, c.steps, max, []);
        if Compact(e, w, c).1 {
          var k := SummaryOf(e, w1, c.steps, max);
          var n := TailStart(e, w.transcript);
          TailInBudget(e, w.transcript);
          var rebuilt := e.sys + e.system(SummaryMessage(s.text)) + w.transcript[n..];
          assert rebuilt == Compacted(e, w.transcript, s.text);
          assert rebuilt + [] == rebuilt;
          assert RebuiltAs(e, w.transcript, c, Compact(e, w, c).0.transcript, s.text, n, k);
        }
      }
    }
  }

  // ---------- a message, from its text ----------

  /** Finishing a stream without a '>' to come does not change the phase, unless it reports tool
      markup in thinking. */
  lemma {:induction false} PhaseAtEnd(thinking: bool, text: string)
    ensures var st := TagSplitter.Process(AgentStream.AGENT, TagSplitter.Split(AgentStream.Start0(thinking), []),
                                          text, false);
            !Whole(thinking, text).mark ==> Whole(thinking, text).parser.phase == st.s.parser.phase
  {
    hide TagSplitter.Run, AgentStream.DropStanza;
    var s0 := AgentStream.Start0(thinking);
    var st := TagSplitter.Process(AgentStream.AGENT, TagSplitter.Split(s0, []), text, false);
    TagSplitter.RunResume(AgentStream.AGENT, s0, [] + text, [], true);
    assert [] + text + [] == [] + text && st.pending + [] == st.pending;
    PendingIsHeld(AgentStream.AGENT, s0, [] + text);
    if st.pending != [] {
      HeldHasNoAngle(st.pending);
      RunNoAngle(st.s, st.pending);
    } else {
      TagSplitter.RunEmpty(AgentStream.AGENT, st.s, true);
    }
    FinishKeepsPhase(TagSplitter.Run(AgentStream.AGENT, st.s, st.pending, true).s);
  }

  lemma FinishKeepsPhase(s: AgentStream.Stream)
    ensures !AgentStream.Finish(s).mark ==> AgentStream.Finish(s).parser == s.parser
  {
    hide AgentStream.Show;
  }

  lemma {:induction false} AsksIsTool(e: Engine, message: Tokens)
    ensures var whole := Whole(e.thinking, MessageText(e, message));
            Asks(whole) == if whole.mark then ToolError else ToolOf(StreamAfter(e, Fresh(e), message))
  {
    hide Whole, AgentStream.StreamText;
    PhaseAtEnd(e.thinking, MessageText(e, message));
    StreamIsProcess(e, message);
  }

  lemma StreamIsProcess(e: Engine, message: Tokens)
    ensures StreamAfter(e, Fresh(e), message)
         == TagSplitter.Process(AgentStream.AGENT, TagSplitter.Split(AgentStream.Start0(e.thinking), []),
                                MessageText(e, message), false)
  {
    hide TagSplitter.Process, AgentStream.Finish;
  }

  lemma {:induction false} BrokenMessage(e: Engine, w: Worker, samples: seq<Sample>, budget: int, st: StreamState)
    returns (k: nat)
    requires Generate(e, w, samples, budget, st).EvalFailed?
    ensures k <= |samples|
    ensures Generate(e, w, samples, budget, st).w.transcript == w.transcript + TokensOf(samples[..k])
    decreases |samples|
  {
    hide AgentStream.StreamText, ToolOf;
    if !samples[0].evalOk {
      k := 0;
      assert TokensOf(samples[..0]) == [] && w.transcript + [] == w.transcript;
    } else {
      var t := samples[0].token;
      var w2 := Eval(w, t, true).0.(transcript := w.transcript + [t]);
      var rest := BrokenMessage(e, w2, samples[1..], budget - 1, AgentStream.StreamText(st, e.text(t), false));
      k := rest + 1;
      TakenMore(samples, rest);
      assert w.transcript + [t] + TokensOf(samples[1..][..rest]) == w.transcript + TokensOf(samples[..k]);
    }
  }

  lemma {:induction false} SpokenNothing(e: Engine, w: Worker, r: Round) returns (message: Tokens)
    requires AssistantPart(e, w, r).SaidNothing?
    ensures message <= TokensOf(r.samples)
    ensures AssistantPart(e, w, r).w.transcript == w.transcript + e.assistantPrefix + message
  {
    hide Generate;
    var w1 := w.(transcript := w.transcript + e.assistantPrefix);
    var (w2, ok) := Sync(e, w1, w1.transcript, r.sync, true);
    if !ok {
      message := [];
    } else {
      var k := BrokenMessage(e, w2, r.samples, MaxTokens(e, |w2.session.tokens|), Fresh(e));
      message := TokensOf(r.samples[..k]);
      TokensPrefix(r.samples, k);
    }
  }

  lemma TokensPrefix(samples: seq<Sample>, k: nat)
    requires k <= |samples|
    ensures TokensOf(samples[..k]) <= TokensOf(samples) && |TokensOf(samples[..k])| == k
  {
  }

  /** A finished message, what it asks for and where it stops. */
  lemma {:induction false} SpokenMessage(e: Engine, w: Worker, r: Round)
    requires AssistantPart(e, w, r).Said?
    ensures var a := AssistantPart(e, w, r);
            var whole := Whole(e.thinking, MessageText(e, a.message));
            && a.w.transcript == w.transcript + e.assistantPrefix + a.message + [e.eos]
            && a.tool == Asks(whole) && a.asked == whole.parser.calls
            && a.error == (if whole.mark then AgentStream.NOT_ALLOWED else whole.parser.error)
            && MessageOk(e, r, w.transcript, RoundLog(None, a.message, None, Plain))
  {
    hide Generate, AgentStream.StreamText, ToolOf, Whole, AgentStreamProofs.Executes, Asks;
    var a := AssistantPart(e, w, r);
    var k := AssistantAppends(e, w, r);
    TokensPrefix(r.samples, k);
    AsksIsTool(e, a.message);
    MessageIsStream(e, a.message);
    var w1 := w.(transcript := w.transcript + e.assistantPrefix);
    var w2 := Sync(e, w1, w1.transcript, r.sync, true).0;
    NothingRead(e.thinking);
    var k2 := GenerateShape(e, w2, r.samples, MaxTokens(e, |w2.session.tokens|), Fresh(e));
    assert (w1.transcript + TokensOf(r.samples[..k2]))[|w1.transcript|..] == TokensOf(r.samples[..k2]);
    TokensPrefix(r.samples, k2);
    if k == 0 { assert a.message == []; }
  }

  // ---------- rounds and turns ----------

  /** The delivery of a result, on the transcript. */
  lemma {:induction false} Delivered(e: Engine, w: Worker, r: Round, result: string) returns (between: Option<Tokens>)
    ensures var (x, ok) := DeliverResult(e, w, r, result);
            var fits := |w.transcript + e.tool(result)| + TOOL_RESULT_RESERVE_TOKENS < e.ctx;
            && (between.Some? ==>
                  && !fits && CanCompact(e, w.transcript, r.makeRoom)
                  && Rebuilds(e, w.transcript, r.makeRoom, between.value))
            && (between.None? && !fits ==> !CanCompact(e, w.transcript, r.makeRoom))
            && (between.None? ==>
                  ok == fits && x.transcript == if ok then w.transcript + e.tool(result) else w.transcript)
            && (between.Some? ==>
                  var t1 := between.value;
                  if |t1 + e.tool(result)| + TOOL_RESULT_RESERVE_TOKENS < e.ctx
                  then ok && x.transcript == t1 + e.tool(result)
                  else if |t1 + e.tool(r.tooLarge)| + TOOL_ERROR_RESERVE_TOKENS < e.ctx
                  then ok && x.transcript == t1 + e.tool(r.tooLarge)
                  else !ok && x.transcript == t1)
  {
    hide Compact, Rebuilds, CanCompact;
    CompactTranscript(e, w, r.makeRoom);
    var (w1, ok1) := Compact(e, w, r.makeRoom);
    var fits := |w.transcript + e.tool(result)| + TOOL_RESULT_RESERVE_TOKENS < e.ctx;
    between := if !fits && ok1 then Some(w1.transcript) else None;
  }

  /** One round behind its own compaction. */
  lemma {:induction false} SpokenRound(e: Engine, w: Worker, r: Round) returns (l: RoundLog)
    ensures l.before.None? && !l.ending.NoRoom? && RoundOk(e, r, true, w.transcript, l)
    ensures var a := AssistantPart(e, w, r);
            && (a.SaidNothing? <==> l.ending.Broken?)
            && (a.Said? ==> (a.tool == NoTool <==> l.ending.Plain?))
            && (a.Said? ==> (a.tool != NoTool && r.queued <==> l.ending.Queued?))
            && (l.ending.Broken? || l.ending.Plain? ==> a.w.transcript == Replay1(e, r, w.transcript, l))
            && (l.ending.Queued? ==> AppendTool(e, a.w, r.stopped).transcript == Replay1(e, r, w.transcript, l))
            && (a.Said? && a.tool != NoTool && !r.queued ==>
                  var (w1, result) := ToolStep(e, r, a);
                  var (w2, delivered) := DeliverResult(e, w1, r, result);
                  && (if delivered then l.ending.Answered? else l.ending.Lost?)
                  && w2.transcript == Replay1(e, r, w.transcript, l))
  {
    hide AssistantPart, Whole, Rebuilds, MessageOk, DeliverResult, CanCompact;
    var a := AssistantPart(e, w, r);
    if a.SaidNothing? {
      var message := SpokenNothing(e, w, r);
      l := RoundLog(None, message, None, Broken);
      ShortMessage(e, r, w.transcript, message);
    } else {
      SpokenMessage(e, w, r);
      var ending := if a.tool == NoTool then Plain else Queued;
      var between: Option<Tokens> := None;
      if a.tool != NoTool && !r.queued {
        var (w1, result) := ToolStep(e, r, a);
        between := Delivered(e, w1, r, result);
        var (w2, ok) := DeliverResult(e, w1, r, result);
        var t1 := Front(w1.transcript, between);
        ending := if !ok then Lost
                  else if |t1 + e.tool(result)| + TOOL_RESULT_RESERVE_TOKENS < e.ctx then Answered(result)
                  else Answered(r.tooLarge);
      }
      l := RoundLog(None, a.message, between, ending);
      SameMessage(e, r, w.transcript, l);
    }
  }

  lemma ShortMessage(e: Engine, r: Round, t: Tokens, message: Tokens)
    requires message <= TokensOf(r.samples)
    ensures MessageOk(e, r, t, RoundLog(None, message, None, Broken))
  {
  }

  lemma SameMessage(e: Engine, r: Round, t: Tokens, l: RoundLog)
    requires MessageOk(e, r, t, RoundLog(None, l.message, None, Plain))
    ensures MessageOk(e, r, t, l)
  {
    hide Asks, Whole;
  }

  /** A round with the compaction in front of it. */
  lemma Fronted(e: Engine, r: Round, t: Tokens, x: Tokens, l: RoundLog)
    requires l.before.None? && !l.ending.NoRoom? && RoundOk(e, r, true, x, l)
    requires ShouldCompact(e, |t|) && Rebuilds(e, t, r.compact, x) && CanCompact(e, t, r.compact)
    ensures RoundOk(e, r, false, t, l.(before := Some(x)))
    ensures Replay1(e, r, t, l.(before := Some(x))) == Replay1(e, r, x, l)
  {
    hide Rebuilds, Whole, ShouldCompact, Asks, ResultOf, CanCompact;
    var m := l.(before := Some(x));
    assert MessageOk(e, r, x, m) by { SameLog(e, r, x, l, m); }
  }

  lemma SameLog(e: Engine, r: Round, t: Tokens, l: RoundLog, m: RoundLog)
    requires MessageOk(e, r, t, l) && m.message == l.message && m.ending == l.ending
    ensures MessageOk(e, r, t, m)
  {
    hide Asks, Whole;
  }

  lemma Unfronted(e: Engine, r: Round, t: Tokens, l: RoundLog)
    requires l.before.None? && !l.ending.NoRoom? && RoundOk(e, r, true, t, l) && !ShouldCompact(e, |t|)
    ensures RoundOk(e, r, false, t, l)
  {
    hide Rebuilds, Whole, ShouldCompact, Asks, ResultOf, MessageOk, CanCompact;
  }

  lemma NoRoomOk(e: Engine, r: Round, t: Tokens)
    requires ShouldCompact(e, |t|) && !CanCompact(e, t, r.compact)
    ensures RoundOk(e, r, false, t, RoundLog(None, [], None, NoRoom))
    ensures Replay1(e, r, t, RoundLog(None, [], None, NoRoom)) == t
  {
    hide Rebuilds, Whole, ShouldCompact, Asks, ResultOf, CanCompact;
  }

  lemma {:induction false} RoundsTranscript(e: Engine, w: Worker, first: bool, rounds: seq<Round>)
    returns (log: seq<RoundLog>)
    ensures RoundsOk(e, rounds, first, w.transcript, log)
    ensures var (x, result) := Rounds(e, w, first, rounds);
            x.transcript == Replay(e, rounds, w.transcript, log) && result == Outcome(log)
    decreases |rounds|
  {
    hide Compact, AssistantPart, ShouldCompact, DeliverResult, RoundOk, Replay1, ToolStep, Rebuilds, CanCompact;
    if rounds == [] {
      log := [];
    } else {
      var r := rounds[0];
      var (w0, ok) := if first then (w, true) else CompactIfNeeded(e, w, r.compact);
      CompactTranscript(e, w, r.compact);
      if !ok {
        NoRoomOk(e, r, w.transcript);
        log := [RoundLog(None, [], None, NoRoom)];
      } else {
        var l := SpokenRound(e, w0, r);
        var m := l;
        if !first {
          if ShouldCompact(e, |w.transcript|) {
            m := l.(before := Some(w0.transcript));
            Fronted(e, r, w.transcript, w0.transcript, l);
          } else {
            Unfronted(e, r, w.transcript, l);
          }
        }
        var rest: seq<RoundLog> := [];
        if l.ending.Answered? {
          var (w1, result) := ToolStep(e, r, AssistantPart(e, w0, r));
          rest := RoundsTranscript(e, DeliverResult(e, w1, r, result).0, false, rounds[1..]);
        }
        log := [m] + rest;
        assert log[1..] == rest;
      }
    }
  }

  /** A turn over the transcript.  It starts where the last one ended, or, when a compaction is
      called for, from what that rebuilt; then come the user message and, for each round, the
      assistant prefix, the sampled message, the end token and one tool message, as RoundOk says;
      and how the last round ended is how the turn ends.  When the compaction fails, nothing
      changes. */
  lemma {:induction false} TurnText(e: Engine, w: Worker, t: Turn) returns (start: Tokens, log: seq<RoundLog>)
    ensures var (x, result) := RunTurn(e, w, t);
            if ShouldCompact(e, |w.transcript|) && !CanCompact(e, w.transcript, t.compact)
            then x.transcript == w.transcript && result == Failed
            else
              && (if ShouldCompact(e, |w.transcript|) then Rebuilds(e, w.transcript, t.compact, start)
                  else start == w.transcript)
              && RoundsOk(e, t.rounds, true, start + e.user(t.user), log)
              && x.transcript == Replay(e, t.rounds, start + e.user(t.user), log)
              && result == Outcome(log)
  {
    hide Compact, Rounds, ShouldCompact, RoundsOk, Replay, Rebuilds, Outcome, CanCompact;
    CompactTranscript(e, w, t.compact);
    var (w0, ok) := CompactIfNeeded(e, w, t.compact);
    start, log := w0.transcript, [];
    if ok { log := RoundsTranscript(e, w0.(transcript := start + e.user(t.user)), true, t.rounds); }
  }
}
