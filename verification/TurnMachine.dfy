/** The turn loop as the worker runs it: a class over transcript and session, with the streaming
    renderer of each message; every method is proved equal to its function in module TurnLoop. */
module TurnMachine {
  import opened Basics
  import opened Options
  import opened ToolCalls
  import opened TurnLoop
  import AgentStream
  import Dsml
  import TagSplitter
  import opened AgentStreamMachine
  import opened DsmlMachine

  method FindTailStart(e: Engine, transcript: Tokens) returns (n: nat)
    requires |e.sys| <= |transcript|
    ensures n == TailStart(e, transcript)
  {
    var target := TailTarget(e, |transcript|);
    if e.userMark < 0 {
      return target;
    }
    var i := target;
    while i < |transcript|
      invariant target <= i <= |transcript|
      invariant FirstToken(transcript, target, e.userMark) == FirstToken(transcript, i, e.userMark)
    {
      if transcript[i] == e.userMark {
        return i;
      }
      i := i + 1;
    }
    return target;
  }

  class AgentWorker {
    const e: Engine
    var transcript: Tokens
    var session: Session
    ghost var calls: seq<Call>

    ghost function W(): Worker
      reads this
    {
      Worker(transcript, session, calls)
    }

    constructor (e: Engine)
      ensures W() == Worker(e.sys, Session([], false), []) && this.e == e
    {
      this.e, transcript, session, calls := e, e.sys, Session([], false), [];
    }

    method SyncSession(prompt: Tokens, o: SyncOutcome, turn: bool) returns (ok: bool)
      modifies `session, `calls
      ensures (W(), ok) == Sync(e, old(W()), prompt, o, turn)
    {
      calls := calls + [SyncCall(Live(session), prompt, turn)];
      if |prompt| == 0 || |prompt| >= e.ctx { return false; }
      match o
      case SyncOk =>
        session := Session(prompt, true);
        return true;
      case SyncFail(left) =>
        session := Session(left, false);
        return false;
    }

    method EvalToken(t: int, evalOk: bool) returns (ok: bool)
      modifies `session, `calls
      ensures (W(), ok) == Eval(old(W()), t, evalOk)
    {
      if !evalOk {
        session := session.(valid := false);
        return false;
      }
      session := session.(tokens := session.tokens + [t]);
      calls := calls + [EvalCall(|session.tokens|)];
      return true;
    }

    /** Ask for the summary, token by token. */
    method WriteSummary(steps: seq<SummaryStep>, max: nat) returns (ok: bool, text: string)
      modifies `session, `calls
      ensures Summarize(e, old(W()), steps, max, []) == if ok then Text(W(), text) else Aborted(W())
    {
      text := [];
      var i := 0;
      while i < max
        invariant 0 <= i <= max && i <= |steps|
        invariant Summarize(e, W(), steps[i..], max - i, text) == Summarize(e, old(W()), steps, max, [])
      {
        if i == |steps| || steps[i].Interrupt? {
          session := Session([], false);
          return false, text;
        }
        var token := steps[i].token;
        if token == e.eos { return true, text; }
        if token == e.thinkEnd || token == e.dsml {
          if token == e.dsml && |text| > 0 && text[|text| - 1] == '<' {
            text := text[..|text| - 1];
          }
          return true, text;
        }
        var evaluated := EvalToken(token, steps[i].evalOk);
        if !evaluated {
          session := Session([], false);
          return false, text;
        }
        assert steps[i..][1..] == steps[i + 1..];
        text := text + e.text(token);
        i := i + 1;
      }
      ok := true;
    }

    method CompactTranscript(c: CompactScript) returns (ok: bool)
      modifies this
      ensures (W(), ok) == Compact(e, old(W()), c)
    {
      hide Summarize, SummaryMessage;
      if |transcript| <= |e.sys| { return true; }
      var prompt := transcript + c.ask;
      var room := e.ctx - |prompt| - 1;
      if room < COMPACT_SUMMARY_MIN_ROOM { return false; }
      var synced := SyncSession(prompt, c.sync, false);
      if !synced {
        session := Session([], false);
        return false;
      }
      var done, text := WriteSummary(c.steps, Min(room, COMPACT_SUMMARY_MAX_TOKENS));
      if !done { return false; }
      if |text| == 0 {
        session := Session([], false);
        return false;
      }
      var tailStart := FindTailStart(e, transcript);
      var compacted := e.sys + e.system(SummaryMessage(text)) + transcript[tailStart..];
      var oldTranscript := transcript;
      transcript := compacted;
      synced := SyncSession(transcript, c.rebuild, false);
      if !synced {
        session := Session([], false);
        transcript := oldTranscript;
        return false;
      }
      if c.bash.Some? { transcript := transcript + e.tool(c.bash.value); }
      return true;
    }

    /** Sample tokens and stream their text until a tool stanza ends. */
    method GenerateTokens(samples: seq<Sample>, max: int, stream: StreamRenderer) returns (ok: bool, tool: ToolState)
      requires stream.Valid()
      modifies this, stream, stream.parser
      ensures stream.Valid()
      ensures Generate(e, old(W()), samples, max, old(TagSplitter.Split(stream.St(), stream.pending)))
           == if ok then Generated(W(), tool, TagSplitter.Split(stream.St(), stream.pending)) else EvalFailed(W())
    {
      hide AgentStream.StreamText;
      tool := NoTool;
      var generated := 0;
      ghost var st := TagSplitter.Split(stream.St(), stream.pending);
      while generated < max && generated < |samples|
        invariant 0 <= generated <= |samples| && (generated == 0 || generated <= max) && tool == NoTool
        invariant stream.Valid()
        invariant Generate(e, W(), samples[generated..], max - generated,
                           TagSplitter.Split(stream.St(), stream.pending))
               == Generate(e, old(W()), samples, max, st)
      {
        var s := samples[generated];
        if s.token == e.eos { return true, NoTool; }
        var evaluated := EvalToken(s.token, s.evalOk);
        if !evaluated { return false, NoTool; }
        transcript := transcript + [s.token];
        stream.StreamChunk(e.text(s.token), false);
        if stream.parser.phase == Dsml.Done { return true, ToolDone; }
        if stream.parser.phase == Dsml.Error { return true, ToolError; }
        assert samples[generated..][1..] == samples[generated + 1..];
        generated := generated + 1;
      }
      ok := true;
    }

    /** One assistant message: sync, generation, the end of the stream, the end token. */
    method Speak(r: Round)
      returns (ok: bool, tool: ToolState, asked: seq<Dsml.Call>, error: string, ghost message: Tokens)
      modifies this
      ensures AssistantPart(e, old(W()), r) == if ok then Said(W(), tool, asked, error, message) else SaidNothing(W())
    {
      hide Generate, AgentStream.StreamText;
      tool, asked, error, message := NoTool, [], [], [];
      transcript := transcript + e.assistantPrefix;
      ghost var before := |transcript|;
      ok := SyncSession(transcript, r.sync, true);
      if !ok { return; }
      var parser := new StreamParser();
      var stream := new StreamRenderer(parser, e.thinking);
      ok, tool := GenerateTokens(r.samples, MaxTokens(e, |session.tokens|), stream);
      if !ok { return; }
      stream.StreamChunk([], true);
      asked, error := stream.parser.calls, stream.parser.error;
      if stream.mark { tool, error := ToolError, NOT_ALLOWED; }
      message := if before <= |transcript| then transcript[before..] else [];
      transcript := transcript + [e.eos];
    }

    /** The tool rounds of one turn; `rounds` holds the engine's answers as far as they are known. */
    method RunRounds(rounds: seq<Round>) returns (result: TurnResult)
      modifies this
      ensures (W(), result) == Rounds(e, old(W()), true, rounds)
    {
      hide Compact, AssistantPart, ShouldCompact, DeliverResult;
      var i := 0;
      while i < |rounds|
        invariant 0 <= i <= |rounds|
        invariant Rounds(e, W(), i == 0, rounds[i..]) == Rounds(e, old(W()), true, rounds)
      {
        var r := rounds[i];
        assert rounds[i..][1..] == rounds[i + 1..];
        if i > 0 && ShouldCompact(e, |transcript|) {
          var compacted := CompactTranscript(r.compact);
          if !compacted { return Failed; }
        }
        var ok, tool, asked, error, message := Speak(r);
        if !ok { return Failed; }
        if tool == NoTool { return Completed; }
        if r.queued {
          transcript := transcript + e.tool(r.stopped);
          return Completed;
        }
        var answer;
        if tool == ToolDone {
          calls := calls + [ToolRun(asked, message)];
          answer := r.result(asked);
        } else {
          answer := r.malformed(error);
        }
        var delivered := Deliver(r, answer);
        if !delivered { return Failed; }
        i := i + 1;
      }
      return Unfinished;
    }

    method Deliver(r: Round, answer: string) returns (ok: bool)
      modifies this
      ensures (W(), ok) == DeliverResult(e, old(W()), r, answer)
    {
      hide Compact;
      var result := answer;
      if |transcript + e.tool(result)| + TOOL_RESULT_RESERVE_TOKENS >= e.ctx {
        var compacted := CompactTranscript(r.makeRoom);
        if !compacted { return false; }
        if |transcript + e.tool(result)| + TOOL_RESULT_RESERVE_TOKENS >= e.ctx {
          result := r.tooLarge;
          if |transcript + e.tool(result)| + TOOL_ERROR_RESERVE_TOKENS >= e.ctx { return false; }
        }
      }
      transcript := transcript + e.tool(result);
      return true;
    }

    /** One user turn. */
    method RunUserTurn(t: Turn) returns (result: TurnResult)
      modifies this
      ensures (W(), result) == RunTurn(e, old(W()), t)
      ensures old(Inv(e, W())) ==> Inv(e, W())
    {
      hide Compact, Rounds, Inv, ShouldCompact;
      if old(Inv(e, W())) { TurnKeeps(e, old(W()), t); }
      if ShouldCompact(e, |transcript|) {
        var compacted := CompactTranscript(t.compact);
        if !compacted { return Failed; }
      }
      transcript := transcript + e.user(t.user);
      result := RunRounds(t.rounds);
    }
  }
}
