/** The turn loop and context compaction: a transcript, the engine session that caches a prefix
    of it, and what every engine call may do.  The engine's answers (whether a call succeeds,
    which token is sampled) are inputs; the rendered form of a message is an abstract function. */
module TurnLoop {
  import opened Basics
  import opened Options
  import AgentStream
  import AgentStreamProofs
  import Dsml
  import TagSplitter
  import opened ToolCalls

  type Tokens = seq<int>

  const COMPACT_SOFT_PERCENT := 85
  const COMPACT_MIN_FREE_TOKENS := 8192
  const COMPACT_TAIL_DIVISOR := 10
  const COMPACT_TAIL_CAP_TOKENS := 50000
  const COMPACT_SUMMARY_MAX_TOKENS := 4096
  const COMPACT_SUMMARY_MIN_ROOM := 256
  const TOOL_RESULT_RESERVE_TOKENS := 1024
  const TOOL_ERROR_RESERVE_TOKENS := 16

  datatype Engine = Engine(
    ctx: int,
    nPredict: int,
    thinking: bool,            // messages start inside thinking
    sys: Tokens,               // the system prompt
    eos: int,
    thinkEnd: int,
    dsml: int,
    userMark: int,             // negative when the vocabulary has none
    assistantPrefix: Tokens,
    text: int -> string,       // token text
    system: string -> Tokens,  // rendered messages, appended as they are
    user: string -> Tokens,
    tool: string -> Tokens)

  // The live session: its tokens count only while the checkpoint is valid.
  datatype Session = Session(tokens: Tokens, valid: bool)

  // Every call that moved the session, and every run of tool calls with the message that asked
  // for them, for the record.
  datatype Call =
    | SyncCall(live: Tokens, prompt: Tokens, turn: bool)
    | EvalCall(pos: nat)
    | ToolRun(asked: seq<Dsml.Call>, message: Tokens)

  datatype Worker = Worker(transcript: Tokens, session: Session, calls: seq<Call>)

  datatype SyncOutcome = SyncOk | SyncFail(left: Tokens)

  function Live(s: Session): Tokens {
    if s.valid then s.tokens else []
  }

  /** Bring the session to `prompt`: refused without change when it does not fit. */
  function Sync(e: Engine, w: Worker, prompt: Tokens, o: SyncOutcome, turn: bool): (Worker, bool) {
    var w1 := w.(calls := w.calls + [SyncCall(Live(w.session), prompt, turn)]);
    if |prompt| == 0 || |prompt| >= e.ctx then (w1, false)
    else match o
      case SyncOk => (w1.(session := Session(prompt, true)), true)
      case SyncFail(left) => (w1.(session := Session(left, false)), false)
  }

  function Eval(w: Worker, t: int, ok: bool): (Worker, bool) {
    if ok then
      var tokens := w.session.tokens + [t];
      (w.(session := w.session.(tokens := tokens), calls := w.calls + [EvalCall(|tokens|)]), true)
    else (w.(session := w.session.(valid := false)), false)
  }

  function Invalidate(w: Worker): Worker {
    w.(session := Session([], false))
  }

  // ---------- compaction ----------

  predicate ShouldCompact(e: Engine, used: int) {
    e.ctx > 0 && used > 0 &&
    (used >= e.ctx * COMPACT_SOFT_PERCENT / 100 ||
     e.ctx - used <= (if COMPACT_MIN_FREE_TOKENS > e.ctx / 4 then e.ctx / 4 else COMPACT_MIN_FREE_TOKENS))
  }

  function TailBudget(ctx: int): (n: int)
    ensures 1 <= n <= COMPACT_TAIL_CAP_TOKENS
  {
    var budget := ctx / COMPACT_TAIL_DIVISOR;
    var capped := if budget > COMPACT_TAIL_CAP_TOKENS then COMPACT_TAIL_CAP_TOKENS else budget;
    if capped < 1 then 1 else capped
  }

  function FirstToken(s: Tokens, from: nat, t: int): (i: nat)
    requires from <= |s|
    ensures from <= i <= |s|
    ensures forall k :: from <= k < i ==> s[k] != t
    ensures i < |s| ==> s[i] == t
    decreases |s| - from
  {
    if from == |s| || s[from] == t then from else FirstToken(s, from + 1, t)
  }

  function TailTarget(e: Engine, bottom: nat): (n: nat)
    requires |e.sys| <= bottom
    ensures |e.sys| <= n <= bottom
  {
    var target := bottom - TailBudget(e.ctx);
    if target < |e.sys| then |e.sys| else target
  }

  /** Where the verbatim tail starts: at a user boundary inside the budget if there is one. */
  function TailStart(e: Engine, transcript: Tokens): (n: nat)
    requires |e.sys| <= |transcript|
    ensures TailTarget(e, |transcript|) <= n <= |transcript|
  {
    var target := TailTarget(e, |transcript|);
    if e.userMark < 0 then target
    else
      var i := FirstToken(transcript, target, e.userMark);
      if i < |transcript| then i else target
  }

  ghost predicate IsBoundary(e: Engine, transcript: Tokens, k: nat) {
    k < |transcript| && e.userMark >= 0 && transcript[k] == e.userMark
  }

  /** The tail is a suffix within budget that never reaches into the system prompt.  It starts
      at the first user boundary in the budget; without one it uses the budget up. */
  lemma TailInBudget(e: Engine, transcript: Tokens)
    requires |e.sys| <= |transcript|
    ensures var n, target := TailStart(e, transcript), TailTarget(e, |transcript|);
            && |e.sys| <= n <= |transcript|
            && |transcript| - n <= TailBudget(e.ctx)
            && (forall k :: target <= k < n ==> !IsBoundary(e, transcript, k))
            && (|| IsBoundary(e, transcript, n)
                || (n == target && forall k :: target <= k ==> !IsBoundary(e, transcript, k)))
            && (|transcript| - target == TailBudget(e.ctx) || target == |e.sys|)
  {
  }

  // One step of summarising: an interrupt, or the token the model proposes.
  datatype SummaryStep = Interrupt | Propose(token: int, evalOk: bool)
  datatype Summary = Aborted(w: Worker) | Text(w: Worker, text: string)

  function DropLt(s: string): string {
    if s != [] && s[|s| - 1] == '<' then s[..|s| - 1] else s
  }

  function Summarize(e: Engine, w: Worker, steps: seq<SummaryStep>, room: nat, text: string): Summary
    decreases |steps|
  {
    if room == 0 then Text(w, text)
    else if steps == [] || steps[0].Interrupt? then Aborted(Invalidate(w))
    else
      var t := steps[0].token;
      if t == e.eos then Text(w, text)
      else if t == e.thinkEnd || t == e.dsml then Text(w, if t == e.dsml then DropLt(text) else text)
      else
        var (w1, ok) := Eval(w, t, steps[0].evalOk);
        if !ok then Aborted(Invalidate(w1))
        else Summarize(e, w1, steps[1..], room - 1, text + e.text(t))
  }

  /** The text of the first steps, token by token. */
  function Spoken(e: Engine, steps: seq<SummaryStep>): string {
    if steps == [] then []
    else (if steps[0].Propose? then e.text(steps[0].token) else []) + Spoken(e, steps[1..])
  }

  predicate Stops(e: Engine, t: int) {
    t == e.eos || t == e.thinkEnd || t == e.dsml
  }

  /** The summary made of exactly `k` tokens: every one proposed without an interrupt, evaluated
      and no control token; then the room is used up or a control token stops it.  A '<' in
      front of a tool mark is dropped. */
  ghost predicate SummaryIs(e: Engine, steps: seq<SummaryStep>, room: nat, k: nat, text: string) {
    && k <= |steps| && k <= room
    && (forall i :: 0 <= i < k ==> steps[i].Propose? && steps[i].evalOk && !Stops(e, steps[i].token))
    && (k == room || (k < |steps| && steps[k].Propose? && Stops(e, steps[k].token)))
    && text == LessAngle(Spoken(e, steps[..k]), k < room && steps[k].token == e.dsml && e.dsml != e.eos)
  }

  /** The text, less a '<' at its end when a tool mark follows. */
  ghost function LessAngle(spoken: string, mark: bool): string {
    if mark && exists front :: spoken == front + "<" then spoken[..|spoken| - 1] else spoken
  }

  lemma CutIsDrop(spoken: string)
    ensures DropLt(spoken) == LessAngle(spoken, true) && LessAngle(spoken, false) == spoken
  {
    if spoken != [] && spoken[|spoken| - 1] == '<' { assert spoken == spoken[..|spoken| - 1] + "<"; }
  }

  function SummaryMessage(text: string): string {
    "\n\n[ds4-agent compacted earlier conversation. Durable task-state summary follows.]\n" + text +
    (if text != [] && text[|text| - 1] != '\n' then "\n" else "") +
    "[End compacted summary. Recent conversation continues verbatim below.]\n\n"
  }

  // The engine's answers during one compaction; `ask` is the rendered private request.
  datatype CompactScript = CompactScript(
    ask: Tokens, sync: SyncOutcome, steps: seq<SummaryStep>, rebuild: SyncOutcome, bash: Option<string>)

  function Compacted(e: Engine, transcript: Tokens, text: string): Tokens
    requires |e.sys| <= |transcript|
  {
    e.sys + e.system(SummaryMessage(text)) + transcript[TailStart(e, transcript)..]
  }

  function Compact(e: Engine, w: Worker, c: CompactScript): (Worker, bool) {
    if |w.transcript| <= |e.sys| then (w, true)
    else
      var prompt := w.transcript + c.ask;
      var room := e.ctx - |prompt| - 1;
      if room < COMPACT_SUMMARY_MIN_ROOM then (w, false)
      else
        var (w1, ok1) := Sync(e, w, prompt, c.sync, false);
        if !ok1 then (Invalidate(w1), false)
        else
          match Summarize(e, w1, c.steps, Min(room, COMPACT_SUMMARY_MAX_TOKENS), [])
          case Aborted(w2) => (w2, false)
          case Text(w2, text) =>
            if text == [] then (Invalidate(w2), false)
            else
              var compacted := Compacted(e, w.transcript, text);
              var (w3, ok3) := Sync(e, w2.(transcript := compacted), compacted, c.rebuild, false);
              if !ok3 then (Invalidate(w3).(transcript := w.transcript), false)
              else
                (if c.bash.None? then w3 else w3.(transcript := w3.transcript + e.tool(c.bash.value)), true)
  }

  function CompactIfNeeded(e: Engine, w: Worker, c: CompactScript): (Worker, bool) {
    if ShouldCompact(e, |w.transcript|) then Compact(e, w, c) else (w, true)
  }

  // ---------- one turn ----------

  // A token the engine samples, and whether evaluating it succeeds.
  datatype Sample = Sample(token: int, evalOk: bool)

  type StreamState = TagSplitter.Split<AgentStream.Stream>

  datatype Generated = Generated(w: Worker, tool: ToolState, stream: StreamState) | EvalFailed(w: Worker)

  function Fresh(e: Engine): StreamState {
    TagSplitter.Split(AgentStream.Start0(e.thinking), [])
  }

  function MaxTokens(e: Engine, pos: nat): int {
    var room := e.ctx - pos;
    if room <= 1 then 0 else if e.nPredict > room - 1 then room - 1 else e.nPredict
  }

  /** Sample until the budget, an interrupt (the samples end), the end token, or the end of a
      tool stanza in the streamed text. */
  function Generate(e: Engine, w: Worker, samples: seq<Sample>, budget: int, st: StreamState): Generated
    decreases |samples|
  {
    if budget <= 0 || samples == [] || samples[0].token == e.eos then Generated(w, NoTool, st)
    else
      var (w1, ok) := Eval(w, samples[0].token, samples[0].evalOk);
      if !ok then EvalFailed(w1)
      else
        var w2 := w1.(transcript := w1.transcript + [samples[0].token]);
        var st1 := AgentStream.StreamText(st, e.text(samples[0].token), false);
        if ToolOf(st1) != NoTool then Generated(w2, ToolOf(st1), st1)
        else Generate(e, w2, samples[1..], budget - 1, st1)
  }

  datatype Round = Round(
    compact: CompactScript, sync: SyncOutcome, samples: seq<Sample>,
    queued: bool,                           // a queued user prompt is waiting
    stopped: string,                        // the result recorded instead of running the tools
    result: seq<Dsml.Call> -> string,       // what running these calls returns
    malformed: string -> string,            // the result recorded for a parse error
    makeRoom: CompactScript,
    tooLarge: string)                       // the error that replaces a result that does not fit

  datatype TurnResult = Completed | Failed | Unfinished

  predicate Fits(e: Engine, w: Worker, result: string, reserve: int) {
    |w.transcript + e.tool(result)| + reserve < e.ctx
  }

  function AppendTool(e: Engine, w: Worker, result: string): Worker {
    w.(transcript := w.transcript + e.tool(result))
  }

  /** After the assistant message: append the tool result, making room for it if needed. */
  function DeliverResult(e: Engine, w: Worker, r: Round, result: string): (Worker, bool) {
    if Fits(e, w, result, TOOL_RESULT_RESERVE_TOKENS) then (AppendTool(e, w, result), true)
    else
      var (w1, ok) := Compact(e, w, r.makeRoom);
      if !ok then (w1, false)
      else if Fits(e, w1, result, TOOL_RESULT_RESERVE_TOKENS) then (AppendTool(e, w1, result), true)
      else if Fits(e, w1, r.tooLarge, TOOL_ERROR_RESERVE_TOKENS) then (AppendTool(e, w1, r.tooLarge), true)
      else (w1, false)
  }

  // A finished assistant message: its tokens, what it asks for, and the parse error if any.
  datatype Said = Said(w: Worker, tool: ToolState, asked: seq<Dsml.Call>, error: string, message: Tokens)
                | SaidNothing(w: Worker)

  const NOT_ALLOWED := AgentStream.NOT_ALLOWED

  /** The assistant's part of a round: prompt, sync, generation, the end of the stream, and the
      end token.  Tool markup inside thinking turns any outcome into a tool error. */
  function AssistantPart(e: Engine, w: Worker, r: Round): Said {
    var w1 := w.(transcript := w.transcript + e.assistantPrefix);
    var (w2, ok) := Sync(e, w1, w1.transcript, r.sync, true);
    if !ok then SaidNothing(w2)
    else match Generate(e, w2, r.samples, MaxTokens(e, |w2.session.tokens|), Fresh(e))
      case EvalFailed(w3) => SaidNothing(w3)
      case Generated(w3, tool, st) =>
        var end := AgentStream.StreamText(st, [], true).s;
        var message := if |w1.transcript| <= |w3.transcript| then w3.transcript[|w1.transcript|..] else [];
        Said(w3.(transcript := w3.transcript + [e.eos]), if end.mark then ToolError else tool, end.parser.calls,
             if end.mark then NOT_ALLOWED else end.parser.error, message)
  }

  /** Run the calls of a message, or complain; an interrupted or refused call is not run. */
  function ToolStep(e: Engine, r: Round, a: Said): (x: (Worker, string))
    requires a.Said?
  {
    if a.tool == ToolDone then (a.w.(calls := a.w.calls + [ToolRun(a.asked, a.message)]), r.result(a.asked))
    else (a.w, r.malformed(a.error))
  }

  function Rounds(e: Engine, w: Worker, first: bool, rounds: seq<Round>): (Worker, TurnResult)
    decreases |rounds|
  {
    if rounds == [] then (w, Unfinished)
    else
      var r := rounds[0];
      var (w0, ok) := if first then (w, true) else CompactIfNeeded(e, w, r.compact);
      if !ok then (w0, Failed)
      else
        var a := AssistantPart(e, w0, r);
        if a.SaidNothing? then (a.w, Failed)
        else if a.tool == NoTool then (a.w, Completed)
        else if r.queued then (AppendTool(e, a.w, r.stopped), Completed)
        else
          var (w1, result) := ToolStep(e, r, a);
          var (w2, delivered) := DeliverResult(e, w1, r, result);
          if !delivered then (w2, Failed) else Rounds(e, w2, false, rounds[1..])
  }

  datatype Turn = Turn(compact: CompactScript, user: string, rounds: seq<Round>)

  function RunTurn(e: Engine, w: Worker, t: Turn): (Worker, TurnResult) {
    var (w0, ok) := CompactIfNeeded(e, w, t.compact);
    if !ok then (w0, Failed)
    else Rounds(e, w0.(transcript := w0.transcript + e.user(t.user)), true, t.rounds)
  }

  function RunTurns(e: Engine, w: Worker, turns: seq<Turn>): Worker
    decreases |turns|
  {
    if turns == [] then w else RunTurns(e, RunTurn(e, w, turns[0]).0, turns[1..])
  }

  // ---------- invariants ----------

  /** A message read as a whole text. */
  function MessageText(e: Engine, message: Tokens): string {
    if message == [] then [] else e.text(message[0]) + MessageText(e, message[1..])
  }

  /** The calls that were run are those of the whole message, complete and with no tool markup
      read as thinking. */
  ghost predicate RunOk(e: Engine, asked: seq<Dsml.Call>, message: Tokens) {
    var whole := Whole(e.thinking, MessageText(e, message));
    AgentStreamProofs.Executes(whole) && whole.parser.calls == asked
  }

  /** Every sync of the turn loop only extended the session, no token was evaluated at or past
      the last position, and only complete calls of whole messages were run. */
  ghost predicate CallsOk(e: Engine, calls: seq<Call>) {
    forall i :: 0 <= i < |calls| ==>
      match calls[i]
      case SyncCall(live, prompt, turn) => turn ==> live <= prompt
      case EvalCall(pos) => pos <= e.ctx - 1
      case ToolRun(asked, message) => RunOk(e, asked, message)
  }

  /** The live session is a prefix of the transcript and fits the context. */
  ghost predicate Inv(e: Engine, w: Worker) {
    && CallsOk(e, w.calls)
    && (w.session.valid ==> w.session.tokens <= w.transcript && |w.session.tokens| < e.ctx)
  }

  lemma SyncKeeps(e: Engine, w: Worker, prompt: Tokens, o: SyncOutcome, turn: bool)
    requires CallsOk(e, w.calls) && (turn ==> Live(w.session) <= prompt)
    ensures CallsOk(e, Sync(e, w, prompt, o, turn).0.calls)
  {
  }

  lemma EvalKeeps(e: Engine, w: Worker, t: int, ok: bool)
    requires CallsOk(e, w.calls) && |w.session.tokens| + 1 <= e.ctx - 1
    ensures CallsOk(e, Eval(w, t, ok).0.calls)
  {
  }

  lemma {:induction false} SummarizeKeeps(e: Engine, w: Worker, steps: seq<SummaryStep>, room: nat, text: string)
    requires CallsOk(e, w.calls) && |w.session.tokens| + room <= e.ctx - 1
    ensures var r := Summarize(e, w, steps, room, text);
            && CallsOk(e, r.w.calls) && r.w.transcript == w.transcript
            && (r.Aborted? ==> !r.w.session.valid)
    decreases |steps|
  {
    hide CallsOk;
    if room != 0 && steps != [] && steps[0].Propose? {
      var t := steps[0].token;
      EvalKeeps(e, w, t, steps[0].evalOk);
      if t != e.eos && t != e.thinkEnd && t != e.dsml && steps[0].evalOk {
        SummarizeKeeps(e, Eval(w, t, true).0, steps[1..], room - 1, text + e.text(t));
      }
    }
  }

  /** A finished summary is what the model said up to the first control token. */
  lemma {:induction false} SummaryText(e: Engine, w: Worker, steps: seq<SummaryStep>, room: nat, before: string)
    returns (k: nat)
    requires Summarize(e, w, steps, room, before).Text?
    ensures k <= |steps| && k <= room
    ensures forall i :: 0 <= i < k ==> steps[i].Propose? && steps[i].evalOk && !Stops(e, steps[i].token)
    ensures k == room || (k < |steps| && steps[k].Propose? && Stops(e, steps[k].token))
    ensures var spoken := before + Spoken(e, steps[..k]);
            Summarize(e, w, steps, room, before).text
            == LessAngle(spoken, k < room && steps[k].token == e.dsml && e.dsml != e.eos)
    decreases |steps|
  {
    CutIsDrop(before);
    hide LessAngle, DropLt;
    if room == 0 || Stops(e, steps[0].token) {
      k := 0;
      assert before + Spoken(e, steps[..0]) == before;
    } else {
      var t := steps[0].token;
      var w1 := Eval(w, t, true).0;
      var rest := SummaryText(e, w1, steps[1..], room - 1, before + e.text(t));
      k := rest + 1;
      assert steps[..k] == [steps[0]] + steps[1..][..rest];
      assert steps[..k][1..] == steps[1..][..rest];
      assert before + e.text(t) + Spoken(e, steps[1..][..rest]) == before + Spoken(e, steps[..k]);
    }
  }

  /** Compaction keeps the invariant whatever the engine answers, and a failed one leaves the
      transcript as it was. */
  lemma {:induction false} CompactKeeps(e: Engine, w: Worker, c: CompactScript)
    requires Inv(e, w)
    ensures Inv(e, Compact(e, w, c).0)
    ensures !Compact(e, w, c).1 ==> Compact(e, w, c).0.transcript == w.transcript
  {
    hide CallsOk, Summarize, Compacted;
    var prompt := w.transcript + c.ask;
    var room := e.ctx - |prompt| - 1;
    if |w.transcript| > |e.sys| && room >= COMPACT_SUMMARY_MIN_ROOM {
      SyncKeeps(e, w, prompt, c.sync, false);
      var (w1, ok1) := Sync(e, w, prompt, c.sync, false);
      if ok1 {
        SummarizeKeeps(e, w1, c.steps, Min(room, COMPACT_SUMMARY_MAX_TOKENS), []);
        var r := Summarize(e, w1, c.steps, Min(room, COMPACT_SUMMARY_MAX_TOKENS), []);
        if r.Text? && r.text != [] {
          var compacted := Compacted(e, w.transcript, r.text);
          SyncKeeps(e, r.w.(transcript := compacted), compacted, c.rebuild, false);
        }
      }
    }
  }

  lemma SummaryOf(e: Engine, w: Worker, steps: seq<SummaryStep>, room: nat) returns (k: nat)
    requires Summarize(e, w, steps, room, []).Text?
    ensures SummaryIs(e, steps, room, k, Summarize(e, w, steps, room, []).text)
  {
    hide Summarize;
    k := SummaryText(e, w, steps, room, []);
    assert [] + Spoken(e, steps[..k]) == Spoken(e, steps[..k]);
  }

  /** What a compaction of `t` builds: the system prompt, a summary of `k` tokens the model
      proposed, the transcript from `n` on within the tail budget, and then any bash update. */
  ghost predicate RebuiltAs(e: Engine, t: Tokens, c: CompactScript, x: Tokens, text: string, n: nat, k: nat) {
    var room := Min(e.ctx - |t + c.ask| - 1, COMPACT_SUMMARY_MAX_TOKENS);
    && room >= 0 && SummaryIs(e, c.steps, room, k, text) && text != []
    && |e.sys| <= n <= |t| && |t| - n <= TailBudget(e.ctx)
    && x == e.sys + e.system(SummaryMessage(text)) + t[n..] + (if c.bash.Some? then e.tool(c.bash.value) else [])
  }

  /** The live session then holds all of it but the bash update. */
  ghost predicate CompactedAs(e: Engine, w: Worker, c: CompactScript, r: Worker, text: string, n: nat, k: nat) {
    && RebuiltAs(e, w.transcript, c, r.transcript, text, n, k)
    && r.session == Session(e.sys + e.system(SummaryMessage(text)) + w.transcript[n..], true)
  }

  /** A successful compaction either had nothing to do or built just that, and the live session
      holds all of it but the bash update. */
  lemma {:induction false} CompactResult(e: Engine, w: Worker, c: CompactScript)
    requires Inv(e, w) && Compact(e, w, c).1
    ensures var r := Compact(e, w, c).0;
            if |w.transcript| <= |e.sys| then r == w
            else exists text: string, n: nat, k: nat :: CompactedAs(e, w, c, r, text, n, k)
  {
    hide Summarize, SummaryMessage, TailStart, SummaryIs;
    if |w.transcript| > |e.sys| {
      var prompt := w.transcript + c.ask;
      var room := e.ctx - |prompt| - 1;
      var (w1, ok1) := Sync(e, w, prompt, c.sync, false);
      var s := Summarize(e, w1, c.steps, Min(room, COMPACT_SUMMARY_MAX_TOKENS), []);
      var k := SummaryOf(e, w1, c.steps, Min(room, COMPACT_SUMMARY_MAX_TOKENS));
      var n := TailStart(e, w.transcript);
      TailInBudget(e, w.transcript);
      var rebuilt := e.sys + e.system(SummaryMessage(s.text)) + w.transcript[n..];
      assert rebuilt == Compacted(e, w.transcript, s.text);
      assert rebuilt + [] == rebuilt;
      assert CompactedAs(e, w, c, Compact(e, w, c).0, s.text, n, k);
    }
  }

  lemma {:induction false} GenerateKeeps(e: Engine, w: Worker, samples: seq<Sample>, budget: int, st: StreamState)
    requires CallsOk(e, w.calls) && w.session == Session(w.transcript, true)
    requires |w.session.tokens| < e.ctx && |w.session.tokens| + budget <= e.ctx - 1
    ensures var r := Generate(e, w, samples, budget, st);
            && CallsOk(e, r.w.calls)
            && (r.Generated? ==> r.w.session == Session(r.w.transcript, true) && |r.w.transcript| < e.ctx)
            && (r.EvalFailed? ==> !r.w.session.valid)
    decreases |samples|
  {
    hide CallsOk, ToolOf, AgentStream.StreamText;
    if budget > 0 && samples != [] && samples[0].token != e.eos {
      EvalKeeps(e, w, samples[0].token, samples[0].evalOk);
      var st1 := AgentStream.StreamText(st, e.text(samples[0].token), false);
      if samples[0].evalOk && ToolOf(st1) == NoTool {
        var w1 := Eval(w, samples[0].token, true).0;
        GenerateKeeps(e, w1.(transcript := w1.transcript + [samples[0].token]), samples[1..], budget - 1, st1);
      }
    }
  }

  lemma AssistantKeeps(e: Engine, w: Worker, r: Round)
    requires Inv(e, w)
    ensures Inv(e, AssistantPart(e, w, r).w)
  {
    hide CallsOk, Generate, AgentStream.StreamText;
    var w1 := w.(transcript := w.transcript + e.assistantPrefix);
    SyncKeeps(e, w1, w1.transcript, r.sync, true);
    var (w2, ok) := Sync(e, w1, w1.transcript, r.sync, true);
    if ok { GenerateKeeps(e, w2, r.samples, MaxTokens(e, |w2.session.tokens|), Fresh(e)); }
  }

  // ---------- what a round appends, and what it runs ----------

  function TokensOf(samples: seq<Sample>): Tokens {
    seq(|samples|, i requires 0 <= i < |samples| => samples[i].token)
  }

  /** The stream after some tokens of a message. */
  function StreamAfter(e: Engine, st: StreamState, tokens: Tokens): StreamState {
    AgentStream.StreamText(st, MessageText(e, tokens), false)
  }

  /** The message is exactly the first `k` sampled tokens: none is the end token, each was
      evaluated, no stanza ended before the last of them; and generation stopped for the end of a
      stanza, the budget, an interrupt or the end token. */
  ghost predicate StopsAt(e: Engine, st: StreamState, samples: seq<Sample>, budget: int, k: nat, tool: ToolState) {
    && k <= |samples| && (k == 0 || k <= budget)
    && (forall i :: 0 <= i < k ==> samples[i].token != e.eos && samples[i].evalOk)
    && (forall i :: 0 < i < k ==> ToolOf(StreamAfter(e, st, TokensOf(samples[..i]))) == NoTool)
    && tool == (if k == 0 then NoTool else ToolOf(StreamAfter(e, st, TokensOf(samples[..k]))))
    && (tool != NoTool || k >= budget || k == |samples| || samples[k].token == e.eos)
  }

  /** A stream state that any text leaves equal to itself when nothing is read. */
  ghost predicate Settled(st: StreamState) {
    AgentStream.StreamText(st, [], false) == st
  }

  lemma {:induction false} PieceSettled(st: StreamState, a: string)
    ensures Settled(AgentStream.StreamText(st, a, false))
  {
    hide AgentStream.StreamText;
    OneMorePiece(st, a, []);
    assert a + [] == a;
  }

  lemma {:induction false} StreamStep(e: Engine, st: StreamState, t: int, tokens: Tokens)
    ensures StreamAfter(e, AgentStream.StreamText(st, e.text(t), false), tokens) == StreamAfter(e, st, [t] + tokens)
  {
    hide AgentStream.StreamText;
    OneMorePiece(st, e.text(t), MessageText(e, tokens));
    assert ([t] + tokens)[1..] == tokens;
  }

  lemma {:induction false} GenerateShape(e: Engine, w: Worker, samples: seq<Sample>, budget: int, st: StreamState)
    returns (k: nat)
    requires Generate(e, w, samples, budget, st).Generated? && Settled(st)
    ensures var r := Generate(e, w, samples, budget, st);
            && StopsAt(e, st, samples, budget, k, r.tool)
            && r.w.transcript == w.transcript + TokensOf(samples[..k])
            && r.stream == StreamAfter(e, st, TokensOf(samples[..k]))
    decreases |samples|
  {
    hide AgentStream.StreamText, ToolOf;
    if budget <= 0 || samples == [] || samples[0].token == e.eos {
      k := 0;
      assert TokensOf(samples[..0]) == [] && w.transcript + [] == w.transcript;
    } else {
      var t := samples[0].token;
      var w1 := Eval(w, t, true).0;
      var w2 := w1.(transcript := w1.transcript + [t]);
      var st1 := AgentStream.StreamText(st, e.text(t), false);
      PieceSettled(st, e.text(t));
      StreamStep(e, st, t, []);
      assert [t] + [] == [t];
      assert StreamAfter(e, st1, []) == st1;
      assert TokensOf(samples[..1]) == [t];
      if ToolOf(st1) != NoTool {
        k := 1;
      } else {
        var rest := GenerateShape(e, w2, samples[1..], budget - 1, st1);
        k := rest + 1;
        TakenMore(samples, rest);
        StreamStep(e, st, t, TokensOf(samples[1..][..rest]));
        assert w.transcript + [t] + TokensOf(samples[1..][..rest]) == w.transcript + TokensOf(samples[..k]);
        EarlierPieces(e, st, samples, rest);
      }
    }
  }

  /** No stanza ended in the first piece, nor, seen from there, before the last. */
  lemma {:induction false} EarlierPieces(e: Engine, st: StreamState, samples: seq<Sample>, rest: nat)
    requires rest < |samples|
    requires var st1 := AgentStream.StreamText(st, e.text(samples[0].token), false);
             && ToolOf(st1) == NoTool && Settled(st1)
             && forall i :: 0 < i < rest ==> ToolOf(StreamAfter(e, st1, TokensOf(samples[1..][..i]))) == NoTool
    ensures forall i :: 0 < i < rest + 1 ==> ToolOf(StreamAfter(e, st, TokensOf(samples[..i]))) == NoTool
  {
    hide AgentStream.StreamText, ToolOf;
    var t := samples[0].token;
    forall i | 0 < i < rest + 1 ensures ToolOf(StreamAfter(e, st, TokensOf(samples[..i]))) == NoTool {
      TakenMore(samples, i - 1);
      StreamStep(e, st, t, TokensOf(samples[1..][..i - 1]));
      if i == 1 { assert TokensOf(samples[1..][..0]) == []; }
    }
  }

  lemma TakenMore(samples: seq<Sample>, rest: nat)
    requires rest < |samples|
    ensures TokensOf(samples[..rest + 1]) == [samples[0].token] + TokensOf(samples[1..][..rest])
  {
  }

  /** A round without compaction appends the assistant prefix, the sampled tokens and the end
      token, and nothing else: user interjections never rewind the session.  The calls it asks for
      are those of the whole message, and it asks for them only when that message holds a complete
      call and no tool markup was read as thinking. */
  lemma {:induction false} AssistantAppends(e: Engine, w: Worker, r: Round) returns (k: nat)
    requires AssistantPart(e, w, r).Said?
    ensures var a := AssistantPart(e, w, r);
            var whole := Whole(e.thinking, MessageText(e, a.message));
            && k <= |r.samples| && a.message == TokensOf(r.samples[..k])
            && a.w.transcript == w.transcript + e.assistantPrefix + a.message + [e.eos]
            && StopsAt(e, Fresh(e), r.samples, MaxTokens(e, |w.transcript + e.assistantPrefix|), k,
                       if k == 0 then NoTool else ToolOf(StreamAfter(e, Fresh(e), a.message)))
            && a.asked == whole.parser.calls
            && (a.tool == ToolDone ==> RunOk(e, a.asked, a.message))
            && (whole.mark ==> a.tool == ToolError && a.error == NOT_ALLOWED)
  {
    hide Generate, AgentStream.StreamText, ToolOf, Whole, AgentStreamProofs.Executes;
    var w1 := w.(transcript := w.transcript + e.assistantPrefix);
    var w2 := Sync(e, w1, w1.transcript, r.sync, true).0;
    var g := Generate(e, w2, r.samples, MaxTokens(e, |w2.session.tokens|), Fresh(e));
    NothingRead(e.thinking);
    k := GenerateShape(e, w2, r.samples, MaxTokens(e, |w2.session.tokens|), Fresh(e));
    assert (w1.transcript + TokensOf(r.samples[..k]))[|w1.transcript|..] == TokensOf(r.samples[..k]);
    MessageIsStream(e, TokensOf(r.samples[..k]));
  }

  /** The end of a message, seen from its tokens. */
  lemma {:induction false} MessageIsStream(e: Engine, message: Tokens)
    ensures var st := StreamAfter(e, Fresh(e), message);
            var whole := Whole(e.thinking, MessageText(e, message));
            && AgentStream.StreamText(st, [], true).s == whole
            && (ToolOf(st) == ToolDone && !whole.mark ==> AgentStreamProofs.Executes(whole))
  {
    MessageEnds(e.thinking, MessageText(e, message));
    hide Whole, AgentStreamProofs.Executes, ToolOf;
  }

  lemma ToolStepKeeps(e: Engine, w: Worker, r: Round)
    requires Inv(e, w) && AssistantPart(e, w, r).Said?
    ensures Inv(e, ToolStep(e, r, AssistantPart(e, w, r)).0)
  {
    hide AssistantPart, RunOk;
    AssistantKeeps(e, w, r);
    var k := AssistantAppends(e, w, r);
  }

  lemma DeliverKeeps(e: Engine, w: Worker, r: Round, result: string)
    requires Inv(e, w)
    ensures Inv(e, DeliverResult(e, w, r, result).0)
  {
    hide CallsOk, Compact;
    CompactKeeps(e, w, r.makeRoom);
  }

  lemma {:induction false} RoundsKeep(e: Engine, w: Worker, first: bool, rounds: seq<Round>)
    requires Inv(e, w)
    ensures Inv(e, Rounds(e, w, first, rounds).0)
    decreases |rounds|
  {
    hide CallsOk, Compact, AssistantPart, DeliverResult, ShouldCompact, ToolStep;
    if rounds != [] {
      var r := rounds[0];
      CompactKeeps(e, w, r.compact);
      var (w0, ok) := if first then (w, true) else CompactIfNeeded(e, w, r.compact);
      AssistantKeeps(e, w0, r);
      var a := AssistantPart(e, w0, r);
      if ok && a.Said? && a.tool != NoTool && !r.queued {
        var (w1, result) := ToolStep(e, r, a);
        ToolStepKeeps(e, w0, r);
        DeliverKeeps(e, w1, r, result);
        RoundsKeep(e, DeliverResult(e, w1, r, result).0, false, rounds[1..]);
      }
    }
  }

  lemma TurnKeeps(e: Engine, w: Worker, t: Turn)
    requires Inv(e, w)
    ensures Inv(e, RunTurn(e, w, t).0)
  {
    hide CallsOk, Compact, Rounds, ShouldCompact;
    CompactKeeps(e, w, t.compact);
    var (w0, ok) := CompactIfNeeded(e, w, t.compact);
    RoundsKeep(e, w0.(transcript := w0.transcript + e.user(t.user)), true, t.rounds);
  }

  /** Over every run of turns, whatever the engine answers and wherever it fails: at each turn
      boundary the live session is a prefix of the transcript; every sync the turn loop made
      only extended the session; no evaluation went past the last position but one. */
  lemma {:induction false} SessionFollowsTranscript(e: Engine, w: Worker, turns: seq<Turn>)
    requires Inv(e, w)
    ensures var r := RunTurns(e, w, turns);
            && (r.session.valid ==> r.session.tokens <= r.transcript)
            && (forall i :: 0 <= i < |r.calls| && r.calls[i].SyncCall? && r.calls[i].turn ==>
                  r.calls[i].live <= r.calls[i].prompt)
            && (forall i :: 0 <= i < |r.calls| && r.calls[i].EvalCall? ==> r.calls[i].pos <= e.ctx - 1)
    decreases |turns|
  {
    hide RunTurn;
    if turns != [] {
      TurnKeeps(e, w, turns[0]);
      SessionFollowsTranscript(e, RunTurn(e, w, turns[0]).0, turns[1..]);
    }
  }

  /** Over every run of turns, whatever the engine samples and wherever it fails: the calls that
      were run are exactly those of a whole sampled message that holds a complete stanza, and no
      tool markup of that message was read as thinking. */
  lemma {:induction false} OnlyWholeCallsRun(e: Engine, w: Worker, turns: seq<Turn>, i: nat)
    requires Inv(e, w) && i < |RunTurns(e, w, turns).calls| && RunTurns(e, w, turns).calls[i].ToolRun?
    ensures var run := RunTurns(e, w, turns).calls[i];
            var whole := Whole(e.thinking, MessageText(e, run.message));
            && whole.parser.phase == Dsml.Done && whole.parser.calls == run.asked
            && !AgentStreamProofs.Marked(whole.thought)
  {
    hide RunTurn, Inv, Whole, AgentStreamProofs.Marked;
    RunsKeep(e, w, turns);
    assert CallsOk(e, RunTurns(e, w, turns).calls) by { InvCalls(e, RunTurns(e, w, turns)); }
    WholeUnmarked(e.thinking, MessageText(e, RunTurns(e, w, turns).calls[i].message));
  }

  lemma InvCalls(e: Engine, w: Worker)
    requires Inv(e, w)
    ensures CallsOk(e, w.calls)
  {
  }

  lemma {:induction false} RunsKeep(e: Engine, w: Worker, turns: seq<Turn>)
    requires Inv(e, w)
    ensures Inv(e, RunTurns(e, w, turns))
    decreases |turns|
  {
    hide RunTurn, Inv;
    if turns != [] {
      TurnKeeps(e, w, turns[0]);
      RunsKeep(e, RunTurn(e, w, turns[0]).0, turns[1..]);
    }
  }

  // ---------- room for the next round ----------

  /** The workers at the start of each round of a turn. */
  function RoundStarts(e: Engine, w: Worker, first: bool, rounds: seq<Round>): seq<Worker>
    decreases |rounds|
  {
    if rounds == [] then [w]
    else
      var r := rounds[0];
      var (w0, ok) := if first then (w, true) else CompactIfNeeded(e, w, r.compact);
      if !ok then [w]
      else
        var a := AssistantPart(e, w0, r);
        if a.SaidNothing? || a.tool == NoTool || r.queued then [w]
        else
          var (w1, result) := ToolStep(e, r, a);
          var (w2, delivered) := DeliverResult(e, w1, r, result);
          if !delivered then [w] else [w] + RoundStarts(e, w2, false, rounds[1..])
  }

  ghost predicate Roomy(e: Engine, w: Worker) {
    |w.transcript| + TOOL_ERROR_RESERVE_TOKENS < e.ctx
  }

  lemma DeliveredRoomy(e: Engine, w: Worker, r: Round, result: string)
    requires DeliverResult(e, w, r, result).1
    ensures Roomy(e, DeliverResult(e, w, r, result).0)
  {
    hide Compact;
  }

  lemma {:induction false} StartsRoomy(e: Engine, w: Worker, first: bool, rounds: seq<Round>)
    ensures RoundStarts(e, w, first, rounds) != [] && RoundStarts(e, w, first, rounds)[0] == w
    ensures forall i :: 0 < i < |RoundStarts(e, w, first, rounds)| ==> Roomy(e, RoundStarts(e, w, first, rounds)[i])
    decreases |rounds|
  {
    hide CompactIfNeeded, AssistantPart, ToolStep, DeliverResult, Roomy;
    if rounds != [] {
      var r := rounds[0];
      var (w0, ok) := if first then (w, true) else CompactIfNeeded(e, w, r.compact);
      var a := AssistantPart(e, w0, r);
      if ok && a.Said? && a.tool != NoTool && !r.queued {
        var (w1, result) := ToolStep(e, r, a);
        var (w2, delivered) := DeliverResult(e, w1, r, result);
        if delivered {
          DeliveredRoomy(e, w1, r, result);
          StartsRoomy(e, w2, false, rounds[1..]);
        }
      }
    }
  }

  /** They are the workers the rounds go on from. */
  lemma {:induction false} StartsAreRounds(e: Engine, w: Worker, first: bool, rounds: seq<Round>, i: nat)
    requires i < |RoundStarts(e, w, first, rounds)|
    ensures i <= |rounds|
    ensures Rounds(e, w, first, rounds)
         == Rounds(e, RoundStarts(e, w, first, rounds)[i], first && i == 0, rounds[i..])
    decreases |rounds|
  {
    hide CompactIfNeeded, AssistantPart, ToolStep, DeliverResult;
    if i == 0 {
      StartsRoomy(e, w, first, rounds);
      assert rounds[0..] == rounds;
    } else {
      var r := rounds[0];
      var w0 := if first then w else CompactIfNeeded(e, w, r.compact).0;
      var (w1, result) := ToolStep(e, r, AssistantPart(e, w0, r));
      StartsAreRounds(e, DeliverResult(e, w1, r, result).0, false, rounds[1..], i - 1);
      assert rounds[1..][i - 1..] == rounds[i..];
    }
  }

  /** Every round of a turn behind a delivered result starts with room left, so, unless it
      compacts first, a sync is never refused for want of it: not while the assistant prefix fits
      the reserve. */
  lemma {:induction false} LaterRoundsSync(e: Engine, w: Worker, rounds: seq<Round>, i: nat)
    requires 0 < i < |RoundStarts(e, w, true, rounds)|
    ensures var start := RoundStarts(e, w, true, rounds)[i];
            && i <= |rounds| && Rounds(e, w, true, rounds) == Rounds(e, start, false, rounds[i..])
            && |start.transcript| + TOOL_ERROR_RESERVE_TOKENS < e.ctx
            && (!ShouldCompact(e, |start.transcript|) && 0 < |e.assistantPrefix| <= TOOL_ERROR_RESERVE_TOKENS ==>
                  var w1 := start.(transcript := start.transcript + e.assistantPrefix);
                  && (forall c :: CompactIfNeeded(e, start, c) == (start, true))
                  && Sync(e, w1, w1.transcript, SyncOk, true).1)
  {
    hide RoundStarts, Rounds, Compact;
    StartsAreRounds(e, w, true, rounds, i);
    StartsRoomy(e, w, true, rounds);
    assert Roomy(e, RoundStarts(e, w, true, rounds)[i]);
  }

  // ---------- when there is no way back ----------

  /** A transcript longer than the system prompt that calls for compaction but leaves no room to
      ask for it: every later turn fails and changes nothing. */
  ghost predicate Stuck(e: Engine, w: Worker) {
    |e.sys| < |w.transcript| && ShouldCompact(e, |w.transcript|)
    && e.ctx - |w.transcript| - 1 < COMPACT_SUMMARY_MIN_ROOM
  }

  lemma StuckTurn(e: Engine, w: Worker, t: Turn)
    requires Stuck(e, w)
    ensures RunTurn(e, w, t) == (w, Failed)
  {
    hide Rounds, Sync, Summarize;
    assert |w.transcript + t.compact.ask| >= |w.transcript|;
  }

  lemma {:induction false} StuckForGood(e: Engine, w: Worker, turns: seq<Turn>)
    requires Stuck(e, w)
    ensures RunTurns(e, w, turns) == w
    decreases |turns|
  {
    hide RunTurn, Stuck;
    if turns != [] {
      StuckTurn(e, w, turns[0]);
      StuckForGood(e, w, turns[1..]);
    }
  }

  /** One overlong user message gets there: it is appended before anything checks its length. */
  lemma {:induction false} OverlongMessageSticks(e: Engine, w: Worker, t: Turn, turns: seq<Turn>)
    requires !ShouldCompact(e, |w.transcript|) && t.rounds != [] && e.ctx > 0
    requires var full := w.transcript + e.user(t.user) + e.assistantPrefix; |e.sys| < |full| && e.ctx <= |full|
    ensures var (x, result) := RunTurn(e, w, t);
            && result == Failed
            && x.transcript == w.transcript + e.user(t.user) + e.assistantPrefix
            && RunTurns(e, x, turns) == x
  {
    hide Compact, Generate;
    var x := RunTurn(e, w, t).0;
    StuckForGood(e, x, turns);
  }

  /** Without that a compaction can still succeed: when the rendered request leaves room for a
      summary, one token of text is enough, provided that what it builds fits; and without room
      for the request none succeeds. */
  lemma {:induction false} RoomToCompact(e: Engine, w: Worker, ask: Tokens, token: int)
    requires |e.sys| < |w.transcript|
    ensures e.ctx - |w.transcript + ask| - 1 < COMPACT_SUMMARY_MIN_ROOM ==>
              forall c: CompactScript :: c.ask == ask ==> !Compact(e, w, c).1
    ensures e.ctx - |w.transcript + ask| - 1 >= COMPACT_SUMMARY_MIN_ROOM
            && !Stops(e, token) && e.text(token) != []
            && 0 < |Compacted(e, w.transcript, e.text(token))| < e.ctx ==>
              Compact(e, w, CompactScript(ask, SyncOk, [Propose(token, true), Propose(e.eos, true)], SyncOk, None)).1
  {
    hide Compacted;
    var room := e.ctx - |w.transcript + ask| - 1;
    if room >= COMPACT_SUMMARY_MIN_ROOM && !Stops(e, token) {
      var w1 := Sync(e, w, w.transcript + ask, SyncOk, false).0;
      OneTokenSummary(e, w1, token, Min(room, COMPACT_SUMMARY_MAX_TOKENS));
    }
    hide Summarize;
  }

  lemma {:induction false} OneTokenSummary(e: Engine, w: Worker, token: int, room: nat)
    requires !Stops(e, token) && room >= 2
    ensures var s := Summarize(e, w, [Propose(token, true), Propose(e.eos, true)], room, []);
            s.Text? && s.text == e.text(token) && s.w.transcript == w.transcript
  {
    var steps := [Propose(token, true), Propose(e.eos, true)];
    assert steps[1..] == [Propose(e.eos, true)];
    var w1 := Eval(w, token, true).0;
    assert Summarize(e, w1, steps[1..], room - 1, e.text(token)) == Text(w1, e.text(token));
    assert [] + e.text(token) == e.text(token);
  }
}
