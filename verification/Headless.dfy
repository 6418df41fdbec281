/** Headless mode: the stdin loop and the worker thread, with a one-slot mailbox under the
    mutex and a FIFO in front of it.  A state machine over the steps that other threads can
    observe; each snapshot the loop takes is its own step, so the worker may move in between. */
module Headless {
  import opened Options
  import opened Text

  datatype Status = Idle | Busy | Failed

  datatype WorkerPc = Starting | Started | Waiting | Running | Ended

  // The loop's position, with the snapshots it has taken on this iteration.
  datatype LoopPc =
    | Top
    | AskIdle(initialized: bool)
    | Asked(initialized: bool, idle: bool)
    | SubmitQueued(initialized: bool)   // popped the front of the queue
    | Poll(initialized: bool)
    | Consume
    | MaybeCut
    | CutIdle                           // a prompt was cut from the input
    | SubmitCut
    | QueueCut
    | ExitTest
    | Exited(rc: nat)

  datatype State = State(
    worker: WorkerPc,
    status: Status,
    initialized: bool,
    mailbox: Option<string>,
    running: Option<string>,
    loop: LoopPc,
    held: Option<string>,     // the prompt in the loop's local variable
    queue: seq<string>,
    input: string,
    eof: bool,
    rest: string,             // bytes stdin has still to deliver
    cut: seq<string>,         // every prompt ever cut from the input
    ran: seq<string>,         // every prompt whose turn has ended
    outcomes: seq<bool>)      // how those turns ended

  function Init(stdin: string): State {
    State(Starting, Idle, false, None, None, Top, None, [], [], false, stdin, [], [], [])
  }

  datatype Step =
    | WStartBusy | WStartStatus(ok: bool) | WInitialized
    | WTake | WBusy | WEnd(ok: bool) | WLoop
    | LTop | LIdle | LQueue | LSubmit
    | LPoll(n: nat, eof: bool) | LPollInterrupted | LPollError
    | LConsume | LCut(quiet: bool) | LCutIdle | LExit

  /** worker_is_idle: an error counts as idle. */
  predicate WorkerIdle(s: State) {
    s.initialized && (s.status == Idle || s.status == Failed)
  }

  predicate CanSubmit(s: State) {
    s.initialized && s.status == Idle && s.mailbox.None?
  }

  function Submit(s: State, text: string): State {
    s.(mailbox := Some(text), status := Busy, held := None)
  }

  function Apply(s: State, step: Step): Option<State> {
    match step
    // ---- the worker thread ----
    case WStartBusy =>
      if s.worker == Starting then Some(s.(status := Busy)) else None
    case WStartStatus(ok) =>
      if s.worker == Starting then Some(s.(status := if ok then Idle else Failed, worker := Started)) else None
    case WInitialized =>
      if s.worker == Started then Some(s.(initialized := true, worker := Waiting)) else None
    case WTake =>
      if s.worker == Waiting && s.mailbox.Some? then
        Some(s.(running := s.mailbox, mailbox := None, worker := Running))
      else None
    case WBusy =>
      if s.worker == Running then Some(s.(status := Busy)) else None
    case WEnd(ok) =>
      if s.worker == Running && s.running.Some? then
        Some(s.(status := if ok then Idle else Failed, worker := Ended, running := None,
                ran := s.ran + [s.running.value], outcomes := s.outcomes + [ok]))
      else None
    case WLoop =>
      if s.worker == Ended then Some(s.(worker := Waiting)) else None

    // ---- the stdin loop ----
    case LTop =>
      if s.loop.Top? then Some(s.(loop := AskIdle(s.initialized))) else None
    case LIdle =>
      if s.loop.AskIdle? then Some(s.(loop := Asked(s.loop.initialized, WorkerIdle(s)))) else None
    case LQueue =>
      if !s.loop.Asked? then None
      else if s.queue != [] && s.loop.idle then
        Some(s.(held := Some(s.queue[0]), queue := s.queue[1..], loop := SubmitQueued(s.loop.initialized)))
      else Some(s.(loop := Poll(s.loop.initialized)))
    case LSubmit =>
      if s.held.None? then None
      else if s.loop.SubmitQueued? then
        if CanSubmit(s) then Some(Submit(s, s.held.value).(loop := Poll(s.loop.initialized)))
        else Some(s.(queue := [s.held.value] + s.queue, held := None, loop := Poll(s.loop.initialized)))
      else if s.loop.SubmitCut? then
        if CanSubmit(s) then Some(Submit(s, s.held.value).(loop := ExitTest))
        else Some(s.(queue := s.queue + [s.held.value], held := None, loop := ExitTest))
      else if s.loop.QueueCut? then
        Some(s.(queue := s.queue + [s.held.value], held := None, loop := ExitTest))
      else None
    case LPoll(n, eof) =>
      // stdin is polled only once the worker is initialised and until end of file
      if !s.loop.Poll? || n > |s.rest| then None
      else if (n > 0 || eof) && (!s.loop.initialized || s.eof) then None
      else if eof && n != |s.rest| then None
      else Some(s.(input := s.input + s.rest[..n], rest := s.rest[n..], eof := s.eof || eof, loop := Consume))
    case LPollInterrupted =>
      if s.loop.Poll? then Some(s.(loop := Top)) else None
    case LPollError =>
      if s.loop.Poll? then Some(s.(loop := Exited(1))) else None
    case LConsume =>
      if !s.loop.Consume? then None
      else if s.status == Failed then Some(s.(loop := Exited(1)))
      else Some(s.(loop := MaybeCut))
    case LCut(quiet) =>
      if !s.loop.MaybeCut? then None
      else if s.input != [] && (s.eof || quiet) then
        Some(s.(held := Some(s.input), cut := s.cut + [s.input], input := [], loop := CutIdle))
      else Some(s.(loop := ExitTest))
    case LCutIdle =>
      if !s.loop.CutIdle? then None
      else Some(s.(loop := if WorkerIdle(s) && s.queue == [] then SubmitCut else QueueCut))
    case LExit =>
      if !s.loop.ExitTest? then None
      else if s.eof && s.input == [] && s.queue == [] && WorkerIdle(s) then Some(s.(loop := Exited(0)))
      else Some(s.(loop := Top))
  }

  function Then(o: Option<State>, step: Step): Option<State> {
    if o.None? then None else Apply(o.value, step)
  }

  function Exec(stdin: string, steps: seq<Step>): Option<State> {
    if steps == [] then Some(Init(stdin))
    else Then(Exec(stdin, steps[..|steps| - 1]), steps[|steps| - 1])
  }

  function Opt(o: Option<string>): seq<string> {
    match o case None => [] case Some(t) => [t]
  }

  /** Prompts not yet finished, oldest first.  A prompt in the loop's hands is the oldest of
      the waiting ones when it came off the queue and the newest when it was just cut. */
  function Unfinished(s: State): seq<string> {
    Opt(s.running) + Opt(s.mailbox) + Queued(s.queue, s.held, s.loop.CutIdle? || s.loop.QueueCut?)
  }

  function Queued(queue: seq<string>, held: Option<string>, newest: bool): seq<string> {
    if newest then queue + Opt(held) else Opt(held) + queue
  }

  ghost predicate OrderInv(stdin: string, s: State) {
    && s.cut == s.ran + Unfinished(s)
    && stdin == Flatten(s.cut) + s.input + s.rest
    && (s.eof ==> s.rest == [])
  }

  ghost predicate SlotInv(s: State) {
    && (s.initialized <==> s.worker != Starting && s.worker != Started)
    && (!s.initialized ==> s.mailbox.None? && s.ran == [])
    && (s.running.Some? <==> s.worker == Running)
    && (s.mailbox.Some? ==> s.status == Busy && s.running.None?)
    && (s.running.Some? ==> s.status == Busy)
    && (s.held.Some? <==> s.loop.SubmitQueued? || s.loop.CutIdle? || s.loop.SubmitCut? || s.loop.QueueCut?)
    && (s.loop.SubmitCut? ==> s.queue == [])
    && (s.loop == Exited(0) ==>
          s.eof && s.input == [] && s.queue == [] && s.mailbox.None? && s.running.None?)
    && |s.outcomes| == |s.ran|
    && OnlyLastFailed(s.outcomes, s.status)
  }

  /** A turn that failed is the last one, and the status still says so. */
  ghost predicate OnlyLastFailed(outcomes: seq<bool>, status: Status) {
    forall i :: 0 <= i < |outcomes| && !outcomes[i] ==> i == |outcomes| - 1 && status == Failed
  }

  lemma FlattenSnoc(a: seq<string>, x: string)
    ensures Flatten(a + [x]) == Flatten(a) + x
  {
    FlattenAppend(a, [x]);
    assert Flatten([x]) == x + Flatten<char>([]);
  }

  lemma {:induction false} StepKeepsSlot(s: State, step: Step)
    requires SlotInv(s) && Apply(s, step).Some?
    ensures SlotInv(Apply(s, step).value)
  {
    if WorkerStep(step) {
      WorkerKeepsSlot(s, step);
    } else {
      LoopKeepsSlot(s, step);
    }
  }

  predicate WorkerStep(step: Step) {
    || step.WStartBusy? || step.WStartStatus? || step.WInitialized?
    || step.WTake? || step.WBusy? || step.WEnd? || step.WLoop?
  }

  lemma WorkerKeepsSlot(s: State, step: Step)
    requires SlotInv(s) && WorkerStep(step) && Apply(s, step).Some?
    ensures SlotInv(Apply(s, step).value)
  {
    var t := Apply(s, step).value;
    assert forall i :: 0 <= i < |s.outcomes| ==> t.outcomes[i] == s.outcomes[i];
  }

  lemma LoopKeepsSlot(s: State, step: Step)
    requires SlotInv(s) && !WorkerStep(step) && Apply(s, step).Some?
    ensures SlotInv(Apply(s, step).value)
  {
    if step.LSubmit? {
      SubmitKeepsSlot(s);
    } else {
      hide OnlyLastFailed, CanSubmit, Submit;
    }
  }

  lemma SubmitKeepsSlot(s: State)
    requires SlotInv(s) && Apply(s, LSubmit).Some?
    ensures SlotInv(Apply(s, LSubmit).value)
  {
  }

  /** Handing a prompt along, inside the loop or to the worker, neither loses, repeats nor
      reorders it. */
  lemma {:induction false} HandoffKeepsOrder(s: State, step: Step)
    requires SlotInv(s) && Apply(s, step).Some?
    requires !step.WEnd? && !step.LPoll? && !step.LCut?
    ensures var t := Apply(s, step).value;
            && t.cut == s.cut && t.ran == s.ran && Unfinished(t) == Unfinished(s)
            && t.input == s.input && t.rest == s.rest && t.eof == s.eof
  {
    hide Opt, Queued, Unfinished, SlotInv, CanSubmit, WorkerIdle;
    match step
    case LQueue => PopKeepsOrder(s);
    case LSubmit => SubmitKeepsOrder(s);
    case LCutIdle => CutIdleKeepsOrder(s);
    case WTake => TakeKeepsOrder(s);
    case _ => OtherStepsMoveNothing(s, step);
  }

  lemma OtherStepsMoveNothing(s: State, step: Step)
    requires Apply(s, step).Some?
    requires !step.WEnd? && !step.LPoll? && !step.LCut?
    requires !step.LQueue? && !step.LSubmit? && !step.LCutIdle? && !step.WTake?
    ensures var t := Apply(s, step).value;
            && t.cut == s.cut && t.ran == s.ran && Unfinished(t) == Unfinished(s)
            && t.input == s.input && t.rest == s.rest && t.eof == s.eof
  {
    hide Opt, Queued, CanSubmit, WorkerIdle;
  }

  lemma TakeKeepsOrder(s: State)
    requires SlotInv(s) && Apply(s, WTake).Some?
    ensures Unfinished(Apply(s, WTake).value) == Unfinished(s)
  {
    hide Queued;
    assert Opt(s.mailbox) + Opt(None) == Opt(None) + Opt(s.mailbox);
  }

  /** Held between an empty queue and the mailbox a prompt is both the oldest and the newest. */
  lemma CutIdleKeepsOrder(s: State)
    requires SlotInv(s) && Apply(s, LCutIdle).Some?
    ensures Unfinished(Apply(s, LCutIdle).value) == Unfinished(s)
  {
    hide Opt, SlotInv;
    assert Opt(s.held) + [] == [] + Opt(s.held);
  }

  lemma PopKeepsOrder(s: State)
    requires SlotInv(s) && Apply(s, LQueue).Some?
    ensures Unfinished(Apply(s, LQueue).value) == Unfinished(s)
  {
    hide Queued;
    assert !(s.loop.CutIdle? || s.loop.QueueCut?) && s.held.None?;
    if s.queue != [] {
      HeldFront(s.queue[1..], s.queue[0]);
      HeldFront(s.queue, "");
      assert s.queue == [s.queue[0]] + s.queue[1..];
    }
  }

  lemma HeldFront(queue: seq<string>, x: string)
    ensures Queued(queue, Some(x), false) == Queued([x] + queue, None, false) == [x] + queue
    ensures Queued(queue, Some(x), true) == Queued(queue + [x], None, false) == queue + [x]
    ensures Queued(queue, None, false) == queue
  {
    assert [] + ([x] + queue) == [x] + queue && [] + (queue + [x]) == queue + [x] && [] + queue == queue;
  }

  /** A refused submission puts the prompt back where it came from. */
  lemma SubmitKeepsOrder(s: State)
    requires SlotInv(s) && Apply(s, LSubmit).Some?
    ensures Unfinished(Apply(s, LSubmit).value) == Unfinished(s)
  {
    hide Queued, Opt;
    assert s.held.Some?;
    var x := s.held.value;
    HeldFront(s.queue, x);
    if CanSubmit(s) && !s.loop.QueueCut? {
      assert s.running.None? && s.mailbox.None?;
      SubmitMoves(s.queue, x);
    } else {
      assert s.loop.SubmitCut? ==> s.queue + [x] == [x] + s.queue;
    }
  }

  lemma SubmitMoves(queue: seq<string>, x: string)
    ensures Opt(None) + Opt(None) + Queued(queue, Some(x), false)
         == Opt(None) + Opt(Some(x)) + Queued(queue, None, false)
  {
    HeldFront(queue, x);
    hide Queued;
    assert [] + [] + ([x] + queue) == [] + [x] + queue;
  }

  lemma EndKeepsOrder(stdin: string, s: State, ok: bool)
    requires SlotInv(s) && OrderInv(stdin, s) && Apply(s, WEnd(ok)).Some?
    ensures OrderInv(stdin, Apply(s, WEnd(ok)).value)
  {
    hide Queued, OnlyLastFailed, Flatten;
    var t := Apply(s, WEnd(ok)).value;
    var (x, later) := (s.running.value, Opt(s.mailbox) + Queued(s.queue, s.held, s.loop.CutIdle? || s.loop.QueueCut?));
    assert Unfinished(s) == [x] + later && Unfinished(t) == later;
    assert s.ran + ([x] + later) == s.ran + [x] + later;
  }

  lemma PollKeepsOrder(stdin: string, s: State, n: nat, eof: bool)
    requires OrderInv(stdin, s) && Apply(s, LPoll(n, eof)).Some?
    ensures OrderInv(stdin, Apply(s, LPoll(n, eof)).value)
  {
    hide Queued, Opt, Flatten;
    var t := Apply(s, LPoll(n, eof)).value;
    var (a, b, r) := (Flatten(s.cut), s.input, s.rest);
    assert r == r[..n] + r[n..];
    assert a + b + r == a + (b + r[..n]) + r[n..];
    assert Unfinished(t) == Unfinished(s);
  }

  lemma CutKeepsOrder(stdin: string, s: State, quiet: bool)
    requires SlotInv(s) && OrderInv(stdin, s) && Apply(s, LCut(quiet)).Some?
    ensures OrderInv(stdin, Apply(s, LCut(quiet)).value)
  {
    hide Opt, Queued, Flatten;
    var t := Apply(s, LCut(quiet)).value;
    if t.held.Some? {
      FlattenSnoc(s.cut, s.input);
      HeldFront(s.queue, s.input);
      assert Unfinished(t) == Unfinished(s) + [s.input];
      assert s.ran + Unfinished(s) + [s.input] == t.ran + Unfinished(t);
      assert Flatten(t.cut) + t.input + t.rest == Flatten(s.cut) + s.input + s.rest;
    }
  }

  lemma {:induction false} StepKeepsOrder(stdin: string, s: State, step: Step)
    requires SlotInv(s) && OrderInv(stdin, s) && Apply(s, step).Some?
    ensures OrderInv(stdin, Apply(s, step).value)
  {
    hide Apply, SlotInv, Unfinished;
    match step
    case WEnd(ok) => EndKeepsOrder(stdin, s, ok);
    case LPoll(n, eof) => PollKeepsOrder(stdin, s, n, eof);
    case LCut(quiet) => CutKeepsOrder(stdin, s, quiet);
    case _ => HandoffKeepsOrder(s, step);
  }

  lemma {:induction false} RunKeepsInv(stdin: string, steps: seq<Step>)
    requires Exec(stdin, steps).Some?
    ensures SlotInv(Exec(stdin, steps).value) && OrderInv(stdin, Exec(stdin, steps).value)
    decreases |steps|
  {
    hide Apply, SlotInv, OrderInv;
    if steps == [] {
      StartInv(stdin);
    } else {
      var before := steps[..|steps| - 1];
      RunKeepsInv(stdin, before);
      StepKeepsSlot(Exec(stdin, before).value, steps[|steps| - 1]);
      StepKeepsOrder(stdin, Exec(stdin, before).value, steps[|steps| - 1]);
    }
  }

  lemma StartInv(stdin: string)
    ensures SlotInv(Init(stdin)) && OrderInv(stdin, Init(stdin))
  {
    assert Flatten<char>([]) + [] + stdin == stdin;
  }

  /** Exactly once and in order, in every reachable state: what has run, what is waiting
      anywhere and what is still being typed are together the input, in its order. */
  lemma {:induction false} ExactlyOnceInOrder(stdin: string, steps: seq<Step>)
    requires Exec(stdin, steps).Some?
    ensures var s := Exec(stdin, steps).value;
            && s.cut == s.ran + Unfinished(s)
            && stdin == Flatten(s.ran + Unfinished(s)) + s.input + s.rest
  {
    RunKeepsInv(stdin, steps);
  }

  /** The mailbox is never overwritten: a waiting command leaves it only by being taken. */
  lemma {:induction false} NeverOverwritten(stdin: string, steps: seq<Step>, step: Step)
    requires Exec(stdin, steps).Some? && Exec(stdin, steps + [step]).Some?
    requires Exec(stdin, steps).value.mailbox.Some?
    ensures var s, t := Exec(stdin, steps).value, Exec(stdin, steps + [step]).value;
            t.mailbox == s.mailbox || (step == WTake && t.mailbox.None? && t.running == s.mailbox)
  {
    assert (steps + [step])[..|steps|] == steps;
    RunKeepsInv(stdin, steps);
  }

  /** Exit status 0 is reached only after all of stdin was cut into prompts and every prompt
      was run; all of them but possibly the last without an error. */
  lemma {:induction false} ExitZeroRanAll(stdin: string, steps: seq<Step>)
    requires Exec(stdin, steps).Some? && Exec(stdin, steps).value.loop == Exited(0)
    ensures var s := Exec(stdin, steps).value;
            && Flatten(s.ran) == stdin && s.ran == s.cut && |s.outcomes| == |s.ran|
            && forall i :: 0 <= i < |s.ran| - 1 ==> s.outcomes[i]
  {
    RunKeepsInv(stdin, steps);
    var s := Exec(stdin, steps).value;
    assert Unfinished(s) == [];
    assert s.ran + [] == s.ran;
    assert Flatten(s.cut) + [] + [] == Flatten(s.cut);
  }

  ghost predicate Reachable(stdin: string, s: State) {
    exists steps :: Exec(stdin, steps) == Some(s)
  }

  lemma Reach(stdin: string, s: State, step: Step) returns (t: State)
    requires Reachable(stdin, s) && Apply(s, step).Some?
    ensures Apply(s, step) == Some(t) && Reachable(stdin, t)
  {
    var steps :| Exec(stdin, steps) == Some(s);
    t := Apply(s, step).value;
    assert (steps + [step])[..|steps|] == steps;
    assert Exec(stdin, steps + [step]) == Some(t);
  }

  /** A loop iteration with nothing to read and nothing queued, up to the status snapshot. */
  lemma QuietIteration(stdin: string, s: State) returns (t: State)
    requires Reachable(stdin, s) && s.loop == Top && s.queue == [] && s.status != Failed
    ensures Reachable(stdin, t) && t == s.(loop := MaybeCut)
  {
    hide Reachable;
    t := Reach(stdin, s, LTop);
    t := Reach(stdin, t, LIdle);
    t := Reach(stdin, t, LQueue);
    t := Reach(stdin, t, LPoll(0, false));
    assert s.input + s.rest[..0] == s.input && s.rest[0..] == s.rest;
    t := Reach(stdin, t, LConsume);
  }

  lemma ReadAll(stdin: string, s: State) returns (t: State)
    requires Reachable(stdin, s) && s.loop == Top && s.queue == [] && s.status != Failed
    requires s.initialized && !s.eof && s.input == []
    ensures Reachable(stdin, t) && t == s.(input := s.rest, rest := [], eof := true, loop := MaybeCut)
  {
    hide Reachable;
    t := Reach(stdin, s, LTop);
    t := Reach(stdin, t, LIdle);
    t := Reach(stdin, t, LQueue);
    t := Reach(stdin, t, LPoll(|s.rest|, true));
    assert [] + s.rest[..|s.rest|] == s.rest && s.rest[|s.rest|..] == [];
    t := Reach(stdin, t, LConsume);
  }

  /** One prompt read, cut and submitted while the worker is ready. */
  lemma OnePromptSubmitted(stdin: string) returns (t: State)
    requires stdin != []
    ensures Reachable(stdin, t)
    ensures t == State(Waiting, Busy, true, Some(stdin), None, Top, None, [], [], true, [], [stdin], [], [])
  {
    hide Reachable;
    assert Reachable(stdin, Init(stdin)) by { StartReachable(stdin); }
    t := Reach(stdin, Init(stdin), WStartStatus(true));
    t := Reach(stdin, t, WInitialized);
    t := ReadAll(stdin, t);
    t := CutAndSubmit(stdin, t);
  }

  lemma CutAndSubmit(stdin: string, s: State) returns (t: State)
    requires Reachable(stdin, s) && s.loop == MaybeCut && s.eof && s.input != [] && s.queue == [] && CanSubmit(s)
    ensures Reachable(stdin, t)
    ensures t == s.(mailbox := Some(s.input), status := Busy, held := None,
                    cut := s.cut + [s.input], input := [], loop := Top)
  {
    hide Reachable;
    t := Reach(stdin, s, LCut(false));
    t := Reach(stdin, t, LCutIdle);
    t := Reach(stdin, t, LSubmit);
    t := Reach(stdin, t, LExit);
  }

  lemma StartReachable(stdin: string)
    ensures Reachable(stdin, Init(stdin))
  {
    assert Exec(stdin, []) == Some(Init(stdin));
  }

  /** Exit status 0 does not mean that the last turn succeeded: an error set between the
      status snapshot and the final idle test is taken for idleness.  Any nonempty input can
      end this way. */
  lemma {:induction false} ExitZeroAfterFailure(stdin: string) returns (t: State)
    requires stdin != []
    ensures Reachable(stdin, t)
    ensures t.loop == Exited(0) && t.ran == [stdin] && t.outcomes == [false] && t.status == Failed
  {
    hide Reachable;
    t := OnePromptSubmitted(stdin);
    t := Reach(stdin, t, WTake);
    t := QuietIteration(stdin, t);
    t := Reach(stdin, t, LCut(false));
    t := Reach(stdin, t, WEnd(false));
    t := Reach(stdin, t, LExit);
  }

  // ---------- exactly when a failure is missed ----------

  /** No empty prompt is ever cut, so without input there are no turns. */
  ghost predicate NonemptyInv(s: State) {
    && (forall i :: 0 <= i < |s.cut| ==> s.cut[i] != [])
    && (s.cut == [] ==> s.outcomes == [])
  }

  lemma StepKeepsNonempty(stdin: string, s: State, step: Step)
    requires SlotInv(s) && OrderInv(stdin, s) && NonemptyInv(s) && Apply(s, step).Some?
    ensures NonemptyInv(Apply(s, step).value)
  {
    hide SlotInv, OrderInv, Unfinished;
    CutFrame(s, step);
    RanWasCut(stdin, s);
    hide Apply;
  }

  /** Only a cut adds to the prompts, only the end of a turn to the outcomes. */
  lemma CutFrame(s: State, step: Step)
    requires SlotInv(s) && Apply(s, step).Some?
    ensures var t := Apply(s, step).value;
            && (t.cut == s.cut || (s.input != [] && t.cut == s.cut + [s.input]))
            && (t.outcomes == s.outcomes || s.running.Some?)
  {
  }

  /** A prompt that is running was cut. */
  lemma RanWasCut(stdin: string, s: State)
    requires OrderInv(stdin, s)
    ensures s.running.Some? ==> s.cut != []
  {
    hide Queued;
    assert s.running.Some? ==> Unfinished(s) != [];
  }

  lemma {:induction false} RunKeepsNonempty(stdin: string, steps: seq<Step>)
    requires Exec(stdin, steps).Some?
    ensures NonemptyInv(Exec(stdin, steps).value)
    decreases |steps|
  {
    hide Apply, SlotInv, OrderInv, NonemptyInv;
    if steps == [] {
      assert NonemptyInv(Init(stdin)) by { NothingCut(stdin); }
    } else {
      var before := steps[..|steps| - 1];
      RunKeepsInv(stdin, before);
      RunKeepsNonempty(stdin, before);
      StepKeepsNonempty(stdin, Exec(stdin, before).value, steps[|steps| - 1]);
    }
  }

  lemma NothingCut(stdin: string)
    ensures NonemptyInv(Init(stdin))
  {
  }

  ghost predicate SomeFailed(s: State) {
    exists i :: 0 <= i < |s.outcomes| && !s.outcomes[i]
  }

  /** Some run exits with status 0 after a failed turn if and only if there is any input. */
  lemma {:induction false} FailureCanBeMissed(stdin: string)
    ensures (exists s :: Reachable(stdin, s) && s.loop == Exited(0) && SomeFailed(s)) <==> stdin != []
  {
    if stdin != [] {
      var t := ExitZeroAfterFailure(stdin);
      assert !t.outcomes[0];
    } else {
      forall s | Reachable(stdin, s) && s.loop == Exited(0) ensures !SomeFailed(s) {
        var steps :| Exec(stdin, steps) == Some(s);
        RunKeepsNonempty(stdin, steps);
        ExitZeroRanAll(stdin, steps);
        FlattenNonempty(s.cut);
      }
    }
  }

  lemma FlattenNonempty(parts: seq<string>)
    requires forall i :: 0 <= i < |parts| ==> parts[i] != []
    ensures parts != [] ==> Flatten(parts) != []
  {
  }

  /** A turn ended in failure after the last status snapshot. */
  ghost predicate FailedUnseen(steps: seq<Step>) {
    exists j :: FailsUnseenAt(steps, j)
  }

  ghost predicate FailsUnseenAt(steps: seq<Step>, j: int) {
    0 <= j < |steps| && steps[j] == WEnd(false) && forall k :: j < k < |steps| ==> steps[k] != LConsume
  }

  lemma FailedUnseenSnoc(steps: seq<Step>, step: Step)
    ensures FailedUnseen(steps + [step]) <==> step == WEnd(false) || (FailedUnseen(steps) && step != LConsume)
  {
    var all := steps + [step];
    if step == WEnd(false) { assert FailsUnseenAt(all, |steps|); }
    if FailedUnseen(steps) && step != LConsume {
      var j :| FailsUnseenAt(steps, j);
      assert FailsUnseenAt(all, j);
    }
    if FailedUnseen(all) && step != WEnd(false) {
      var j :| FailsUnseenAt(all, j);
      assert all[|steps|] == step;
      forall k | j < k < |steps| ensures steps[k] != LConsume { assert all[k] == steps[k]; }
      assert FailsUnseenAt(steps, j);
    }
  }

  lemma StepKeepsFailed(s: State, step: Step)
    requires SlotInv(s) && Apply(s, step).Some? && s.loop != Exited(1)
    ensures var t := Apply(s, step).value;
            t.loop != Exited(1) ==> (SomeFailed(t) <==> step == WEnd(false) || (SomeFailed(s) && step != LConsume))
  {
    var t := Apply(s, step).value;
    if step.WEnd? {
      assert t.outcomes[|s.outcomes|] == step.ok;
      assert forall i :: 0 <= i < |s.outcomes| ==> t.outcomes[i] == s.outcomes[i];
    } else {
      assert t.outcomes == s.outcomes;
    }
  }

  lemma {:induction false} FailedIsUnseen(stdin: string, steps: seq<Step>)
    requires Exec(stdin, steps).Some? && Exec(stdin, steps).value.loop != Exited(1)
    ensures SomeFailed(Exec(stdin, steps).value) <==> FailedUnseen(steps)
    decreases |steps|
  {
    hide Apply, SlotInv, SomeFailed, FailedUnseen;
    if steps == [] {
      assert !SomeFailed(Init(stdin)) && !FailedUnseen([]) by { NothingFailed(stdin); }
    } else {
      var before, step := steps[..|steps| - 1], steps[|steps| - 1];
      var s := Exec(stdin, before).value;
      RunKeepsInv(stdin, before);
      ExitedStays(s, step);
      FailedIsUnseen(stdin, before);
      StepKeepsFailed(s, step);
      FailedUnseenSnoc(before, step);
      assert before + [step] == steps;
    }
  }

  lemma NothingFailed(stdin: string)
    ensures !SomeFailed(Init(stdin)) && !FailedUnseen([])
  {
  }

  lemma ExitedStays(s: State, step: Step)
    requires Apply(s, step).Some?
    ensures s.loop == Exited(1) ==> Apply(s, step).value.loop == Exited(1)
  {
  }

  /** A run that exits with status 0 had a failed turn exactly when a turn failed after the last
      status snapshot; then it was the last turn and the status still says so. */
  lemma {:induction false} MissedFailure(stdin: string, steps: seq<Step>)
    requires Exec(stdin, steps).Some? && Exec(stdin, steps).value.loop == Exited(0)
    ensures var s := Exec(stdin, steps).value;
            && (SomeFailed(s) <==> FailedUnseen(steps))
            && (SomeFailed(s) ==> !s.outcomes[|s.outcomes| - 1] && s.status == Failed)
  {
    hide FailedUnseen;
    RunKeepsInv(stdin, steps);
    FailedIsUnseen(stdin, steps);
  }

  // ---------- nothing is left waiting for ever ----------

  function ExecFrom(s: State, steps: seq<Step>): Option<State> {
    if steps == [] then Some(s) else Then(ExecFrom(s, steps[..|steps| - 1]), steps[|steps| - 1])
  }

  ghost predicate Leads(s: State, t: State) {
    exists steps :: ExecFrom(s, steps) == Some(t)
  }

  /** A busy status has a reason. */
  ghost predicate BusyInv(s: State) {
    s.status == Busy ==> s.mailbox.Some? || s.running.Some? || s.worker == Starting
  }

  /** A state in the middle of a run that can still go on well. */
  ghost predicate Alive(s: State) {
    SlotInv(s) && BusyInv(s) && s.status != Failed && !s.loop.Exited?
  }

  lemma StepKeepsBusy(s: State, step: Step)
    requires SlotInv(s) && BusyInv(s) && Apply(s, step).Some?
    ensures BusyInv(Apply(s, step).value)
  {
    hide OnlyLastFailed;
  }

  lemma Go(s: State, t: State, step: Step) returns (u: State)
    requires Leads(s, t) && SlotInv(t) && BusyInv(t) && Apply(t, step).Some?
    ensures Apply(t, step) == Some(u) && Leads(s, u) && SlotInv(u) && BusyInv(u)
  {
    hide Apply, SlotInv, BusyInv;
    var steps :| ExecFrom(s, steps) == Some(t);
    u := Apply(t, step).value;
    assert (steps + [step])[..|steps|] == steps;
    assert ExecFrom(s, steps + [step]) == Some(u);
    StepKeepsSlot(t, step);
    StepKeepsBusy(t, step);
  }

  /** The worker waits for a command and nothing is under way. */
  predicate Ready(s: State) {
    s.worker == Waiting && s.mailbox.None? && s.running.None? && s.status == Idle && s.initialized
  }

  /** The worker alone finishes what it has, every turn without an error. */
  lemma FinishWorker(s: State, t: State) returns (u: State)
    requires Leads(s, t) && SlotInv(t) && BusyInv(t) && t.status != Failed
    ensures Leads(s, u) && SlotInv(u) && BusyInv(u) && Ready(u)
    ensures u == t.(worker := Waiting, mailbox := None, running := None, status := Idle, initialized := true,
                    ran := u.ran, outcomes := u.outcomes)
  {
    hide Leads, OnlyLastFailed;
    u := t;
    if u.worker == Starting { u := Go(s, u, WStartStatus(true)); }
    if u.worker == Started { u := Go(s, u, WInitialized); }
    if u.worker == Running { u := Go(s, u, WEnd(true)); }
    if u.worker == Ended { u := Go(s, u, WLoop); }
    if u.mailbox.Some? {
      u := Go(s, u, WTake);
      u := Go(s, u, WEnd(true));
      u := Go(s, u, WLoop);
    }
  }

  /** The loop's next step when there is nothing to read. */
  function NextStep(loop: LoopPc): Step {
    match loop
    case Top => LTop
    case AskIdle(_) => LIdle
    case Asked(_, _) => LQueue
    case SubmitQueued(_) => LSubmit
    case Poll(_) => LPollInterrupted
    case Consume => LConsume
    case MaybeCut => LCut(false)
    case CutIdle => LCutIdle
    case SubmitCut => LSubmit
    case QueueCut => LSubmit
    case ExitTest => LExit
    case Exited(_) => LTop
  }

  function Rank(loop: LoopPc): nat {
    match loop
    case AskIdle(_) => 9
    case Asked(_, _) => 8
    case SubmitQueued(_) => 7
    case Poll(_) => 6
    case Consume => 5
    case MaybeCut => 4
    case CutIdle => 3
    case SubmitCut => 2
    case QueueCut => 2
    case ExitTest => 1
    case _ => 0
  }

  lemma NextStepRuns(s: State)
    requires SlotInv(s) && s.status != Failed && s.loop != Top && !s.loop.Exited?
    ensures Apply(s, NextStep(s.loop)).Some?
    ensures var t := Apply(s, NextStep(s.loop)).value;
            t.status != Failed && t.loop != Exited(1) && Rank(t.loop) < Rank(s.loop)
            && (t.loop.Exited? ==> t.loop == Exited(0))
  {
    hide OnlyLastFailed;
  }

  /** From anywhere in an iteration the loop comes to its top, or to the end. */
  lemma {:induction false} FinishIteration(s: State, t: State) returns (u: State)
    requires Leads(s, t) && SlotInv(t) && BusyInv(t) && t.status != Failed && (t.loop.Exited? ==> t.loop == Exited(0))
    ensures Leads(s, u) && SlotInv(u) && BusyInv(u) && u.status != Failed && (u.loop == Top || u.loop == Exited(0))
    decreases Rank(t.loop)
  {
    hide Leads, SlotInv, BusyInv, Apply, NextStep, Rank;
    u := t;
    if t.loop != Top && !t.loop.Exited? {
      NextStepRuns(t);
      u := Go(s, t, NextStep(t.loop));
      u := FinishIteration(s, u);
    }
  }

  /** One iteration with a ready worker takes the oldest prompt off the queue and submits it. */
  lemma SubmitOldest(s: State, t: State) returns (u: State)
    requires Leads(s, t) && Alive(t) && Ready(t) && t.loop == Top && t.queue != []
    ensures Leads(s, u) && Alive(u) && Ready(u) && u.loop == Top
    ensures u.queue == t.queue[1..] && u.input == t.input && u.rest == t.rest && u.eof == t.eof
  {
    hide Leads, SlotInv, BusyInv;
    u := Go(s, t, LTop);
    u := Go(s, u, LIdle);
    u := Go(s, u, LQueue);
    u := Go(s, u, LSubmit);
    u := Go(s, u, LPollInterrupted);
    u := FinishWorker(s, u);
  }

  lemma {:induction false} EmptyQueue(s: State, t: State) returns (u: State)
    requires Leads(s, t) && Alive(t) && Ready(t) && t.loop == Top
    ensures Leads(s, u) && Alive(u) && Ready(u) && u.loop == Top
    ensures u.queue == [] && u.input == t.input && u.rest == t.rest && u.eof == t.eof
    decreases |t.queue|
  {
    hide Leads, Alive, Ready;
    u := t;
    if t.queue != [] {
      u := SubmitOldest(s, t);
      u := EmptyQueue(s, u);
    }
  }

  /** One iteration reads to the end of the input and submits what it has. */
  lemma ReadToEnd(s: State, t: State) returns (u: State)
    requires Leads(s, t) && Alive(t) && Ready(t) && t.loop == Top && t.queue == []
    ensures Leads(s, u) && SlotInv(u) && BusyInv(u) && u.status != Failed
    ensures (u.loop == Top && u.eof && u.input == [] && u.queue == []) || u.loop == Exited(0)
  {
    hide Leads, SlotInv, BusyInv, Apply;
    u := ReadOn(s, t);
    u := CutOn(s, u);
  }

  lemma ReadOn(s: State, t: State) returns (u: State)
    requires Leads(s, t) && Alive(t) && Ready(t) && t.loop == Top && t.queue == []
    ensures Leads(s, u) && Alive(u) && Ready(u) && u.loop == MaybeCut && u.queue == [] && u.eof
    ensures t.eof ==> u.input == t.input
  {
    hide Leads, SlotInv, BusyInv;
    u := Go(s, t, LTop);
    u := Go(s, u, LIdle);
    u := Go(s, u, LQueue);
    u := Go(s, u, if u.eof then LPoll(0, false) else LPoll(|u.rest|, true));
    u := Go(s, u, LConsume);
  }

  lemma CutOn(s: State, t: State) returns (u: State)
    requires Leads(s, t) && Alive(t) && Ready(t) && t.loop == MaybeCut && t.queue == [] && t.eof
    ensures Leads(s, u) && SlotInv(u) && BusyInv(u) && u.status != Failed
    ensures (u.loop == Top && u.eof && u.input == [] && u.queue == []) || u.loop == Exited(0)
    ensures t.input == [] ==> u.loop == Exited(0)
  {
    hide Leads, SlotInv, BusyInv;
    u := Go(s, t, LCut(false));
    if u.loop.CutIdle? {
      u := Go(s, u, LCutIdle);
      u := Go(s, u, LSubmit);
    }
    u := Go(s, u, LExit);
  }

  lemma LastIteration(s: State, t: State) returns (u: State)
    requires Leads(s, t) && Alive(t) && Ready(t) && t.loop == Top && t.queue == [] && t.eof && t.input == []
    ensures Leads(s, u) && u.loop == Exited(0) && u.status != Failed && SlotInv(u)
  {
    hide Leads, SlotInv, BusyInv, Apply;
    u := ReadOn(s, t);
    u := CutOn(s, u);
  }

  lemma {:induction false} FromFinishes(s: State) returns (t: State)
    requires Alive(s)
    ensures Leads(s, t) && t.loop == Exited(0) && t.status != Failed && SlotInv(t)
  {
    hide SlotInv, BusyInv;
    assert Leads(s, s) by { assert ExecFrom(s, []) == Some(s); }
    hide Leads;
    t := FinishWorker(s, s);
    t := FinishIteration(s, t);
    if t.loop == Top {
      t := FinishWorker(s, t);
      t := EmptyQueue(s, t);
      t := ReadToEnd(s, t);
      if t.loop == Top {
        t := FinishWorker(s, t);
        t := LastIteration(s, t);
      }
    }
  }

  lemma {:induction false} RunKeepsBusy(stdin: string, steps: seq<Step>)
    requires Exec(stdin, steps).Some?
    ensures BusyInv(Exec(stdin, steps).value)
    decreases |steps|
  {
    hide Apply, SlotInv, BusyInv;
    if steps == [] {
      assert BusyInv(Init(stdin)) by { IdleAtStart(stdin); }
    } else {
      var before := steps[..|steps| - 1];
      RunKeepsInv(stdin, before);
      RunKeepsBusy(stdin, before);
      StepKeepsBusy(Exec(stdin, before).value, steps[|steps| - 1]);
    }
  }

  lemma IdleAtStart(stdin: string)
    ensures BusyInv(Init(stdin))
  {
  }

  lemma {:induction false} ExecAppend(stdin: string, a: seq<Step>, b: seq<Step>)
    requires Exec(stdin, a).Some?
    ensures Exec(stdin, a + b) == ExecFrom(Exec(stdin, a).value, b)
    decreases |b|
  {
    hide Apply;
    if b == [] {
      assert a + b == a;
    } else {
      assert (a + b)[..|a + b| - 1] == a + b[..|b| - 1];
      ExecAppend(stdin, a, b[..|b| - 1]);
    }
  }

  /** No deadlock and no prompt left behind: every reachable state in which nothing has failed and
      the loop has not ended leads on to exit status 0 with all of stdin run, every turn without
      an error. */
  lemma {:induction false} CanAlwaysFinish(stdin: string, s: State) returns (t: State)
    requires Reachable(stdin, s) && s.status != Failed && !s.loop.Exited?
    ensures Leads(s, t) && t.loop == Exited(0) && Flatten(t.ran) == stdin
    ensures forall i :: 0 <= i < |t.outcomes| ==> t.outcomes[i]
  {
    hide Apply;
    var steps :| Exec(stdin, steps) == Some(s);
    RunKeepsInv(stdin, steps);
    RunKeepsBusy(stdin, steps);
    t := FromFinishes(s);
    var more :| ExecFrom(s, more) == Some(t);
    ExecAppend(stdin, steps, more);
    ExitZeroRanAll(stdin, steps + more);
    RunKeepsInv(stdin, steps + more);
  }
}
