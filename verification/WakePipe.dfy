/** The wake-up protocol between the worker thread and the UI thread: one mutex, an output
    buffer, a `wake_pending` flag and a self-pipe that the UI drains without the mutex.
    A state machine over atomic steps; every interleaving is a sequence of step labels. */
module WakePipe {
  import opened Options

  datatype Owner = Nobody | Worker | Ui

  // Where the worker is in a critical section that changes visible state.
  datatype WorkerPc = Outside | Locked | Changed | Flagged | Finishing

  // The UI loop: poll, drain, consume, then its own work before the next poll.
  datatype UiPc =
    | Polling | Polled(ready: bool) | Draining | Drained | Consuming | Consumed
    | Working | WorkLocked | WorkFlagged | WorkFinishing

  datatype State = State(
    owner: Owner,
    worker: WorkerPc,
    ui: UiPc,
    pending: bool,         // wake_pending
    pipe: nat,             // bytes in the self-pipe
    out: seq<char>,        // published, not yet consumed
    published: seq<char>,  // everything ever published
    consumed: seq<char>,   // everything the UI has taken
    version: nat,          // how many status changes there were
    seen: nat)             // how many of them the UI has seen

  const Init := State(Nobody, Outside, Working, false, 0, [], [], [], 0, 0)

  datatype Step =
    | WLock | WPublish(s: seq<char>) | WStatus | WFlag | WWrite | WUnlock
    | UPoll | UPollInterrupted | USkip | URead | UDrainEnd | ULock | UConsume | UUnlock
    | UWorkLock | UWorkFlag | UWorkWrite | UWorkUnlock | ULoop

  const DRAIN_CHUNK := 128

  /** A write to the non-blocking pipe of capacity `cap`; a full pipe drops the byte. */
  function Write(pipe: nat, cap: nat): nat {
    if pipe < cap then pipe + 1 else pipe
  }

  /** The effect of one step, if it is enabled. */
  function Apply(cap: nat, s: State, step: Step): Option<State> {
    match step
    // agent_publish, agent_set_status, agent_set_error, ...: lock, change, wake, unlock
    case WLock =>
      if s.worker == Outside && s.owner == Nobody then Some(s.(owner := Worker, worker := Locked)) else None
    case WPublish(t) =>
      if s.worker == Locked && t != [] then
        Some(s.(out := s.out + t, published := s.published + t, worker := Changed))
      else None
    case WStatus =>
      if s.worker == Locked then Some(s.(version := s.version + 1, worker := Changed)) else None
    case WFlag =>
      if s.worker == Changed then
        Some(if s.pending then s.(worker := Finishing) else s.(pending := true, worker := Flagged))
      else None
    case WWrite =>
      if s.worker == Flagged then Some(s.(pipe := Write(s.pipe, cap), worker := Finishing)) else None
    case WUnlock =>
      if s.worker == Finishing then Some(s.(owner := Nobody, worker := Outside)) else None

    // poll() reports the pipe as it is at that moment; it may also return for stdin or a timeout
    case UPoll =>
      if s.ui == Polling then Some(s.(ui := Polled(s.pipe > 0))) else None
    case UPollInterrupted =>
      if s.ui == Polling then Some(s.(ui := Working)) else None
    // drain_wake_fd: reads until the pipe is empty, without the mutex
    case USkip =>
      if s.ui == Polled(false) then Some(s.(ui := Drained)) else None
    case URead =>
      if (s.ui == Polled(true) || s.ui == Draining) && s.pipe > 0 then
        Some(s.(ui := Draining, pipe := if s.pipe <= DRAIN_CHUNK then 0 else s.pipe - DRAIN_CHUNK))
      else None
    case UDrainEnd =>
      if s.ui == Draining && s.pipe == 0 then Some(s.(ui := Drained)) else None
    // worker_consume
    case ULock =>
      if s.ui == Drained && s.owner == Nobody then Some(s.(owner := Ui, ui := Consuming)) else None
    case UConsume =>
      if s.ui == Consuming then
        Some(s.(consumed := s.consumed + s.out, out := [], seen := s.version, pending := false, ui := Consumed))
      else None
    case UUnlock =>
      if s.ui == Consumed then Some(s.(owner := Nobody, ui := Working)) else None
    // the UI's own calls that wake, such as worker_set_queued_user_pending
    case UWorkLock =>
      if s.ui == Working && s.owner == Nobody then Some(s.(owner := Ui, ui := WorkLocked)) else None
    case UWorkFlag =>
      if s.ui == WorkLocked then
        Some(if s.pending then s.(ui := WorkFinishing) else s.(pending := true, ui := WorkFlagged))
      else None
    case UWorkWrite =>
      if s.ui == WorkFlagged then Some(s.(pipe := Write(s.pipe, cap), ui := WorkFinishing)) else None
    case UWorkUnlock =>
      if s.ui == WorkFinishing then Some(s.(owner := Nobody, ui := Working)) else None
    case ULoop =>
      if s.ui == Working then Some(s.(ui := Polling)) else None
  }

  /** The state after a sequence of steps, if every one of them was enabled. */
  function Exec(cap: nat, s: State, steps: seq<Step>): Option<State>
    decreases |steps|
  {
    if steps == [] then Some(s)
    else match Apply(cap, s, steps[0])
      case None => None
      case Some(t) => Exec(cap, t, steps[1..])
  }

  ghost predicate MutexInv(s: State) {
    && (s.owner == Worker <==> s.worker != Outside)
    && (s.owner == Ui <==> s.ui in {Consuming, Consumed, WorkLocked, WorkFlagged, WorkFinishing})
  }

  /** The UI is between emptying the pipe and taking the output. */
  predicate OwesConsume(s: State) {
    s.ui == Draining || s.ui == Drained || s.ui == Consuming
  }

  predicate AboutToWrite(s: State) {
    s.worker == Flagged || s.ui == WorkFlagged
  }

  predicate Unseen(s: State) {
    s.out != [] || s.seen < s.version
  }

  ghost predicate WakeInv(s: State) {
    && MutexInv(s)
    && s.seen <= s.version
    && s.published == s.consumed + s.out
    && (Unseen(s) ==> s.pending || s.worker == Changed)
    && (AboutToWrite(s) ==> s.pending)
    && (s.pending ==> s.pipe > 0 || AboutToWrite(s) || OwesConsume(s))
    && (s.ui == Polled(true) ==> s.pipe > 0)
  }

  predicate WorkerStep(step: Step) {
    step.WLock? || step.WPublish? || step.WStatus? || step.WFlag? || step.WWrite? || step.WUnlock?
  }

  lemma {:induction false} StepKeepsInv(cap: nat, s: State, step: Step)
    requires cap > 0 && WakeInv(s) && Apply(cap, s, step).Some?
    ensures WakeInv(Apply(cap, s, step).value)
  {
    if WorkerStep(step) {
      WorkerKeepsInv(cap, s, step);
    } else {
      UiKeepsInv(cap, s, step);
    }
  }

  lemma WorkerKeepsInv(cap: nat, s: State, step: Step)
    requires cap > 0 && WakeInv(s) && WorkerStep(step) && Apply(cap, s, step).Some?
    ensures WakeInv(Apply(cap, s, step).value)
  {
    assert step.WPublish? ==> s.consumed + s.out + step.s == s.consumed + (s.out + step.s);
  }

  lemma UiKeepsInv(cap: nat, s: State, step: Step)
    requires cap > 0 && WakeInv(s) && !WorkerStep(step) && Apply(cap, s, step).Some?
    ensures WakeInv(Apply(cap, s, step).value)
  {
    assert s.consumed + s.out + [] == s.consumed + s.out;
  }

  lemma {:induction false} RunKeepsInv(cap: nat, s: State, steps: seq<Step>)
    requires cap > 0 && WakeInv(s) && Exec(cap, s, steps).Some?
    ensures WakeInv(Exec(cap, s, steps).value)
    decreases |steps|
  {
    hide Apply, WakeInv;
    if steps != [] {
      StepKeepsInv(cap, s, steps[0]);
      RunKeepsInv(cap, Apply(cap, s, steps[0]).value, steps[1..]);
    }
  }

  /** No wake-up is lost under any interleaving: bytes arrive complete and in order, and a UI
      blocked in poll while no critical section is open has nothing unseen unless the pipe
      already holds a byte that ends the wait. */
  lemma {:induction false} NoLostWakeup(cap: nat, steps: seq<Step>)
    requires cap > 0 && Exec(cap, Init, steps).Some?
    ensures var s := Exec(cap, Init, steps).value;
            && s.published == s.consumed + s.out
            && (Unseen(s) && s.worker != Changed ==> s.pending)
            && (s.pending ==> s.pipe > 0 || AboutToWrite(s) || OwesConsume(s))
            && (s.ui == Polling && s.owner == Nobody && Unseen(s) ==> s.pipe > 0)
  {
    RunKeepsInv(cap, Init, steps);
  }

  /** A worker that was interrupted inside its critical section needs only its own next steps
      to make a blocked UI's poll return. */
  function FinishSection(cap: nat, s: State): State {
    if s.worker == Changed then
      s.(pending := true, pipe := if s.pending then s.pipe else Write(s.pipe, cap), worker := Outside, owner := Nobody)
    else if s.worker == Flagged then s.(pipe := Write(s.pipe, cap), worker := Outside, owner := Nobody)
    else if s.worker == Finishing then s.(worker := Outside, owner := Nobody)
    else s
  }

  lemma {:induction false} WorkerWakesBlockedUi(cap: nat, steps: seq<Step>)
    requires cap > 0 && Exec(cap, Init, steps).Some?
    requires var s := Exec(cap, Init, steps).value; s.ui == Polling && Unseen(s)
    ensures var s := Exec(cap, Init, steps).value;
            && FinishSection(cap, s).pipe > 0
            && exists more :: |more| <= 3 && Exec(cap, s, more) == Some(FinishSection(cap, s))
  {
    var s := Exec(cap, Init, steps).value;
    RunKeepsInv(cap, Init, steps);
    var more := if s.worker == Changed then (if s.pending then [WFlag, WUnlock] else [WFlag, WWrite, WUnlock])
                else if s.worker == Flagged then [WWrite, WUnlock]
                else if s.worker == Finishing then [WUnlock]
                else [];
    ExecUpTo3(cap, s, more);
    assert Exec(cap, s, more) == Some(FinishSection(cap, s));
  }

  function Then(cap: nat, o: Option<State>, step: Step): Option<State> {
    if o.None? then None else Apply(cap, o.value, step)
  }

  lemma ExecUpTo3(cap: nat, s: State, more: seq<Step>)
    requires |more| <= 3
    ensures |more| == 0 ==> Exec(cap, s, more) == Some(s)
    ensures |more| == 1 ==> Exec(cap, s, more) == Apply(cap, s, more[0])
    ensures |more| == 2 ==> Exec(cap, s, more) == Then(cap, Apply(cap, s, more[0]), more[1])
    ensures |more| == 3 ==> Exec(cap, s, more) == Then(cap, Then(cap, Apply(cap, s, more[0]), more[1]), more[2])
  {
    hide Apply;
    forall t, m: seq<Step> | |m| == 1
      ensures Exec(cap, t, m) == Apply(cap, t, m[0])
    {
      assert m[1..] == [];
    }
    if |more| == 3 {
      assert more[1..][1..] == more[2..] && |more[2..]| == 1;
    }
  }

  // ---------- the pipe never fills ----------

  function InFlight(s: State): nat {
    s.pipe + (if AboutToWrite(s) then 1 else 0)
  }

  /** After draining, before consuming, at most one byte can be written; after consuming, one
      more: the flag allows one write per consume. */
  ghost predicate BoundInv(s: State) {
    if s.ui == Polled(false) || s.ui == Drained || s.ui == Consuming then InFlight(s) <= (if s.pending then 1 else 0)
    else InFlight(s) <= (if s.pending then 2 else 1)
  }

  lemma StepKeepsBound(cap: nat, s: State, step: Step)
    requires cap > 0 && WakeInv(s) && BoundInv(s) && Apply(cap, s, step).Some?
    ensures BoundInv(Apply(cap, s, step).value)
  {
  }

  lemma {:induction false} RunKeepsBound(cap: nat, s: State, steps: seq<Step>)
    requires cap > 0 && WakeInv(s) && BoundInv(s) && Exec(cap, s, steps).Some?
    ensures BoundInv(Exec(cap, s, steps).value)
    decreases |steps|
  {
    hide Apply, WakeInv, BoundInv;
    if steps != [] {
      StepKeepsInv(cap, s, steps[0]);
      StepKeepsBound(cap, s, steps[0]);
      RunKeepsBound(cap, Apply(cap, s, steps[0]).value, steps[1..]);
    }
  }

  /** Bursts of output do not flood the pipe: it never holds more than two bytes, so a write
      into a pipe that holds two is never refused. */
  lemma {:induction false} PipeNeverFills(cap: nat, steps: seq<Step>)
    requires cap >= 2 && Exec(cap, Init, steps).Some?
    ensures var s := Exec(cap, Init, steps).value;
            s.pipe <= 2 && (AboutToWrite(s) ==> s.pipe < cap)
  {
    RunKeepsInv(cap, Init, steps);
    RunKeepsBound(cap, Init, steps);
  }
}
