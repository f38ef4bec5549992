/** The timeout protocol as an interleaving of steps: `timed_run` on each thread, the watchdog
    thread it starts, and the signal handler, all sharing the permission of one module's code
    pages. */
module Timeout {
  import opened Wasm

  /** How a `timed_run` ends: normally, with an exception of its own, with `wasm_memory_exception`,
      or with `timeout_exception`. */
  datatype Outcome = Completed | Failed | MemoryFault | TimedOut

  /** Where a thread is in `timed_run`. `Leaving` is about to destroy the guard, `Joining` waits
      for the timer thread, `Handling` is at the catch clause, `Restoring`, `Enabling` and
      `Clearing` are the three steps of the guard that makes the code executable again. */
  datatype Phase =
    | Idle(last: Option<Outcome>)
    | Working
    | Leaving(o: Outcome)
    | Joining(o: Outcome)
    | Handling(o: Outcome)
    | Restoring(o: Outcome)
    | Enabling(o: Outcome)
    | Clearing(o: Outcome)

  /** The timer thread. It holds the mutex of the guard while `Firing` and `Disabling`. */
  datatype Timer = Off | Waiting | Firing | Disabling | Fired

  datatype RunState = Running | Interrupted | Stopped

  /** `timedOut` is the thread-local flag. `expired` and `faulted` are history: the timer of the
      latest `timed_run` has expired, and it was left because of a fault on a code page. */
  datatype Thread = Thread(phase: Phase, timer: Timer, runState: RunState, timedOut: bool, expired: bool, faulted: bool)

  datatype Range = Range(start: nat, size: nat) {
    predicate Has(addr: nat) {
      start <= addr < start + size
    }
  }

  datatype State = State(threads: seq<Thread>, codeEnabled: bool)

  /** `CheckFails` is the check of a range in an instruction, which throws without a fault; `Finish` is any
      other end of the code. */
  datatype Action =
    | Start
    | TimerExpires
    | SetTimedOut
    | DisableCode
    | TimerStops
    | Fault(addr: nat)
    | CheckFails
    | Finish(o: Outcome)
    | StopTimer
    | JoinTimer
    | Catch
    | CheckFlag
    | EnableCode
    | ClearFlag

  datatype Decision = JumpOut | Retry | Chain

  /** `signal_handler` for SIGSEGV and SIGBUS, with a destination to jump to. */
  function SignalHandler(addr: nat, memory: Range, code: Range, timedOut: bool): Decision {
    if code.size == 0 && memory.size == 0 then JumpOut
    else if memory.Has(addr) then JumpOut
    else if code.Has(addr) then if timedOut then JumpOut else Retry
    else Chain
  }

  function Put(s: State, t: nat, th: Thread): State
    requires t < |s.threads|
  {
    s.(threads := s.threads[t := th])
  }

  /** One step of thread `t` or of its timer thread; None when it is not possible now. */
  function Act(memory: Range, code: Range, s: State, t: nat, a: Action): Option<State>
    requires t < |s.threads|
  {
    var th := s.threads[t];
    match a
    case Start =>
      if th.phase.Idle? then Some(Put(s, t, Thread(Working, Waiting, Running, th.timedOut, false, false))) else None
    case TimerExpires =>
      if th.timer == Waiting && th.runState == Running
      then Some(Put(s, t, th.(timer := Firing, runState := Interrupted, expired := true))) else None
    case SetTimedOut =>
      if th.timer == Firing then Some(Put(s, t, th.(timer := Disabling, timedOut := true))) else None
    case DisableCode =>
      if th.timer == Disabling then Some(Put(s, t, th.(timer := Fired)).(codeEnabled := false)) else None
    case TimerStops =>
      if th.timer == Waiting && th.runState != Running then Some(Put(s, t, th.(timer := Off))) else None
    case Fault(addr) =>
      if th.phase.Working? && (memory.Has(addr) || (code.Has(addr) && !s.codeEnabled)) then
        match SignalHandler(addr, memory, code, th.timedOut)
        case JumpOut => Some(Put(s, t, th.(phase := Leaving(MemoryFault), faulted := !memory.Has(addr))))
        case Retry => Some(s)
        case Chain => None
      else None
    case CheckFails => if th.phase.Working? then Some(Put(s, t, th.(phase := Leaving(MemoryFault)))) else None
    case Finish(o) =>
      if th.phase.Working? && (o.Completed? || o.Failed?) then Some(Put(s, t, th.(phase := Leaving(o)))) else None
    case StopTimer =>
      if th.phase.Leaving? && th.timer != Firing && th.timer != Disabling
      then Some(Put(s, t, th.(phase := Joining(th.phase.o), runState := Stopped))) else None
    case JoinTimer =>
      if th.phase.Joining? && (th.timer == Off || th.timer == Fired)
      then Some(Put(s, t, th.(phase := Handling(th.phase.o)))) else None
    case Catch =>
      if th.phase.Handling?
      then Some(Put(s, t, th.(phase :=
        Restoring(if th.phase.o.MemoryFault? && th.timedOut then TimedOut else th.phase.o))))
      else None
    case CheckFlag =>
      if th.phase.Restoring?
      then Some(Put(s, t, if th.timedOut then th.(phase := Enabling(th.phase.o))
                          else th.(phase := Idle(Some(th.phase.o)), timer := Off)))
      else None
    case EnableCode =>
      if th.phase.Enabling? then Some(Put(s, t, th.(phase := Clearing(th.phase.o))).(codeEnabled := true)) else None
    case ClearFlag =>
      if th.phase.Clearing?
      then Some(Put(s, t, th.(phase := Idle(Some(th.phase.o)), timer := Off, timedOut := false))) else None
  }

  datatype Event = Event(thread: nat, action: Action)

  function Init(n: nat): State {
    State(seq(n, i => Thread(Idle(None), Off, Stopped, false, false, false)), true)
  }

  /** The state after a schedule; None when some step was not possible. */
  function Run(memory: Range, code: Range, n: nat, events: seq<Event>): Option<State>
    decreases |events|
  {
    if events == [] then Some(Init(n))
    else
      var r := Run(memory, code, n, events[..|events| - 1]);
      var e := events[|events| - 1];
      if r.None? || e.thread >= |r.value.threads| then None else Act(memory, code, r.value, e.thread, e.action)
  }

  /** The timer has gone through its callback and the code has not been made executable since. */
  predicate Holds(th: Thread) {
    th.timer == Fired && th.timedOut && !th.phase.Idle? && !th.phase.Clearing?
  }

  predicate ThreadOk(th: Thread) {
    && (th.phase.Idle? ==> th.timer == Off && !th.timedOut)
    && (!th.phase.Idle? ==> (th.timedOut <==> th.timer == Disabling || th.timer == Fired))
    && (!th.phase.Idle? ==> (th.expired <==> th.timer == Firing || th.timer == Disabling || th.timer == Fired))
    && (th.phase.Working? || th.phase.Leaving? ==> th.timer != Off && (th.timer == Waiting ==> th.runState == Running))
    && (th.phase.Joining? ==> th.timer == Off || th.timer == Waiting || th.timer == Fired)
    && (th.phase.Joining? ==> th.runState == Stopped)
    && (th.phase.Handling? || th.phase.Restoring? ==> th.timer == Off || th.timer == Fired)
    && (th.phase.Enabling? || th.phase.Clearing? ==> th.timer == Fired)
    && OutcomeOk(th)
  }

  /** A fault on a code page ends as a timeout, and only a thread whose own timer expired ends
      with a timeout. */
  predicate OutcomeOk(th: Thread) {
    match th.phase
    case Idle(last) =>
      && (th.faulted ==> th.expired && last == Some(TimedOut))
      && (last == Some(TimedOut) ==> th.expired)
    case Working => !th.faulted
    case Leaving(o) => !o.TimedOut? && (th.faulted ==> o.MemoryFault? && th.timedOut)
    case Joining(o) => !o.TimedOut? && (th.faulted ==> o.MemoryFault? && th.timedOut)
    case Handling(o) => !o.TimedOut? && (th.faulted ==> o.MemoryFault? && th.timedOut)
    case Restoring(o) => (th.faulted ==> o.TimedOut?) && (o.TimedOut? ==> th.timedOut)
    case Enabling(o) => (th.faulted ==> o.TimedOut?) && (o.TimedOut? ==> th.timedOut)
    case Clearing(o) => (th.faulted ==> o.TimedOut?) && (o.TimedOut? ==> th.timedOut)
  }

  ghost predicate Safe(s: State) {
    && (forall t :: 0 <= t < |s.threads| ==> ThreadOk(s.threads[t]))
    && (!s.codeEnabled ==> exists t :: 0 <= t < |s.threads| && Holds(s.threads[t]))
  }

  /** Every step keeps the thread that takes it in order. */
  lemma ThreadKept(memory: Range, code: Range, s: State, t: nat, a: Action)
    requires t < |s.threads| && ThreadOk(s.threads[t]) && Act(memory, code, s, t, a).Some?
    ensures
      var s' := Act(memory, code, s, t, a).value;
      && |s'.threads| == |s.threads| && ThreadOk(s'.threads[t])
      && (forall u :: 0 <= u < |s.threads| && u != t ==> s'.threads[u] == s.threads[u])
  {
  }

  /** What a step does to the permission of the code pages. */
  lemma CodeKept(memory: Range, code: Range, s: State, t: nat, a: Action)
    requires t < |s.threads| && ThreadOk(s.threads[t]) && Act(memory, code, s, t, a).Some?
    ensures
      var s' := Act(memory, code, s, t, a).value;
      && |s'.threads| == |s.threads|
      && (s.codeEnabled && !s'.codeEnabled ==> Holds(s'.threads[t]))
      && (!s'.codeEnabled && Holds(s.threads[t]) ==> Holds(s'.threads[t]))
  {
  }

  lemma StepSafe(memory: Range, code: Range, s: State, t: nat, a: Action)
    requires Safe(s) && t < |s.threads| && Act(memory, code, s, t, a).Some?
    ensures Safe(Act(memory, code, s, t, a).value)
  {
    hide Act, ThreadOk, Holds;
    var s' := Act(memory, code, s, t, a).value;
    ThreadKept(memory, code, s, t, a);
    CodeKept(memory, code, s, t, a);
    if !s'.codeEnabled {
      if s.codeEnabled {
        assert Holds(s'.threads[t]);
      } else {
        var u :| 0 <= u < |s.threads| && Holds(s.threads[u]);
        assert Holds(s'.threads[u]);
      }
    }
  }

  /** Safety under every interleaving of any number of threads. */
  lemma {:induction false} AlwaysSafe(memory: Range, code: Range, n: nat, events: seq<Event>)
    requires Run(memory, code, n, events).Some?
    ensures Safe(Run(memory, code, n, events).value)
    decreases |events|
  {
    hide Act, ThreadOk;
    if events == [] {
      assert forall t :: 0 <= t < n ==> ThreadOk(Init(n).threads[t]) by { InitOk(n); }
    } else {
      AlwaysSafe(memory, code, n, events[..|events| - 1]);
      var e := events[|events| - 1];
      StepSafe(memory, code, Run(memory, code, n, events[..|events| - 1]).value, e.thread, e.action);
    }
  }

  lemma InitOk(n: nat)
    ensures forall t :: 0 <= t < n ==> ThreadOk(Init(n).threads[t])
  {
  }

  /** The code pages are disabled only while some `timed_run` whose own timer has fired has not
      yet enabled them again. */
  lemma DisabledOnlyByTimeout(memory: Range, code: Range, n: nat, events: seq<Event>)
    requires Run(memory, code, n, events).Some? && !Run(memory, code, n, events).value.codeEnabled
    ensures
      var s := Run(memory, code, n, events).value;
      exists t :: 0 <= t < |s.threads| && Holds(s.threads[t]) && s.threads[t].expired
  {
    AlwaysSafe(memory, code, n, events);
    var s := Run(memory, code, n, events).value;
    var t :| 0 <= t < |s.threads| && Holds(s.threads[t]);
    assert ThreadOk(s.threads[t]);
  }

  /** A fault on a code page leaves the thread where it is unless its own timer has expired. */
  lemma FaultNeedsOwnTimer(memory: Range, code: Range, n: nat, events: seq<Event>, t: nat, addr: nat)
    requires Run(memory, code, n, events).Some? && t < |Run(memory, code, n, events).value.threads|
    requires code.Has(addr) && !memory.Has(addr)
    ensures
      var s := Run(memory, code, n, events).value;
      var r := Act(memory, code, s, t, Action.Fault(addr));
      r.Some? ==> r.value == s || (s.threads[t].expired && r.value.threads[t].phase == Leaving(MemoryFault))
  {
    AlwaysSafe(memory, code, n, events);
    assert ThreadOk(Run(memory, code, n, events).value.threads[t]);
  }

  /** Whether thread `t` has taken the step `a` since it began its latest `timed_run`. */
  predicate Since(events: seq<Event>, t: nat, a: Action)
    decreases |events|
  {
    events != [] &&
    var e := events[|events| - 1];
    if e.thread == t && e.action == a then true
    else !(e.thread == t && e.action.Start?) && Since(events[..|events| - 1], t, a)
  }

  /** The latest end, fault or failed check of the code that thread `t` runs in its latest `timed_run`. */
  function LeftBy(events: seq<Event>, t: nat): Option<Action>
    decreases |events|
  {
    if events == [] then None
    else
      var e := events[|events| - 1];
      if e.thread == t && e.action.Start? then None
      else if e.thread == t && (e.action.Finish? || e.action.Fault? || e.action.CheckFails?) then Some(e.action)
      else LeftBy(events[..|events| - 1], t)
  }

  /** What a run left that way must end with. */
  predicate EndsWith(left: Option<Action>, expired: bool, o: Outcome) {
    left.Some? &&
    match left.value
    case Finish(p) => o == p && (o == Completed || o == Failed)
    case Fault(_) => o == (if expired then TimedOut else MemoryFault)
    case CheckFails => o == (if expired then TimedOut else MemoryFault)
    case _ => false
  }

  /** The fields of a thread against the schedule so far. */
  predicate HistoryOk(th: Thread, events: seq<Event>, t: nat) {
    var left, expired := LeftBy(events, t), Since(events, t, TimerExpires);
    && (th.expired <==> expired)
    && (!th.phase.Idle? ==> (th.timedOut <==> Since(events, t, SetTimedOut)))
    && match th.phase
       case Idle(last) => (left.None? && last.None?) || (last.Some? && EndsWith(left, expired, last.value))
       case Working => true
       case Leaving(o) => EndsWith(left, false, o)
       case Joining(o) => EndsWith(left, false, o)
       case Handling(o) => EndsWith(left, false, o)
       case Restoring(o) => EndsWith(left, expired, o)
       case Enabling(o) => EndsWith(left, expired, o)
       case Clearing(o) => EndsWith(left, expired, o)
  }

  lemma HistoryKept(memory: Range, code: Range, s: State, events: seq<Event>, t: nat, a: Action)
    requires t < |s.threads| && ThreadOk(s.threads[t]) && HistoryOk(s.threads[t], events, t)
    requires Act(memory, code, s, t, a).Some?
    ensures
      var s' := Act(memory, code, s, t, a).value;
      |s'.threads| == |s.threads| && HistoryOk(s'.threads[t], events + [Event(t, a)], t)
  {
    var next := events + [Event(t, a)];
    assert next[..|next| - 1] == events;
  }

  lemma HistoryOfOthers(th: Thread, events: seq<Event>, t: nat, e: Event)
    requires HistoryOk(th, events, t) && e.thread != t
    ensures HistoryOk(th, events + [e], t)
  {
    var next := events + [e];
    assert next[..|next| - 1] == events;
  }

  lemma {:induction false} HistoryAgrees(memory: Range, code: Range, n: nat, events: seq<Event>, t: nat)
    requires Run(memory, code, n, events).Some? && t < n
    ensures |Run(memory, code, n, events).value.threads| == n
    ensures HistoryOk(Run(memory, code, n, events).value.threads[t], events, t)
    decreases |events|
  {
    hide Act, ThreadOk, HistoryOk;
    if events == [] {
      HistoryAtStart(n, t);
    } else {
      var before, e := events[..|events| - 1], events[|events| - 1];
      HistoryAgrees(memory, code, n, before, t);
      AlwaysSafe(memory, code, n, before);
      var s := Run(memory, code, n, before).value;
      assert events == before + [e];
      ThreadKept(memory, code, s, e.thread, e.action);
      if e.thread == t {
        HistoryKept(memory, code, s, before, t, e.action);
      } else {
        HistoryOfOthers(s.threads[t], before, t, e);
      }
    }
  }

  lemma HistoryAtStart(n: nat, t: nat)
    requires t < n
    ensures HistoryOk(Init(n).threads[t], [], t)
  {
  }

  /** How a `timed_run` ends, over every schedule. One whose code finished ends with exactly what it
      finished with. One whose code was left by a fault, or by a failed check of a range, ends with
      `timeout_exception` if its own timer had expired, and with `wasm_memory_exception` if not. */
  lemma OutcomeOfRun(memory: Range, code: Range, n: nat, events: seq<Event>, t: nat)
    requires Run(memory, code, n, events).Some? && t < n
    ensures |Run(memory, code, n, events).value.threads| == n
    ensures
      var phase, left := Run(memory, code, n, events).value.threads[t].phase, LeftBy(events, t);
      phase.Idle? ==>
        && (left == None <==> phase.last == None)
        && (forall o :: left == Some(Action.Finish(o)) ==> phase.last == Some(o))
        && (left.Some? && (left.value.Fault? || left.value.CheckFails?) ==>
              phase.last == Some(if Since(events, t, TimerExpires) then TimedOut else MemoryFault))
  {
    HistoryAgrees(memory, code, n, events, t);
  }

  /** A `timed_run` that was left because of a code page ends with `timeout_exception`, and any one ends
      with it if and only if its own timer expired and a fault or a failed check ended its code. */
  lemma FaultSurfacesAsTimeout(memory: Range, code: Range, n: nat, events: seq<Event>, t: nat)
    requires Run(memory, code, n, events).Some? && t < |Run(memory, code, n, events).value.threads|
    requires Run(memory, code, n, events).value.threads[t].phase.Idle?
    ensures
      var th, left := Run(memory, code, n, events).value.threads[t], LeftBy(events, t);
      && (th.faulted ==> th.phase.last == Some(TimedOut))
      && (th.phase.last == Some(TimedOut) <==>
            Since(events, t, TimerExpires) && left.Some? && (left.value.Fault? || left.value.CheckFails?))
  {
    AlwaysSafe(memory, code, n, events);
    assert ThreadOk(Run(memory, code, n, events).value.threads[t]);
    ThreadCount(memory, code, n, events);
    HistoryAgrees(memory, code, n, events, t);
  }

  lemma {:induction false} ThreadCount(memory: Range, code: Range, n: nat, events: seq<Event>)
    requires Run(memory, code, n, events).Some?
    ensures |Run(memory, code, n, events).value.threads| == n
    decreases |events|
  {
    if events != [] {
      ThreadCount(memory, code, n, events[..|events| - 1]);
    }
  }

  /** What a fault does to running code: an access in the memory's range leaves the code; one on the
      disabled code pages leaves it if the thread's own timer has set the flag, and is retried if not; a
      fault anywhere else is not one of these runs'. */
  lemma FaultEffect(memory: Range, code: Range, n: nat, events: seq<Event>, t: nat, addr: nat)
    requires Run(memory, code, n, events).Some? && t < n
    ensures |Run(memory, code, n, events).value.threads| == n
    ensures
      var s := Run(memory, code, n, events).value;
      var r := Act(memory, code, s, t, Action.Fault(addr));
      s.threads[t].phase.Working? ==>
        if memory.start <= addr < memory.start + memory.size then
          r.Some? && r.value.threads[t].phase == Leaving(MemoryFault) && r.value.codeEnabled == s.codeEnabled
        else if !s.codeEnabled && code.start <= addr < code.start + code.size then
          r.Some? && r.value.codeEnabled == s.codeEnabled &&
          if Since(events, t, SetTimedOut) then r.value.threads[t].phase == Leaving(MemoryFault) else r.value == s
        else r == None
  {
    HistoryAgrees(memory, code, n, events, t);
  }

  /** The latest switch of the permission by any thread. */
  function LastSwitch(events: seq<Event>): Option<Action>
    decreases |events|
  {
    if events == [] then None
    else
      var a := events[|events| - 1].action;
      if a == DisableCode || a == EnableCode then Some(a) else LastSwitch(events[..|events| - 1])
  }

  lemma {:induction false} CodeFollowsSwitches(memory: Range, code: Range, n: nat, events: seq<Event>)
    requires Run(memory, code, n, events).Some?
    ensures Run(memory, code, n, events).value.codeEnabled <==> LastSwitch(events) != Some(DisableCode)
    decreases |events|
  {
    if events != [] {
      CodeFollowsSwitches(memory, code, n, events[..|events| - 1]);
    }
  }

  /** When no `timed_run` is active the code is executable and every flag is clear. */
  lemma QuiescentIsClean(memory: Range, code: Range, n: nat, events: seq<Event>)
    requires Run(memory, code, n, events).Some?
    requires forall t :: 0 <= t < |Run(memory, code, n, events).value.threads| ==>
            Run(memory, code, n, events).value.threads[t].phase.Idle?
    ensures Run(memory, code, n, events).value.codeEnabled
    ensures forall t :: 0 <= t < |Run(memory, code, n, events).value.threads| ==>
            !Run(memory, code, n, events).value.threads[t].timedOut
  {
    hide Run;
    AlwaysSafe(memory, code, n, events);
  }

  /** The mutex of the guard is what makes this work: the guard is not destroyed between the two
      writes of the callback, so the flag is read after both. */
  lemma CallbackCompletes(memory: Range, code: Range, n: nat, events: seq<Event>, t: nat)
    requires Run(memory, code, n, events).Some? && t < |Run(memory, code, n, events).value.threads|
    ensures
      var th := Run(memory, code, n, events).value.threads[t];
      th.phase.Handling? || th.phase.Restoring? ==>
        (th.expired <==> th.timedOut) && th.timer != Firing && th.timer != Disabling
  {
    AlwaysSafe(memory, code, n, events);
    assert ThreadOk(Run(memory, code, n, events).value.threads[t]);
  }
}
