/** When the event loop of an MCP session stops (common/mcp_tool_call_conn.py,
    `_request_event_loop_stop`, `_schedule_event_loop_stop`, `close`). A close that runs on the
    session's own loop must not have the loop stopped under it. */
module McpLoopStop {

  /** The stop handle: none, a timer that is still to fire, or one that has fired. */
  datatype Handle = NoHandle | Armed | Fired

  /** What the completion of the shutdown future sets off: its callback, which puts a stop
      request on the loop, and the request itself. */
  datatype Request = NotYet | Queued | Ran | LoopGone

  datatype State = State(
    waiters: nat,      // closes waiting on the session's own loop
    handle: Handle,
    done: bool,        // the shutdown future is done
    request: Request,
    aborted: bool,     // the constructor failed and rolled back
    stopping: bool,    // `loop.stop` was called
    open: bool)

  function Init(): State {
    State(0, NoHandle, false, NotYet, false, false, true)
  }

  datatype Action = EnterClose | LeaveClose | FinishShutdown | RunCallback | RunRequest | FireTimer | Abort | CloseLoop

  /** `_schedule_event_loop_stop`. */
  function ScheduleStop(s: State): State {
    if s.waiters != 0 || !s.open then s
    else if s.handle == NoHandle then s.(handle := Armed)
    else s
  }

  ghost predicate Next(s: State, a: Action, s': State) {
    match a
    case EnterClose =>
      s.open && s' == s.(waiters := s.waiters + 1, handle := NoHandle)
    case LeaveClose =>
      s.waiters > 0 &&
      var r := s.(waiters := s.waiters - 1);
      s' == if r.waiters == 0 && r.done then ScheduleStop(r) else r
    case FinishShutdown =>
      !s.done && s' == s.(done := true)
    case RunCallback =>
      s.done && s.request == NotYet && s' == s.(request := if s.open then Queued else LoopGone)
    case RunRequest =>
      s.request == Queued && s.open && s' == ScheduleStop(s.(request := Ran))
    case FireTimer =>
      s.handle == Armed && s.open && s' == s.(handle := Fired, stopping := true)
    case Abort =>
      !s.aborted && s' == s.(aborted := true, stopping := true)
    case CloseLoop =>
      s.stopping && s' == s.(open := false)
  }

  ghost predicate IsRun(states: seq<State>, actions: seq<Action>) {
    && |states| == |actions| + 1 && states[0] == Init()
    && forall i | 0 <= i < |actions| :: Next(states[i], actions[i], states[i + 1])
  }

  ghost predicate Inv(s: State) {
    && (s.handle == Armed ==> s.waiters == 0 && s.done)
    && (s.request != NotYet ==> s.done)
    && (s.request == LoopGone ==> !s.open)
    && (s.request == Ran && s.waiters == 0 && s.open ==> s.handle != NoHandle)
    && (s.stopping ==> s.done || s.aborted)
    && (!s.open ==> s.stopping)
    && (s.handle == Fired ==> s.stopping)
  }

  lemma {:induction false} EveryRunKeepsInv(states: seq<State>, actions: seq<Action>, n: nat)
    requires IsRun(states, actions) && n <= |actions|
    ensures Inv(states[n])
  {
    if n > 0 {
      EveryRunKeepsInv(states, actions, n - 1);
      assert Next(states[n - 1], actions[n - 1], states[n]);
    }
  }

  /** An armed stop implies that no close waits on the loop and that the shutdown is over. No
      stop is lost: once the shutdown is done and its stop request has run, with no close waiting
      and the loop open, a stop is armed or has already fired. And the loop closes only after
      the shutdown, or when the constructor failed. */
  lemma StopIsNeitherEarlyNorLost(states: seq<State>, actions: seq<Action>, n: nat)
    requires IsRun(states, actions) && n <= |actions|
    ensures var s := states[n];
            && (s.handle == Armed ==> s.waiters == 0 && s.done)
            && (s.request == Ran && s.waiters == 0 && s.open ==> s.done && (s.handle == Armed || s.handle == Fired))
            && (!s.open ==> s.done || s.aborted)
  {
    EveryRunKeepsInv(states, actions, n);
  }

  // ---------------------------------------------------------------- the loop can close

  ghost predicate Continues(states: seq<State>, actions: seq<Action>, states': seq<State>, actions': seq<Action>) {
    IsRun(states, actions) && IsRun(states', actions') && states <= states' && actions <= actions'
  }

  lemma Extend(states: seq<State>, actions: seq<Action>, a: Action, s': State)
    requires IsRun(states, actions) && Next(states[|actions|], a, s')
    ensures Continues(states, actions, states + [s'], actions + [a])
  {
    var all, done := states + [s'], actions + [a];
    forall i | 0 <= i < |done| ensures Next(all[i], done[i], all[i + 1]) {
      if i < |actions| {
        assert all[i] == states[i] && all[i + 1] == states[i + 1] && done[i] == actions[i];
      } else {
        assert all[i] == states[i] && all[i + 1] == s' && done[i] == a;
      }
    }
  }

  /** What is left to do until the loop closes. */
  function Left(s: State): nat {
    (if s.done then 0 else 1) + s.waiters + (match s.request case NotYet => 2 case Queued => 1 case _ => 0)
    + (if s.stopping then 0 else 1) + (if s.open then 1 else 0)
  }

  /** The next step towards closing, with no new close and no failed constructor. */
  lemma StepToClose(s: State) returns (a: Action, s': State)
    requires Inv(s) && s.open && !s.aborted
    ensures Next(s, a, s') && !s'.aborted && Left(s') < Left(s) && (s'.open || s'.done)
  {
    if s.stopping {
      a, s' := CloseLoop, s.(open := false);
    } else if !s.done {
      a, s' := FinishShutdown, s.(done := true);
    } else if s.waiters > 0 {
      var r := s.(waiters := s.waiters - 1);
      a, s' := LeaveClose, if r.waiters == 0 && r.done then ScheduleStop(r) else r;
    } else if s.request == NotYet {
      a, s' := RunCallback, s.(request := Queued);
    } else if s.request == Queued {
      a, s' := RunRequest, ScheduleStop(s.(request := Ran));
    } else {
      assert s.request != LoopGone;
      a, s' := FireTimer, s.(handle := Fired, stopping := true);
    }
  }

  /** From every reachable state of a session whose constructor did not fail, the shutdown can
      complete and the loop can close: an armed stop stops the loop. */
  lemma {:induction false} LoopCanClose(states: seq<State>, actions: seq<Action>)
    returns (states': seq<State>, actions': seq<Action>)
    requires IsRun(states, actions) && !states[|actions|].aborted
    ensures Continues(states, actions, states', actions')
    ensures var s := states'[|actions'|]; !s.open && s.done && !s.aborted
    decreases Left(states[|actions|])
  {
    var s := states[|actions|];
    EveryRunKeepsInv(states, actions, |actions|);
    if !s.open {
      states', actions' := states, actions;
    } else {
      var a, s' := StepToClose(s);
      Extend(states, actions, a, s');
      states', actions' := LoopCanClose(states + [s'], actions + [a]);
    }
  }
}

/** The class-level registry of MCP sessions and the global shutdown counter
    (common/mcp_tool_call_conn.py, `__init__`, `_begin_global_shutdown`,
    `shutdown_all_mcp_sessions`). Every step is one section under `_INSTANCES_LOCK`. */
module McpRegistry {
  import opened Wrappers

  /** `open` maps every global shutdown that has begun and not ended to its snapshot, once it
      has taken one. `failed` holds sessions whose constructor has rolled back. */
  datatype State = State(
    registered: set<nat>,
    count: int,
    open: map<nat, Option<set<nat>>>,
    failing: set<nat>,
    failed: set<nat>)

  function Init(): State {
    State({}, 0, map[], {}, {})
  }

  datatype Action =
    | Construct(session: nat)      // registered under the lock
    | Refuse(session: nat)         // a global shutdown is open
    | FailConstruct(session: nat, registered: bool)
    | Rollback(session: nat)
    | Leave(session: nat)          // the loop has closed, or the session was collected
    | Begin(shutdown: nat)
    | Snapshot(shutdown: nat)
    | End(shutdown: nat)           // also when taking the snapshot fails

  predicate New(s: State, x: nat) {
    x !in s.registered && x !in s.failing && x !in s.failed
  }

  ghost predicate Next(s: State, a: Action, s': State) {
    match a
    case Construct(x) =>
      s.count == 0 && New(s, x) && s' == s.(registered := s.registered + {x})
    case Refuse(x) =>
      s.count != 0 && New(s, x) && s' == s.(failing := s.failing + {x})
    case FailConstruct(x, registered) => // an exception inside the section, before or after the add
      s.count == 0 && New(s, x) &&
      s' == s.(registered := if registered then s.registered + {x} else s.registered, failing := s.failing + {x})
    case Rollback(x) =>
      x in s.failing &&
      s' == s.(registered := s.registered - {x}, failing := s.failing - {x}, failed := s.failed + {x})
    case Leave(x) =>
      s' == s.(registered := s.registered - {x})
    case Begin(k) =>
      k !in s.open && s' == s.(count := s.count + 1, open := s.open[k := None])
    case Snapshot(k) =>
      k in s.open && s.open[k] == None && s' == s.(open := s.open[k := Some(s.registered)])
    case End(k) =>
      k in s.open && s' == s.(count := s.count - 1, open := s.open - {k})
  }

  ghost predicate IsRun(states: seq<State>, actions: seq<Action>) {
    && |states| == |actions| + 1 && states[0] == Init()
    && forall i | 0 <= i < |actions| :: Next(states[i], actions[i], states[i + 1])
  }

  ghost predicate CountOk(s: State) {
    s.count == |s.open|
  }

  ghost predicate Covered(s: State) {
    forall k | k in s.open && s.open[k].Some? :: s.registered <= s.open[k].value
  }

  ghost predicate FailedGone(s: State) {
    s.failed !! s.registered && s.failed !! s.failing
  }

  ghost predicate Inv(s: State) {
    CountOk(s) && Covered(s) && FailedGone(s)
  }

  lemma Sizes(open: map<nat, Option<set<nat>>>, k: nat, v: Option<set<nat>>)
    ensures |open[k := v]| == if k in open then |open| else |open| + 1
    ensures k in open ==> |open - {k}| == |open| - 1
  {
    assert open[k := v].Keys == open.Keys + {k};
    assert (open - {k}).Keys == open.Keys - {k};
  }

  lemma CountKept(s: State, a: Action, s': State)
    requires CountOk(s) && Next(s, a, s')
    ensures CountOk(s')
  {
    match a
    case End(k) => Sizes(s.open, k, None);
    case Begin(k) => Sizes(s.open, k, None);
    case Snapshot(k) => Sizes(s.open, k, Some(s.registered));
    case _ =>
  }

  /** A session is added only while no global shutdown is open, so no snapshot misses it. */
  lemma CoverKept(s: State, a: Action, s': State)
    requires CountOk(s) && Covered(s) && Next(s, a, s')
    ensures Covered(s')
  {
    if a.Construct? || a.FailConstruct? { NoneOpen(s); }
  }

  lemma NoneOpen(s: State)
    requires CountOk(s) && s.count == 0
    ensures s.open.Keys == {}
  {
    assert |s.open.Keys| == 0;
  }

  lemma StepKeepsInv(s: State, a: Action, s': State)
    requires Inv(s) && Next(s, a, s')
    ensures Inv(s')
  {
    CountKept(s, a, s');
    CoverKept(s, a, s');
    FailedKept(s, a, s');
  }

  lemma FailedKept(s: State, a: Action, s': State)
    requires FailedGone(s) && Next(s, a, s')
    ensures FailedGone(s')
  {
  }

  /** In every run: the counter equals the number of open global shutdowns; while one is open
      every registered session is in the snapshot of every one that has taken it; and a
      constructor that failed leaves nothing registered. */
  lemma SnapshotsCoverRegistry(states: seq<State>, actions: seq<Action>, n: nat)
    requires IsRun(states, actions) && n <= |actions|
    ensures var s := states[n];
            && s.count == |s.open|
            && (forall k | k in s.open && s.open[k].Some? :: s.registered <= s.open[k].value)
            && s.failed !! s.registered && s.failed !! s.failing
  {
    EveryRunKeepsInv(states, actions, n);
  }

  lemma {:induction false} EveryRunKeepsInv(states: seq<State>, actions: seq<Action>, n: nat)
    requires IsRun(states, actions) && n <= |actions|
    ensures Inv(states[n])
  {
    if n > 0 {
      EveryRunKeepsInv(states, actions, n - 1);
      RunStep(states, actions, n - 1);
    } else {
      InitInv();
    }
  }

  lemma RunStep(states: seq<State>, actions: seq<Action>, n: nat)
    requires IsRun(states, actions) && n < |actions| && Inv(states[n])
    ensures Inv(states[n + 1])
  {
    assert Next(states[n], actions[n], states[n + 1]);
    StepKeepsInv(states[n], actions[n], states[n + 1]);
  }

  lemma InitInv()
    ensures Inv(Init())
  {
  }

  // ---------------------------------------------------------------- who is registered

  predicate Adds(a: Action, x: nat) {
    a == Construct(x) || a == FailConstruct(x, true)
  }

  predicate Removes(a: Action, x: nat) {
    a == Leave(x) || a == Rollback(x)
  }

  /** Step `i` registered the session and no later step has removed it. */
  ghost predicate RegisteredSince(actions: seq<Action>, i: nat, x: nat) {
    i < |actions| && Adds(actions[i], x) && forall j | i < j < |actions| :: !Removes(actions[j], x)
  }

  ghost predicate StillRegistered(actions: seq<Action>, x: nat) {
    exists i: nat :: RegisteredSince(actions, i, x)
  }

  lemma SinceSnoc(actions: seq<Action>, x: nat)
    requires actions != []
    ensures var n := |actions| - 1;
            StillRegistered(actions, x) <==> Adds(actions[n], x) || (StillRegistered(actions[..n], x) && !Removes(actions[n], x))
  {
    var n := |actions| - 1;
    var init := actions[..n];
    assert forall j | 0 <= j < n :: init[j] == actions[j];
    if Adds(actions[n], x) { assert RegisteredSince(actions, n, x); }
    if StillRegistered(init, x) && !Removes(actions[n], x) {
      var i: nat :| RegisteredSince(init, i, x);
      assert RegisteredSince(actions, i, x);
    }
    if StillRegistered(actions, x) {
      var i: nat :| RegisteredSince(actions, i, x);
      if i < n { assert RegisteredSince(init, i, x); }
    }
  }

  /** In every run a session is registered exactly when some constructor registered it and it has
      neither left nor been rolled back since. */
  lemma {:induction false} RegisteredIff(states: seq<State>, actions: seq<Action>, x: nat)
    requires IsRun(states, actions)
    ensures x in states[|actions|].registered <==> StillRegistered(actions, x)
  {
    if actions != [] {
      var n := |actions| - 1;
      assert IsRun(states[..n + 1], actions[..n]);
      RegisteredIff(states[..n + 1], actions[..n], x);
      assert Next(states[n], actions[n], states[n + 1]);
      SinceSnoc(actions, x);
    }
  }

  /** While a global shutdown is open no session can be constructed and a new one is refused; otherwise
      it can be constructed, and is registered. */
  lemma ConstructIff(s: State, x: nat)
    requires Inv(s) && New(s, x)
    ensures (exists s' :: Next(s, Construct(x), s')) <==> s.open == map[]
    ensures (exists s' :: Next(s, Refuse(x), s')) <==> s.open != map[]
    ensures forall s' | Next(s, Construct(x), s') :: x in s'.registered
    ensures forall s' | Next(s, Refuse(x), s') :: x !in s'.registered && x in s'.failing
  {
    assert s.count == 0 <==> s.open == map[] by {
      assert |s.open.Keys| == |s.open|;
    }
    var built, refused := s.(registered := s.registered + {x}), s.(failing := s.failing + {x});
    assert s.count == 0 ==> Next(s, Construct(x), built);
    assert s.count != 0 ==> Next(s, Refuse(x), refused);
  }

  // ---------------------------------------------------------------- global shutdowns

  /** A snapshot holds nothing but sessions that were registered at some time. */
  lemma {:induction false} SnapshotsAreReal(states: seq<State>, actions: seq<Action>, n: nat, k: nat, x: nat)
    requires IsRun(states, actions) && n <= |actions|
    requires k in states[n].open && states[n].open[k].Some? && x in states[n].open[k].value
    ensures exists m | 0 <= m <= n :: x in states[m].registered
  {
    if n > 0 {
      var s, s' := states[n - 1], states[n];
      assert Next(s, actions[n - 1], s');
      if k in s.open && s.open[k].Some? && x in s.open[k].value {
        SnapshotsAreReal(states, actions, n - 1, k, x);
      } else {
        assert x in s.registered;
      }
    }
  }

  lemma Extend(states: seq<State>, actions: seq<Action>, a: Action, s': State)
    requires IsRun(states, actions) && Next(states[|actions|], a, s')
    ensures IsRun(states + [s'], actions + [a])
  {
    var all, done := states + [s'], actions + [a];
    forall i | 0 <= i < |done| ensures Next(all[i], done[i], all[i + 1]) {
      if i < |actions| {
        assert all[i] == states[i] && all[i + 1] == states[i + 1] && done[i] == actions[i];
      } else {
        assert all[i] == states[i] && all[i + 1] == s' && done[i] == a;
      }
    }
  }

  /** Every open global shutdown can end, and then sessions can be constructed again. */
  lemma {:induction false} ShutdownsCanEnd(states: seq<State>, actions: seq<Action>)
    returns (states': seq<State>, actions': seq<Action>)
    requires IsRun(states, actions)
    ensures IsRun(states', actions') && states <= states' && actions <= actions'
    ensures states'[|actions'|].open == map[] && states'[|actions'|].count == 0
    decreases states[|actions|].open.Keys
  {
    EveryRunKeepsInv(states, actions, |actions|);
    var s := states[|actions|];
    if s.open == map[] {
      states', actions' := states, actions;
    } else {
      var k :| k in s.open;
      var s' := s.(count := s.count - 1, open := s.open - {k});
      Extend(states, actions, End(k), s');
      states', actions' := ShutdownsCanEnd(states + [s'], actions + [End(k)]);
    }
  }
}
