/** What an MCP session can still do (common/mcp_tool_call_conn.py): every call on an open session
    can be served, and every session can be closed completely. */
module McpProgress {
  import opened McpSession

  /** One run goes on as the other. */
  ghost predicate Continues(states: seq<State>, actions: seq<Action>, states': seq<State>, actions': seq<Action>) {
    IsRun(states, actions) && IsRun(states', actions') && states <= states' && actions <= actions'
  }

  lemma Extend(states: seq<State>, actions: seq<Action>, a: Action, s': State)
    requires IsRun(states, actions) && Next(states[|actions|], a, s')
    ensures Continues(states, actions, states + [s'], actions + [a])
  {
    var all, done := states + [s'], actions + [a];
    forall i | 0 <= i < |done| ensures Next(all[i], done[i], all[i + 1]) {
      if i < |actions| {
        assert all[i] == states[i] && all[i + 1] == states[i + 1] && done[i] == actions[i];
      } else {
        assert all[i] == states[i] && all[i + 1] == s' && done[i] == a;
      }
    }
  }

  // ---------------------------------------------------------------- a call is served

  ghost predicate Fresh(s: State, c: CallId, phase: Phase) {
    c in s.calls && s.calls[c] == Call(phase, [], false, 0)
  }

  /** A call that has not started yet has no reply. */
  lemma {:induction false} SubmittedIsFresh(states: seq<State>, actions: seq<Action>, n: nat, c: CallId)
    requires IsRun(states, actions) && n <= |actions| && c in states[n].calls && states[n].calls[c].phase == Submitted
    ensures Fresh(states[n], c, Submitted)
  {
    if n > 0 {
      if c in states[n - 1].calls && states[n - 1].calls[c].phase == Submitted { SubmittedIsFresh(states, actions, n - 1, c); }
      FreshStep(states, actions, n - 1, c);
    }
  }

  lemma FreshStep(states: seq<State>, actions: seq<Action>, n: nat, c: CallId)
    requires IsRun(states, actions) && n < |actions| && c in states[n + 1].calls && states[n + 1].calls[c].phase == Submitted
    requires c in states[n].calls && states[n].calls[c].phase == Submitted ==> Fresh(states[n], c, Submitted)
    ensures Fresh(states[n + 1], c, Submitted)
  {
    EveryRunKeepsInv(states, actions, n);
    StaysFresh(states[n], actions[n], states[n + 1], c);
  }

  lemma StaysFresh(s: State, a: Action, s': State, c: CallId)
    requires Next(s, a, s') && CallsOk(s) && QueueOk(s) && c in s'.calls && s'.calls[c].phase == Submitted
    requires c in s.calls && s.calls[c].phase == Submitted ==> Fresh(s, c, Submitted)
    ensures Fresh(s', c, Submitted)
  {
  }

  /** The session is open and its server task has not ended. */
  predicate Alive(s: State) {
    !s.close && s.server != Stopped
  }

  /** The call waits in the queue of a started server. */
  ghost predicate Queued(s: State, c: CallId) {
    Alive(s) && Fresh(s, c, Waiting) && c in s.queue && s.server != NotStarted
  }

  lemma InboxStep(s: State, c: CallId) returns (s': State)
    requires Inv(s) && Alive(s) && Fresh(s, c, Submitted)
    ensures Next(s, RunMessage, s') && Alive(s') && |s'.inbox| < |s.inbox|
    ensures Fresh(s', c, Submitted) || Queued(s', c)
  {
    assert StartCall(c) in s.inbox;
    var r := s.(inbox := s.inbox[1..]);
    match s.inbox[0]
    case StartServer => s' := r.(server := Idle);
    case StartCall(d) => s' := StartedCall(r, d);
  }

  lemma {:induction false} StartIt(states: seq<State>, actions: seq<Action>, c: CallId)
    returns (states': seq<State>, actions': seq<Action>)
    requires IsRun(states, actions) && Alive(states[|actions|]) && Fresh(states[|actions|], c, Submitted)
    ensures Continues(states, actions, states', actions') && Queued(states'[|actions'|], c)
    decreases |states[|actions|].inbox|
  {
    EveryRunKeepsInv(states, actions, |actions|);
    var s' := InboxStep(states[|actions|], c);
    Extend(states, actions, RunMessage, s');
    states', actions' := states + [s'], actions + [RunMessage];
    if !Queued(s', c) {
      states', actions' := StartIt(states', actions', c);
    }
  }

  /** The server finishes what it serves, or drops the request in front whose deadline is over. */
  lemma ServerStep(s: State, c: CallId) returns (a: Action, s': State)
    requires Inv(s) && Queued(s, c) && (s.server.Serving? || s.queue[0] != c)
    ensures Next(s, a, s') && Queued(s', c)
    ensures |s'.queue| < |s.queue| || (|s'.queue| == |s.queue| && s.server.Serving? && s'.server == Idle)
  {
    if s.server.Serving? {
      a := ServerReply(true);
      s' := Answer(s, s.server.call, Own(s.server.call, true)).(server := Idle);
    } else {
      a := ServerTake(true, true);
      s' := s.(queue := s.queue[1..]);
      assert s.queue == [s.queue[0]] + s'.queue;
    }
  }

  lemma {:induction false} ReachServer(states: seq<State>, actions: seq<Action>, c: CallId)
    returns (states': seq<State>, actions': seq<Action>)
    requires IsRun(states, actions) && Queued(states[|actions|], c)
    ensures Continues(states, actions, states', actions')
    ensures var s := states'[|actions'|]; Queued(s, c) && s.server == Idle && s.queue[0] == c
    decreases |states[|actions|].queue|, if states[|actions|].server.Serving? then 1 else 0
  {
    var s := states[|actions|];
    EveryRunKeepsInv(states, actions, |actions|);
    if s.server.Serving? || s.queue[0] != c {
      var a, s' := ServerStep(s, c);
      Extend(states, actions, a, s');
      states', actions' := ReachServer(states + [s'], actions + [a], c);
    } else {
      states', actions' := states, actions;
    }
  }

  /** The reply is on its way. */
  ghost predicate Answered(s: State, c: CallId, ok: bool) {
    c in s.calls && s.calls[c].phase == Waiting && s.calls[c].replies == [Own(c, ok)]
  }

  lemma {:induction false} ServeIt(states: seq<State>, actions: seq<Action>, c: CallId, usable: bool, ok: bool)
    returns (states': seq<State>, actions': seq<Action>)
    requires IsRun(states, actions)
    requires var s := states[|actions|]; Queued(s, c) && s.server == Idle && s.queue[0] == c
    ensures Continues(states, actions, states', actions') && Answered(states'[|actions'|], c, usable && ok)
  {
    var s := states[|actions|];
    var r := s.(queue := s.queue[1..]);
    var s' := if usable then HandOver(r, c) else Answer(r, c, Own(c, false));
    Extend(states, actions, ServerTake(false, usable), s');
    states', actions' := states + [s'], actions + [ServerTake(false, usable)];
    if usable {
      var s'' := Answer(s', c, Own(c, ok)).(server := Idle);
      Extend(states', actions', ServerReply(ok), s'');
      states', actions' := states' + [s''], actions' + [ServerReply(ok)];
    }
  }

  /** From every reachable state of an open session whose server runs, a submitted call can end with
      the server's own answer, a success or an error; with an unusable connection it can end with an
      error of its own. */
  lemma CallCanBeServed(states: seq<State>, actions: seq<Action>, c: CallId, usable: bool, ok: bool)
    returns (states': seq<State>, actions': seq<Action>)
    requires IsRun(states, actions) && Alive(states[|actions|])
    requires c in states[|actions|].calls && states[|actions|].calls[c].phase == Submitted
    ensures Continues(states, actions, states', actions')
    ensures c in states'[|actions'|].calls && states'[|actions'|].calls[c].phase == Ended(Replied(Own(c, usable && ok)))
  {
    SubmittedIsFresh(states, actions, |actions|, c);
    states', actions' := StartIt(states, actions, c);
    states', actions' := ReachServer(states', actions', c);
    states', actions' := ServeIt(states', actions', c, usable, ok);
    var s := states'[|actions'|];
    var s' := EndCall(s, c, Replied(Own(c, usable && ok)));
    Extend(states', actions', Deliver(c), s');
    states', actions' := states' + [s'], actions' + [Deliver(c)];
  }

  // ---------------------------------------------------------------- closing completes

  lemma {:induction false} DrainInbox(states: seq<State>, actions: seq<Action>)
    returns (states': seq<State>, actions': seq<Action>)
    requires IsRun(states, actions) && states[|actions|].shutdown == Stored
    ensures Continues(states, actions, states', actions') && states'[|actions'|].shutdown.Draining?
    decreases |states[|actions|].inbox|
  {
    var s := states[|actions|];
    EveryRunKeepsInv(states, actions, |actions|);
    var r := s.(inbox := s.inbox[1..]);
    var s' := match s.inbox[0]
      case StartServer => r.(server := Idle)
      case StartCall(d) => StartedCall(r, d)
      case StartShutdown => StartedShutdown(r);
    Extend(states, actions, RunMessage, s');
    states', actions' := states + [s'], actions + [RunMessage];
    if !s'.shutdown.Draining? {
      states', actions' := DrainInbox(states', actions');
    }
  }

  /** Every call of the snapshot is known. */
  lemma {:induction false} SnapshotKnown(states: seq<State>, actions: seq<Action>, n: nat)
    requires IsRun(states, actions) && n <= |actions| && states[n].shutdown.Draining?
    ensures states[n].shutdown.snapshot <= states[n].calls.Keys
  {
    if n > 0 {
      var s, a, s' := states[n - 1], actions[n - 1], states[n];
      assert Next(s, a, s');
      EveryRunKeepsInv(states, actions, n - 1);
      if s.shutdown.Draining? { SnapshotKnown(states, actions, n - 1); }
      SnapshotStays(s, a, s');
    }
  }

  lemma SnapshotStays(s: State, a: Action, s': State)
    requires Next(s, a, s') && CallsOk(s) && s'.shutdown.Draining?
    requires s.shutdown.Draining? ==> s.shutdown.snapshot <= s.calls.Keys
    ensures s'.shutdown.snapshot <= s'.calls.Keys
  {
  }

  lemma {:induction false} ExpireAll(states: seq<State>, actions: seq<Action>)
    returns (states': seq<State>, actions': seq<Action>)
    requires IsRun(states, actions) && states[|actions|].shutdown.Draining?
    ensures Continues(states, actions, states', actions')
    ensures states'[|actions'|].shutdown.Draining? && states'[|actions'|].pending == {}
    decreases states[|actions|].pending
  {
    var s := states[|actions|];
    EveryRunKeepsInv(states, actions, |actions|);
    if s.pending == {} {
      states', actions' := states, actions;
    } else {
      var c :| c in s.pending;
      var s' := EndCall(s, c, TimedOut);
      Extend(states, actions, Expire(c), s');
      states', actions' := ExpireAll(states + [s'], actions + [Expire(c)]);
    }
  }

  /** With nothing pending the snapshot has been gathered. */
  lemma CanGather(states: seq<State>, actions: seq<Action>, n: nat) returns (s': State)
    requires IsRun(states, actions) && n <= |actions| && states[n].shutdown.Draining? && states[n].pending == {}
    ensures Next(states[n], Gather, s') && s'.shutdown == Gathered && s'.server == states[n].server
  {
    var s := states[n];
    EveryRunKeepsInv(states, actions, n);
    SnapshotKnown(states, actions, n);
    forall c | c in s.shutdown.snapshot ensures c in s.calls && s.calls[c].phase.Ended? {
      assert s.calls[c].phase == Submitted ==> StartCall(c) in s.inbox;
    }
    s' := s.(shutdown := Gathered);
  }

  lemma {:induction false} StopAndFinish(states: seq<State>, actions: seq<Action>)
    returns (states': seq<State>, actions': seq<Action>)
    requires IsRun(states, actions) && states[|actions|].shutdown == Gathered
    ensures Continues(states, actions, states', actions') && states'[|actions'|].shutdown == Complete
  {
    EveryRunKeepsInv(states, actions, |actions|);
    states', actions' := states, actions;
    var s := states[|actions|];
    if s.server != Stopped {
      s := s.(server := Stopped);
      Extend(states, actions, ServerStop, s);
      states', actions' := states + [s], actions + [ServerStop];
    }
    var s' := s.(shutdown := Complete);
    Extend(states', actions', FinishShutdown, s');
    states', actions' := states' + [s'], actions' + [FinishShutdown];
  }

  lemma {:induction false} FinishFromDraining(states: seq<State>, actions: seq<Action>)
    returns (states': seq<State>, actions': seq<Action>)
    requires IsRun(states, actions) && states[|actions|].shutdown.Draining?
    ensures Continues(states, actions, states', actions') && states'[|actions'|].shutdown == Complete
  {
    states', actions' := ExpireAll(states, actions);
    var s' := CanGather(states', actions', |actions'|);
    Extend(states', actions', Gather, s');
    states', actions' := StopAndFinish(states' + [s'], actions' + [Gather]);
  }

  /** From every reachable state the session can be closed completely. */
  lemma CloseCanComplete(states: seq<State>, actions: seq<Action>)
    returns (states': seq<State>, actions': seq<Action>)
    requires IsRun(states, actions)
    ensures Continues(states, actions, states', actions')
    ensures states'[|actions'|].shutdown == Complete && states'[|actions'|].close && states'[|actions'|].server == Stopped
  {
    var s := states[|actions|];
    states', actions' := states, actions;
    if s.shutdown == Never {
      var s' := s.(close := true, inbox := s.inbox + [StartShutdown], shutdown := Stored, stored := s.stored + 1);
      Extend(states, actions, BeginShutdown, s');
      states', actions' := states + [s'], actions + [BeginShutdown];
    }
    if states'[|actions'|].shutdown == Stored { states', actions' := DrainInbox(states', actions'); }
    if states'[|actions'|].shutdown.Draining? { states', actions' := FinishFromDraining(states', actions'); }
    if states'[|actions'|].shutdown == Gathered { states', actions' := StopAndFinish(states', actions'); }
    CompleteIsClosed(states', actions', |actions'|);
  }

  lemma {:induction false} CompleteIsClosed(states: seq<State>, actions: seq<Action>, n: nat)
    requires IsRun(states, actions) && n <= |actions| && states[n].shutdown == Complete
    ensures states[n].close && states[n].server == Stopped
  {
    EveryRunKeepsInv(states, actions, n);
    if n > 0 {
      if states[n - 1].shutdown == Complete { CompleteIsClosed(states, actions, n - 1); }
      InboxIsEmpty(states, actions, n - 1);
      StoppedStays(states[n - 1], actions[n - 1], states[n]);
    }
  }

  lemma InboxIsEmpty(states: seq<State>, actions: seq<Action>, n: nat)
    requires IsRun(states, actions) && n <= |actions|
    ensures states[n].shutdown == Complete ==> states[n].inbox == []
  {
    EveryRunKeepsInv(states, actions, n);
  }

  lemma StoppedStays(s: State, a: Action, s': State)
    requires Next(s, a, s') && s'.shutdown == Complete && (s.shutdown == Complete ==> s.server == Stopped)
    requires s.shutdown == Complete ==> s.inbox == []
    ensures s'.server == Stopped
  {
  }

  // ---------------------------------------------------------------- what else may happen

  /** A caller may give up a call at any time before it ends, and a waiting call may time out; either
      way it is no longer pending and counts as abandoned. */
  lemma CallCanBeGivenUp(s: State, c: CallId) returns (given: State, expired: State)
    requires c in s.calls && !s.calls[c].phase.Ended?
    ensures Next(s, CancelCall(c), given) && given.calls[c].phase == Ended(Cancelled) && given.calls[c].abandoned && c !in given.pending
    ensures s.calls[c].phase == Waiting ==>
              Next(s, Expire(c), expired) && expired.calls[c].phase == Ended(TimedOut) && expired.calls[c].abandoned && c !in expired.pending
  {
    given, expired := EndCall(s, c, Cancelled), EndCall(s, c, TimedOut);
  }

  /** The transport may break under a served call: the server is free again and the call has no
      reply. The server task may also end, closed or not. */
  lemma ServerCanBreak(s: State) returns (dropped: State, stopped: State)
    requires s.server.Serving?
    ensures Next(s, ServerDrop, dropped) && dropped.server == Idle && dropped.calls == s.calls
    ensures Next(s, ServerStop, stopped) && stopped.server == Stopped && stopped.close == s.close
  {
    dropped, stopped := s.(server := Idle), s.(server := Stopped);
  }

  /** A close that can not hand its coroutine to the loop leaves the session closed, and another close
      may still complete. */
  lemma FailedCloseCanBeRetried(states: seq<State>, actions: seq<Action>)
    returns (states': seq<State>, actions': seq<Action>)
    requires IsRun(states, actions) && states[|actions|].shutdown == Never
    ensures Continues(states, actions, states', actions') && states'[|actions'|].shutdown == Complete
    ensures |actions'| > |actions| && actions'[|actions|] == BeginShutdownFails
    ensures states'[|actions| + 1].close && states'[|actions| + 1].shutdown == Never
  {
    var s' := states[|actions|].(close := true);
    Extend(states, actions, BeginShutdownFails, s');
    var mid, done := states + [s'], actions + [BeginShutdownFails];
    states', actions' := CloseCanComplete(mid, done);
    assert mid[|actions| + 1] == states'[|actions| + 1] && done[|actions|] == actions'[|actions|];
  }
}
