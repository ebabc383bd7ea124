/** The life of an MCP tool-call session (common/mcp_tool_call_conn.py): caller threads submit
    calls under a lock, an event loop runs what was submitted first in first out, a server task
    takes requests from a queue, and one shutdown coroutine closes everything down. Each step
    below is one lock section or one event-loop segment between two awaits. */
module McpSession {

  type CallId = nat

  /** What is put on a call's own result queue. */
  datatype Reply = Own(call: CallId, ok: bool) | Closing

  datatype Outcome =
    | Replied(reply: Reply)
    | TimedOut
    | Cancelled
    | Refused // the session was found closed when the call first ran

  datatype Phase = Submitted | Waiting | Ended(outcome: Outcome)

  datatype Call = Call(phase: Phase, replies: seq<Reply>, abandoned: bool, handed: nat)

  /** What other threads hand to the event loop. */
  datatype Message = StartServer | StartCall(call: CallId) | StartShutdown

  datatype Server = NotStarted | Idle | Serving(call: CallId) | Stopped

  datatype Shutdown = Never | Stored | Draining(snapshot: set<CallId>) | Gathered | Complete

  datatype State = State(
    close: bool,
    inbox: seq<Message>,
    calls: map<CallId, Call>,
    queue: seq<CallId>,
    pending: set<CallId>,
    server: Server,
    shutdown: Shutdown,
    stored: nat) // how many shutdown coroutines were ever stored

  function Init(): State {
    State(false, [StartServer], map[], [], {}, NotStarted, Never, 0)
  }

  datatype Action =
    | Submit(call: CallId)
    | BeginShutdown
    | BeginShutdownFails
    | RunMessage
    | Deliver(call: CallId)
    | Expire(call: CallId)
    | CancelCall(call: CallId)
    | ServerTake(late: bool, usable: bool)
    | ServerReply(ok: bool)
    | ServerDrop
    | ServerStop
    | Gather
    | FinishShutdown

  // ---------------------------------------------------------------- the steps

  predicate Active(s: State, c: CallId) {
    c in s.calls && s.calls[c].phase == Waiting
  }

  /** A call that was waiting ends: its event is set and it leaves the pending calls. */
  function EndCall(s: State, c: CallId, outcome: Outcome): State
    requires c in s.calls
  {
    s.(calls := s.calls[c := s.calls[c].(phase := Ended(outcome), abandoned := true)], pending := s.pending - {c})
  }

  function Answer(s: State, c: CallId, reply: Reply): State
    requires c in s.calls
  {
    s.(calls := s.calls[c := s.calls[c].(replies := s.calls[c].replies + [reply])])
  }

  /** The server task passes a request on to the MCP server. */
  function HandOver(s: State, c: CallId): State
    requires c in s.calls
  {
    s.(server := Serving(c), calls := s.calls[c := s.calls[c].(handed := s.calls[c].handed + 1)])
  }

  /** The first segment of a submitted call. */
  function StartedCall(s: State, c: CallId): State
    requires c in s.calls
  {
    if s.calls[c].phase != Submitted then s
    else if s.close then s.(calls := s.calls[c := s.calls[c].(phase := Ended(Refused))])
    else s.(calls := s.calls[c := s.calls[c].(phase := Waiting)], pending := s.pending + {c}, queue := s.queue + [c])
  }

  /** The first segment of the shutdown coroutine: tell every pending call, drop the queue. */
  function StartedShutdown(s: State): State {
    s.(calls := map c | c in s.calls ::
                  if c in s.pending then s.calls[c].(replies := s.calls[c].replies + [Closing]) else s.calls[c],
       queue := [], shutdown := Draining(s.pending))
  }

  ghost predicate Next(s: State, a: Action, s': State) {
    match a
    case Submit(c) => // tool_call and get_tools, under the shutdown lock
      !s.close && c !in s.calls &&
      s' == s.(calls := s.calls[c := Call(Submitted, [], false, 0)], inbox := s.inbox + [StartCall(c)])
    case BeginShutdown =>
      if s.shutdown == Never
      then s' == s.(close := true, inbox := s.inbox + [StartShutdown], shutdown := Stored, stored := s.stored + 1)
      else s' == s
    case BeginShutdownFails => // the coroutine could not be submitted
      s.shutdown == Never && s' == s.(close := true)
    case RunMessage =>
      s.inbox != [] &&
      var r := s.(inbox := s.inbox[1..]);
      (match s.inbox[0]
       case StartServer => s' == r.(server := Idle)
       case StartCall(c) => c in s.calls && s' == StartedCall(r, c)
       case StartShutdown => s' == StartedShutdown(r))
    case Deliver(c) =>
      Active(s, c) && s.calls[c].replies != [] && s' == EndCall(s, c, Replied(s.calls[c].replies[0]))
    case Expire(c) =>
      Active(s, c) && s' == EndCall(s, c, TimedOut)
    case CancelCall(c) => // the caller gave up on the future
      c in s.calls && !s.calls[c].phase.Ended? && s' == EndCall(s, c, Cancelled)
    case ServerTake(late, usable) =>
      s.server == Idle && s.queue != [] &&
      var c := s.queue[0];
      c in s.calls &&
      var r := s.(queue := s.queue[1..]);
      if s.calls[c].abandoned || late then s' == r
      else if !usable then s' == Answer(r, c, Own(c, false))
      else s' == HandOver(r, c)
    case ServerReply(ok) =>
      s.server.Serving? && s.server.call in s.calls &&
      s' == Answer(s, s.server.call, Own(s.server.call, ok)).(server := Idle)
    case ServerDrop => // the transport broke while the request was out; no reply comes
      s.server.Serving? && s' == s.(server := Idle)
    case ServerStop => // closed at the loop head, cancelled, or ended by the transport
      (s.server == Idle || s.server.Serving?) && s' == s.(server := Stopped)
    case Gather =>
      s.shutdown.Draining? && (forall c | c in s.shutdown.snapshot :: c in s.calls && s.calls[c].phase.Ended?) &&
      s' == s.(shutdown := Gathered)
    case FinishShutdown =>
      s.shutdown == Gathered && s.server == Stopped && s' == s.(shutdown := Complete)
  }

  ghost predicate IsRun(states: seq<State>, actions: seq<Action>) {
    && |states| == |actions| + 1 && states[0] == Init()
    && forall i | 0 <= i < |actions| :: Next(states[i], actions[i], states[i + 1])
  }

  // ---------------------------------------------------------------- the invariant

  /** The shutdown coroutine has started. */
  predicate Drained(s: State) {
    s.shutdown.Draining? || s.shutdown == Gathered || s.shutdown == Complete
  }

  /** The shutdown message is stored at most once and is the last thing ever submitted; the
      server starts before everything else. */
  ghost predicate InboxOk(s: State) {
    && (s.shutdown == Never <==> s.stored == 0) && s.stored <= 1
    && (s.shutdown != Never ==> s.close)
    && (forall i | 0 <= i < |s.inbox| && s.inbox[i] == StartShutdown :: i == |s.inbox| - 1)
    && (s.shutdown == Stored <==> s.inbox != [] && s.inbox[|s.inbox| - 1] == StartShutdown)
    && (forall i | 0 <= i < |s.inbox| && s.inbox[i] == StartServer :: i == 0)
    && (s.server == NotStarted <==> s.inbox != [] && s.inbox[0] == StartServer)
    && (Drained(s) ==> s.inbox == [])
  }

  ghost predicate CallsOk(s: State) {
    && (forall i | 0 <= i < |s.inbox| && s.inbox[i].StartCall? :: s.inbox[i].call in s.calls)
    && (forall c | c in s.calls && s.calls[c].phase == Submitted ::
          StartCall(c) in s.inbox && s.calls[c].handed == 0 && !s.calls[c].abandoned)
    && (forall c | c in s.calls && s.calls[c].phase == Waiting :: c in s.pending && !s.calls[c].abandoned)
    && (forall c | c in s.pending :: c in s.calls && s.calls[c].phase == Waiting)
  }

  /** A reply that may reach call `c`: the closing notice or its own answer, and a successful
      answer only if the call was handed to the server. */
  predicate Mine(c: CallId, handed: nat, reply: Reply) {
    reply == Closing || (reply.Own? && reply.call == c && (reply.ok ==> handed == 1))
  }

  /** The result queue of a call carries its own replies or the closing notice, nothing else. */
  ghost predicate RepliesOk(s: State) {
    forall c | c in s.calls ::
      && (forall i | 0 <= i < |s.calls[c].replies| :: Mine(c, s.calls[c].handed, s.calls[c].replies[i]))
      && (s.calls[c].phase.Ended? && s.calls[c].phase.outcome.Replied? ==>
            Mine(c, s.calls[c].handed, s.calls[c].phase.outcome.reply))
  }

  /** A queued request belongs to a call that was never handed over; it is queued once. */
  ghost predicate QueueOk(s: State) {
    && (forall i, j | 0 <= i < j < |s.queue| :: s.queue[i] != s.queue[j])
    && (forall i | 0 <= i < |s.queue| ::
          var c := s.queue[i];
          c in s.calls && s.calls[c].phase != Submitted && s.calls[c].handed == 0 &&
          (s.calls[c].phase.Ended? ==> s.calls[c].abandoned))
    && (forall c | c in s.calls :: s.calls[c].handed <= 1)
    && (s.server.Serving? ==> s.server.call in s.calls && s.calls[s.server.call].handed == 1)
    && (Drained(s) ==> s.queue == [])
  }

  ghost predicate ShutdownOk(s: State) {
    && (s.shutdown.Draining? ==> s.pending <= s.shutdown.snapshot)
    && (s.shutdown == Gathered || s.shutdown == Complete ==> s.pending == {})
    && (Drained(s) ==> forall c | c in s.pending :: c in s.calls && Closing in s.calls[c].replies)
  }

  ghost predicate Inv(s: State) {
    InboxOk(s) && CallsOk(s) && RepliesOk(s) && QueueOk(s) && ShutdownOk(s)
  }

  // ---------------------------------------------------------------- every step keeps it

  lemma SubmitKeepsCalls(s: State, c: CallId, s': State)
    requires Inv(s) && Next(s, Submit(c), s')
    ensures CallsOk(s')
  {
    assert s'.inbox[|s.inbox|] == StartCall(c);
    forall m | m in s.inbox ensures m in s'.inbox {
      var i :| 0 <= i < |s.inbox| && s.inbox[i] == m;
      assert s'.inbox[i] == m;
    }
    forall i | 0 <= i < |s'.inbox| && s'.inbox[i].StartCall? ensures s'.inbox[i].call in s'.calls {
      assert i < |s.inbox| ==> s'.inbox[i] == s.inbox[i];
    }
  }

  lemma SubmitKeepsInbox(s: State, c: CallId, s': State)
    requires Inv(s) && Next(s, Submit(c), s')
    ensures InboxOk(s')
  {
    assert s'.inbox[|s.inbox|] == StartCall(c);
    assert forall i | 0 <= i < |s.inbox| :: s'.inbox[i] == s.inbox[i];
  }

  lemma SubmitKeepsInv(s: State, c: CallId, s': State)
    requires Inv(s) && Next(s, Submit(c), s')
    ensures Inv(s')
  {
    SubmitKeepsCalls(s, c, s');
    SubmitKeepsInbox(s, c, s');
    assert RepliesOk(s');
    assert QueueOk(s');
  }

  lemma BeginKeepsInbox(s: State, s': State)
    requires InboxOk(s) && Next(s, BeginShutdown, s')
    ensures InboxOk(s')
  {
    if s.shutdown == Never {
      assert forall i | 0 <= i < |s.inbox| :: s'.inbox[i] == s.inbox[i];
      assert s'.inbox[|s.inbox|] == StartShutdown;
    }
  }

  lemma BeginKeepsCalls(s: State, s': State)
    requires CallsOk(s) && Next(s, BeginShutdown, s')
    ensures CallsOk(s')
  {
    if s.shutdown == Never {
      assert forall i | 0 <= i < |s.inbox| :: s'.inbox[i] == s.inbox[i];
      assert forall m | m in s.inbox :: m in s'.inbox;
    }
  }

  lemma BeginKeepsInv(s: State, a: Action, s': State)
    requires Inv(s) && Next(s, a, s') && (a == BeginShutdown || a == BeginShutdownFails)
    ensures Inv(s')
  {
    if a == BeginShutdown {
      BeginKeepsInbox(s, s');
      BeginKeepsCalls(s, s');
    }
  }

  lemma ShiftInbox(s: State)
    requires s.inbox != []
    ensures forall m | m in s.inbox :: m == s.inbox[0] || m in s.inbox[1..]
    ensures forall m | m in s.inbox[1..] :: m in s.inbox
  {
  }

  lemma RunServerKeepsInv(s: State, s': State)
    requires Inv(s) && Next(s, RunMessage, s') && s.inbox[0] == StartServer
    ensures Inv(s')
  {
    ShiftInbox(s);
  }

  lemma RunCallKeepsInbox(s: State, s': State)
    requires Inv(s) && Next(s, RunMessage, s') && s.inbox[0].StartCall?
    ensures InboxOk(s')
  {
    assert s'.inbox == s.inbox[1..];
    assert forall i | 0 <= i < |s'.inbox| :: s'.inbox[i] == s.inbox[i + 1];
  }

  lemma RunCallKeepsCalls(s: State, s': State)
    requires CallsOk(s) && Next(s, RunMessage, s') && s.inbox[0].StartCall?
    ensures CallsOk(s')
  {
    ShiftInbox(s);
    assert s'.inbox == s.inbox[1..];
    forall i | 0 <= i < |s'.inbox| && s'.inbox[i].StartCall? ensures s'.inbox[i].call in s'.calls {
      assert s'.inbox[i] == s.inbox[i + 1];
    }
  }

  lemma RunCallKeepsQueue(s: State, s': State)
    requires QueueOk(s) && CallsOk(s) && Next(s, RunMessage, s') && s.inbox[0].StartCall? && !Drained(s)
    ensures QueueOk(s')
  {
    var c := s.inbox[0].call;
    assert s.calls[c].phase == Submitted ==> forall i | 0 <= i < |s.queue| :: s.queue[i] != c;
  }

  lemma RunCallKeepsReplies(s: State, s': State)
    requires RepliesOk(s) && Next(s, RunMessage, s') && s.inbox[0].StartCall?
    ensures RepliesOk(s')
  {
  }

  lemma RunCallKeepsInv(s: State, s': State)
    requires Inv(s) && Next(s, RunMessage, s') && s.inbox[0].StartCall?
    ensures Inv(s')
  {
    assert !Drained(s);
    RunCallKeepsInbox(s, s');
    RunCallKeepsCalls(s, s');
    RunCallKeepsQueue(s, s');
    RunCallKeepsReplies(s, s');
  }

  lemma NotifyKeepsCalls(s: State, s': State)
    requires Inv(s) && s.inbox == [StartShutdown] && s' == StartedShutdown(s.(inbox := []))
    ensures CallsOk(s') && QueueOk(s')
  {
    assert forall c | c in s.calls :: StartCall(c) !in s.inbox;
  }

  lemma NotifyKeepsReplies(s: State, s': State)
    requires Inv(s) && s' == StartedShutdown(s.(inbox := []))
    ensures RepliesOk(s') && ShutdownOk(s')
  {
    forall c | c in s'.pending ensures c in s'.calls && Closing in s'.calls[c].replies {
      assert s'.calls[c].replies[|s.calls[c].replies|] == Closing;
    }
  }

  lemma RunShutdownKeepsInv(s: State, s': State)
    requires Inv(s) && Next(s, RunMessage, s') && s.inbox[0] == StartShutdown
    ensures Inv(s')
  {
    assert s.inbox == [StartShutdown] && s.inbox[1..] == [];
    NotifyKeepsCalls(s, s');
    NotifyKeepsReplies(s, s');
  }

  lemma EndCallKeepsCalls(s: State, c: CallId, outcome: Outcome)
    requires CallsOk(s) && QueueOk(s) && c in s.calls && !s.calls[c].phase.Ended?
    ensures CallsOk(EndCall(s, c, outcome)) && QueueOk(EndCall(s, c, outcome))
  {
  }

  lemma EndCallKeepsReplies(s: State, c: CallId, outcome: Outcome)
    requires RepliesOk(s) && ShutdownOk(s) && c in s.calls
    requires outcome.Replied? ==> Mine(c, s.calls[c].handed, outcome.reply)
    ensures RepliesOk(EndCall(s, c, outcome)) && ShutdownOk(EndCall(s, c, outcome))
  {
  }

  lemma EndCallKeepsInv(s: State, c: CallId, outcome: Outcome)
    requires Inv(s) && c in s.calls && !s.calls[c].phase.Ended?
    requires outcome.Replied? ==> Mine(c, s.calls[c].handed, outcome.reply)
    ensures Inv(EndCall(s, c, outcome))
  {
    EndCallKeepsCalls(s, c, outcome);
    EndCallKeepsReplies(s, c, outcome);
  }

  lemma AnswerKeepsCalls(s: State, c: CallId, reply: Reply)
    requires CallsOk(s) && c in s.calls
    ensures CallsOk(Answer(s, c, reply))
  {
  }

  lemma AnswerKeepsQueue(s: State, c: CallId, reply: Reply)
    requires QueueOk(s) && c in s.calls
    ensures QueueOk(Answer(s, c, reply))
  {
  }

  lemma AnswerKeepsReplies(s: State, c: CallId, reply: Reply)
    requires RepliesOk(s) && c in s.calls && Mine(c, s.calls[c].handed, reply)
    ensures RepliesOk(Answer(s, c, reply))
  {
  }

  lemma AnswerKeepsInv(s: State, c: CallId, ok: bool)
    requires Inv(s) && c in s.calls && (ok ==> s.calls[c].handed == 1)
    ensures Inv(Answer(s, c, Own(c, ok)))
  {
    AnswerKeepsCalls(s, c, Own(c, ok));
    AnswerKeepsQueue(s, c, Own(c, ok));
    AnswerKeepsReplies(s, c, Own(c, ok));
    assert ShutdownOk(Answer(s, c, Own(c, ok))) by {
      forall d | Drained(s) && d in s.pending ensures Closing in Answer(s, c, Own(c, ok)).calls[d].replies {
        assert Closing in s.calls[d].replies;
      }
    }
  }

  lemma DequeueKeepsInv(s: State)
    requires Inv(s) && s.queue != []
    ensures Inv(s.(queue := s.queue[1..]))
  {
    assert QueueOk(s.(queue := s.queue[1..]));
  }

  lemma HandOverKeepsCalls(s: State, c: CallId)
    requires CallsOk(s) && c in s.calls && s.calls[c].phase != Submitted
    ensures CallsOk(HandOver(s, c))
  {
  }

  lemma HandOverKeepsQueue(s: State, c: CallId)
    requires QueueOk(s) && c in s.calls && s.calls[c].handed == 0 && forall i | 0 <= i < |s.queue| :: s.queue[i] != c
    ensures QueueOk(HandOver(s, c))
  {
  }

  lemma HandOverKeepsReplies(s: State, c: CallId)
    requires RepliesOk(s) && c in s.calls && s.calls[c].handed == 0
    ensures RepliesOk(HandOver(s, c))
  {
  }

  lemma HandOverKeepsInv(s: State, c: CallId)
    requires Inv(s) && s.server == Idle && c in s.calls && s.calls[c].handed == 0 && s.calls[c].phase != Submitted
    requires forall i | 0 <= i < |s.queue| :: s.queue[i] != c
    ensures Inv(HandOver(s, c))
  {
    HandOverKeepsCalls(s, c);
    HandOverKeepsQueue(s, c);
    HandOverKeepsReplies(s, c);
    assert ShutdownOk(HandOver(s, c));
  }

  lemma ServerTakeKeepsInv(s: State, late: bool, usable: bool, s': State)
    requires Inv(s) && Next(s, ServerTake(late, usable), s')
    ensures Inv(s')
  {
    DequeueKeepsInv(s);
    var c := s.queue[0];
    var r := s.(queue := s.queue[1..]);
    if !s.calls[c].abandoned && !late {
      if usable {
        HandOverKeepsInv(r, c);
      } else {
        AnswerKeepsInv(r, c, false);
      }
    }
  }

  lemma ServerMovesKeepsInv(s: State, server: Server)
    requires Inv(s) && s.server != NotStarted && (server == Idle || server == Stopped)
    ensures Inv(s.(server := server))
  {
  }

  lemma ServerKeepsInv(s: State, a: Action, s': State)
    requires Inv(s) && Next(s, a, s') && (a.ServerReply? || a.ServerDrop? || a.ServerStop?)
    ensures Inv(s')
  {
    if a.ServerReply? {
      AnswerKeepsInv(s, s.server.call, a.ok);
      ServerMovesKeepsInv(Answer(s, s.server.call, Own(s.server.call, a.ok)), Idle);
    } else {
      ServerMovesKeepsInv(s, s'.server);
    }
  }

  lemma GatherKeepsInv(s: State, a: Action, s': State)
    requires Inv(s) && Next(s, a, s') && (a.Gather? || a.FinishShutdown?)
    ensures Inv(s')
  {
  }

  lemma StepKeepsInv(s: State, a: Action, s': State)
    requires Inv(s) && Next(s, a, s')
    ensures Inv(s')
  {
    match a
    case Submit(c) => SubmitKeepsInv(s, c, s');
    case BeginShutdown => BeginKeepsInv(s, a, s');
    case BeginShutdownFails => BeginKeepsInv(s, a, s');
    case RunMessage =>
      if s.inbox[0] == StartServer { RunServerKeepsInv(s, s'); }
      else if s.inbox[0] == StartShutdown { RunShutdownKeepsInv(s, s'); }
      else { RunCallKeepsInv(s, s'); }
    case Deliver(c) => EndCallKeepsInv(s, c, Replied(s.calls[c].replies[0]));
    case Expire(c) => EndCallKeepsInv(s, c, TimedOut);
    case CancelCall(c) => EndCallKeepsInv(s, c, Cancelled);
    case ServerTake(late, usable) => ServerTakeKeepsInv(s, late, usable, s');
    case ServerReply(ok) => ServerKeepsInv(s, a, s');
    case ServerDrop => ServerKeepsInv(s, a, s');
    case ServerStop => ServerKeepsInv(s, a, s');
    case Gather => GatherKeepsInv(s, a, s');
    case FinishShutdown => GatherKeepsInv(s, a, s');
  }

  lemma {:induction false} EveryRunKeepsInv(states: seq<State>, actions: seq<Action>, n: nat)
    requires IsRun(states, actions) && n <= |actions|
    ensures Inv(states[n])
  {
    if n > 0 {
      EveryRunKeepsInv(states, actions, n - 1);
      StepKeepsInv(states[n - 1], actions[n - 1], states[n]);
    }
  }

  // ---------------------------------------------------------------- what the invariant gives

  /** Close drains everything: once the shutdown coroutine has gathered its snapshot no call
      is pending, and every call that was ever accepted has ended - with its own reply, the
      closing notice, its timeout, the caller's cancellation, or the refusal it met when it
      first ran. */
  lemma GatheredMeansAllEnded(states: seq<State>, actions: seq<Action>, n: nat)
    requires IsRun(states, actions) && n <= |actions|
    requires states[n].shutdown == Gathered || states[n].shutdown == Complete
    ensures states[n].pending == {} && states[n].queue == []
    ensures forall c | c in states[n].calls ::
              states[n].calls[c].phase.Ended? &&
              (states[n].calls[c].phase.outcome.Replied? ==>
                 Mine(c, states[n].calls[c].handed, states[n].calls[c].phase.outcome.reply))
  {
    EveryRunKeepsInv(states, actions, n);
    var s := states[n];
    forall c | c in s.calls ensures s.calls[c].phase.Ended? {
      assert s.calls[c].phase == Submitted ==> StartCall(c) in s.inbox;
    }
  }

  predicate Later(a: Shutdown, b: Shutdown) {
    a == b || a == Never || (a == Stored && b != Never) || (a.Draining? && (b == Gathered || b == Complete)) || (a == Gathered && b == Complete)
  }

  /** What is closed stays closed: the flag does not revert, no shutdown is undone, and after
      the close began no call is accepted or becomes pending. No call is forgotten, and one
      that has ended keeps its outcome. */
  ghost predicate Forward(s: State, s': State) {
    CallsForward(s, s') && SessionForward(s, s')
  }

  ghost predicate CallsForward(s: State, s': State) {
    forall c | c in s.calls ::
      && c in s'.calls && s.calls[c].handed <= s'.calls[c].handed
      && (s.calls[c].phase.Ended? ==> s'.calls[c].phase == s.calls[c].phase)
  }

  ghost predicate SessionForward(s: State, s': State) {
    && (s.close ==> s'.close && s'.calls.Keys == s.calls.Keys && s'.pending <= s.pending)
    && s.stored <= s'.stored && Later(s.shutdown, s'.shutdown)
  }

  lemma CallsForwardStep(s: State, a: Action, s': State)
    requires Next(s, a, s')
    ensures CallsForward(s, s')
  {
  }

  lemma SessionForwardStep(s: State, a: Action, s': State)
    requires Next(s, a, s') && (s.inbox != [] && s.inbox[0] == StartShutdown ==> s.shutdown == Stored)
    ensures SessionForward(s, s')
  {
  }

  lemma RunForward(states: seq<State>, actions: seq<Action>, n: nat)
    requires IsRun(states, actions) && n < |actions|
    ensures Forward(states[n], states[n + 1])
  {
    EveryRunKeepsInv(states, actions, n);
    CallsForwardStep(states[n], actions[n], states[n + 1]);
    SessionForwardStep(states[n], actions[n], states[n + 1]);
  }

  lemma {:induction false} Chain(states: seq<State>, m: nat, n: nat)
    requires m <= n < |states|
    requires forall i | m <= i < n :: Forward(states[i], states[i + 1])
    ensures Forward(states[m], states[n])
  {
    if m < n { Chain(states, m, n - 1); }
  }

  /** In every run the session only moves forward. */
  lemma ClosingIsFinal(states: seq<State>, actions: seq<Action>, m: nat, n: nat)
    requires IsRun(states, actions) && m <= n <= |actions|
    ensures Forward(states[m], states[n])
  {
    forall i | m <= i < n ensures Forward(states[i], states[i + 1]) {
      RunForward(states, actions, i);
    }
    Chain(states, m, n);
  }

  /** At most one shutdown coroutine is ever stored, and no call is handed over twice. */
  lemma AtMostOnce(states: seq<State>, actions: seq<Action>, n: nat)
    requires IsRun(states, actions) && n <= |actions|
    ensures states[n].stored == if states[n].shutdown == Never then 0 else 1
    ensures forall c | c in states[n].calls :: states[n].calls[c].handed <= 1
  {
    EveryRunKeepsInv(states, actions, n);
  }

  /** At most once, and in time: a step that hands a call to the server finds it waiting, not
      abandoned, never handed over before, and the shutdown has not drained the queue. */
  lemma HandoverIsTimely(s: State, a: Action, s': State, c: CallId)
    requires Inv(s) && Next(s, a, s')
    requires c in s.calls && c in s'.calls && s'.calls[c].handed != s.calls[c].handed
    ensures s.calls[c].handed == 0 && s'.calls[c].handed == 1
    ensures s.calls[c].phase == Waiting && !s.calls[c].abandoned && c in s.pending
    ensures !Drained(s)
  {
  }

  /** The drain leaves no call to wait in silence: whatever is still pending has a reply in
      its queue and can end at once, so the gathering is never blocked by the server. */
  lemma ShutdownNotifiesPending(states: seq<State>, actions: seq<Action>, n: nat, c: CallId)
    requires IsRun(states, actions) && n <= |actions|
    requires Drained(states[n]) && c in states[n].pending
    ensures c in states[n].calls && states[n].calls[c].phase == Waiting && states[n].calls[c].replies != []
    ensures exists s' :: Next(states[n], Deliver(c), s')
  {
    EveryRunKeepsInv(states, actions, n);
    var s := states[n];
    assert Closing in s.calls[c].replies;
    assert Next(s, Deliver(c), EndCall(s, c, Replied(s.calls[c].replies[0])));
  }
}
