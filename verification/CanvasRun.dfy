/** Whole runs of the canvas batch loop (agent/canvas.py, `_run_impl`): schedule a batch,
    dispatch it, let post-processing append successors, advance. */
module CanvasRun {
  import opened Readiness
  import opened Sequences

  /** What post-processing one dispatched component asks for. An exception branch (`goto`)
      is appended as it stands; ordinary successors go through the duplicate check. A
      `failed` component ends the run. */
  datatype Post = Post(goto: bool, ids: seq<Id>, failed: bool)

  function AppendPath(path: seq<Id>, to: nat, c: Id): (r: seq<Id>)
    requires path != [] && to <= |path|
    ensures path <= r
  {
    if path[|path| - 1] == c || c in path[to..] then path else path + [c]
  }

  function ExtendPath(path: seq<Id>, to: nat, cs: seq<Id>): (r: seq<Id>)
    requires path != [] && to <= |path|
    ensures path <= r
    decreases |cs|
  {
    if cs == [] then path else ExtendPath(AppendPath(path, to, cs[0]), to, cs[1..])
  }

  function PostOne(path: seq<Id>, to: nat, post: Post): (r: seq<Id>)
    requires path != [] && to <= |path|
    ensures path <= r
  {
    if post.goto then path + post.ids else ExtendPath(path, to, post.ids)
  }

  function PostAll(path: seq<Id>, to: nat, posts: seq<Post>): (r: seq<Id>)
    requires (posts != [] ==> path != []) && to <= |path|
    ensures path <= r
    decreases |posts|
  {
    if posts == [] then path else
      var last := |posts| - 1;
      PostOne(PostAll(path, to, posts[..last]), to, posts[last])
  }

  lemma PostAllSnoc(path: seq<Id>, to: nat, posts: seq<Post>, post: Post)
    requires path != [] && to <= |path|
    ensures PostAll(path, to, posts + [post]) == PostOne(PostAll(path, to, posts), to, post)
  {
    assert (posts + [post])[..|posts|] == posts;
  }

  /** A batch as it was dispatched: the path before it and its members. */
  datatype Dispatch = Dispatch(before: seq<Id>, members: seq<Id>, cyclic: bool)

  datatype RunState = RunState(path: seq<Id>, idx: nat, log: seq<Dispatch>, running: bool)

  ghost predicate Wf(s: RunState) {
    s.idx <= |s.path|
  }

  /** A run resumed at a UserFillUp dispatches the window as it stands. */
  ghost function Plan(g: Graph, path: seq<Id>, f: nat, t: nat): Batch
    requires path != [] && f <= t <= |path|
  {
    if g.fillUp(path[0]) then Batch(path, t, false) else Schedule(g, path, f, t)
  }

  ghost predicate CanStep(g: Graph, s: RunState, posts: seq<Post>) {
    && s.running && s.idx < |s.path|
    && |posts| == Plan(g, s.path, s.idx, |s.path|).to - s.idx
  }

  lemma Slices(a: seq<Id>, b: seq<Id>, c: seq<Id>)
    ensures var all := a + b + c;
            && all[..|a|] == a && all[|a|..|a| + |b|] == b && all[|a| + |b|..] == c
            && all[..|a| + |b|] == a + b && all[|a|..] == b + c
  {
  }

  /** With the window running to the end of the path, the batch and what is held behind it
      are the two parts of the division. */
  lemma ScheduleParts(g: Graph, path: seq<Id>, f: nat)
    requires f <= |path|
    ensures var b := Schedule(g, path, f, |path|);
            var d := Divide(g, Ids(path[..f]), path[f..]);
            && b == Batch(path[..f] + d.now + d.later, f + |d.now|, d.cyclic)
            && b.to <= |b.path|
            && b.path[..f] == path[..f] && b.path[f..b.to] == d.now && b.path[b.to..] == d.later
            && b.path[..b.to] == path[..f] + d.now && b.path[f..] == d.now + d.later
  {
    assert path[f..|path|] == path[f..];
    assert path[|path|..] == [];
    var d := Divide(g, Ids(path[..f]), path[f..]);
    Slices(path[..f], d.now, d.later);
  }

  /** Only the window is rewritten: what stands before and behind it stays. */
  lemma ScheduleKeepsRest(g: Graph, path: seq<Id>, f: nat, t: nat)
    requires f <= t <= |path|
    ensures var b := Schedule(g, path, f, t);
            && f <= b.to && |path| - t <= |b.path| <= |path| && b.path[..f] == path[..f]
            && b.path[|b.path| - (|path| - t)..] == path[t..]
  {
    var d := Divide(g, Ids(path[..f]), path[f..t]);
    assert |d.now| + |d.later| <= t - f by { DivisionKeepsSurvivors(g, Ids(path[..f]), path[f..t]); }
    FourParts(path[..f], d.now, d.later, path[t..]);
  }

  lemma FourParts(a: seq<Id>, b: seq<Id>, c: seq<Id>, d: seq<Id>)
    ensures var all := a + b + c + d;
            && |all| == |a| + |b| + |c| + |d| && all[..|a|] == a && all[|all| - |d|..] == d
  {
  }

  lemma PlanShape(g: Graph, path: seq<Id>, f: nat)
    requires f < |path|
    ensures var b := Plan(g, path, f, |path|);
            && f <= b.to <= |b.path| <= |path|
            && b.path[..f] == path[..f]
            && multiset(b.path[f..]) <= multiset(path[f..])
            && (b.to == f ==> |b.path| == f)
  {
    if !g.fillUp(path[0]) {
      ScheduleParts(g, path, f);
      DivisionKeepsSurvivors(g, Ids(path[..f]), path[f..]);
      KeepIsSub(path[f..], Survivors(g, Ids(path[..f]), Ids(path[f..])));
    }
  }

  lemma SubSnoc(a: seq<Id>, b: seq<Id>, x: Id)
    requires multiset(a) <= multiset(b)
    ensures multiset(a) <= multiset(b + [x]) && multiset(a + [x]) <= multiset(b + [x])
  {
    assert multiset(b + [x]) == multiset(b) + multiset{x};
    assert multiset(a + [x]) == multiset(a) + multiset{x};
  }

  lemma KeepSnoc(init: seq<Id>, x: Id, s: set<Id>)
    ensures Keep(init + [x], s) == if x in s then Keep(init, s) + [x] else Keep(init, s)
  {
    assert (init + [x])[..|init|] == init;
    assert Keep(init, s) + [] == Keep(init, s);
  }

  lemma {:induction false} KeepIsSub(xs: seq<Id>, s: set<Id>)
    ensures multiset(Keep(xs, s)) <= multiset(xs)
  {
    if xs != [] {
      var init, x := xs[..|xs| - 1], xs[|xs| - 1];
      KeepIsSub(init, s);
      assert xs == init + [x];
      KeepSnoc(init, x, s);
      SubSnoc(Keep(init, s), init, x);
    }
  }

  predicate SomeFailed(posts: seq<Post>) {
    exists i | 0 <= i < |posts| :: posts[i].failed
  }

  /** One turn of the batch loop. */
  ghost function After(g: Graph, s: RunState, posts: seq<Post>): (r: RunState)
    requires CanStep(g, s, posts)
    ensures Wf(r)
  {
    PlanShape(g, s.path, s.idx);
    var b := Plan(g, s.path, s.idx, |s.path|);
    var log := s.log + [Dispatch(b.path[..s.idx], b.path[s.idx..b.to], b.cyclic)];
    var path := PostAll(b.path, b.to, posts);
    if SomeFailed(posts) then RunState(path[..s.idx], s.idx, log, false)
    else RunState(path, b.to, log, true)
  }

  /** A run: any number of turns, with any choices made by post-processing. */
  ghost predicate IsRun(g: Graph, states: seq<RunState>, posts: seq<seq<Post>>) {
    && |states| == |posts| + 1
    && forall i | 0 <= i < |posts| :: CanStep(g, states[i], posts[i]) && states[i + 1] == After(g, states[i], posts[i])
  }

  const BEGIN: Id := "begin"

  /** A fresh turn: what earlier turns left on the path, then `begin`. */
  function Start(history: seq<Id>): RunState {
    RunState(history + [BEGIN], |history|, [], true)
  }

  ghost predicate FreshStart(g: Graph, history: seq<Id>) {
    !g.fillUp((history + [BEGIN])[0])
  }

  // ---------------------------------------------------------------- safety

  function Members(log: seq<Dispatch>): seq<Id> {
    if log == [] then [] else Members(log[..|log| - 1]) + log[|log| - 1].members
  }

  /** Every component that was dispatched and not failed as part of a cycle found all it
      reads on the path before its batch, and reads no other member of its batch. That part of
      the path includes what earlier turns left on it. */
  ghost predicate ReadsEarlierBatchesOnly(g: Graph, d: Dispatch) {
    !d.cyclic ==> forall c | c in d.members :: WaitingOn(g, c) <= Ids(d.before) && WaitingOn(g, c) !! Ids(d.members)
  }

  /** The log tiles the path: a batch's `before` is the history followed by the members of
      all earlier batches. */
  ghost predicate SafeLog(g: Graph, history: seq<Id>, log: seq<Dispatch>) {
    forall i | 0 <= i < |log| ::
      ReadsEarlierBatchesOnly(g, log[i]) && log[i].before == history + Members(log[..i])
  }

  /** What every turn of a fresh run keeps. */
  ghost predicate Safe(g: Graph, history: seq<Id>, s: RunState) {
    && Wf(s)
    && (s.running ==> s.path[..s.idx] == history + Members(s.log))
    && SafeLog(g, history, s.log)
    && (s.running && s.idx < |s.path| ==> !g.fillUp(s.path[0]))
    && (s.running && s.idx == 0 ==> s.path == [] || s.path == [BEGIN])
  }

  lemma StartIsSafe(g: Graph, history: seq<Id>)
    requires FreshStart(g, history)
    ensures Safe(g, history, Start(history)) && Start(history).path == history + ["begin"]
  {
    assert (history + [BEGIN])[..|history|] == history + Members([]);
  }

  lemma BatchIsSafe(g: Graph, path: seq<Id>, f: nat)
    requires f <= |path|
    ensures var b := Schedule(g, path, f, |path|);
            b.to <= |b.path| && f <= b.to && ReadsEarlierBatchesOnly(g, Dispatch(path[..f], b.path[f..b.to], b.cyclic))
  {
    ScheduleParts(g, path, f);
    var d := Divide(g, Ids(path[..f]), path[f..]);
    forall c | c in d.now && !d.cyclic
      ensures WaitingOn(g, c) <= Ids(path[..f]) && WaitingOn(g, c) !! Ids(d.now)
    {
      BatchReadsOnlyFinished(g, Ids(path[..f]), path[f..], c);
    }
  }

  lemma SafeLogGrows(g: Graph, history: seq<Id>, log: seq<Dispatch>, d: Dispatch)
    requires SafeLog(g, history, log) && ReadsEarlierBatchesOnly(g, d) && d.before == history + Members(log)
    ensures SafeLog(g, history, log + [d])
    ensures Members(log + [d]) == Members(log) + d.members
  {
    var log' := log + [d];
    assert log'[..|log|] == log;
    forall i | 0 <= i < |log'|
      ensures ReadsEarlierBatchesOnly(g, log'[i]) && log'[i].before == history + Members(log'[..i])
    {
      assert i < |log| ==> log'[..i] == log[..i];
    }
  }

  lemma AfterShape(g: Graph, s: RunState, posts: seq<Post>)
    requires CanStep(g, s, posts)
    ensures var b := Plan(g, s.path, s.idx, |s.path|);
            var r := After(g, s, posts);
            && s.idx <= b.to <= |b.path|
            && r.log == s.log + [Dispatch(b.path[..s.idx], b.path[s.idx..b.to], b.cyclic)]
            && (r.running ==> r.idx == b.to && b.path <= r.path && (posts == [] ==> r.path == b.path))
  {
    PlanShape(g, s.path, s.idx);
  }

  lemma StepKeepsSafe(g: Graph, history: seq<Id>, s: RunState, posts: seq<Post>)
    requires Safe(g, history, s) && CanStep(g, s, posts)
    ensures Safe(g, history, After(g, s, posts))
  {
    AfterShape(g, s, posts);
    ScheduleParts(g, s.path, s.idx);
    BatchIsSafe(g, s.path, s.idx);
    var b := Schedule(g, s.path, s.idx, |s.path|);
    var batch := Dispatch(s.path[..s.idx], b.path[s.idx..b.to], b.cyclic);
    SafeLogGrows(g, history, s.log, batch);
    Associative(history, Members(s.log), batch.members);
    var r := After(g, s, posts);
    assert SafeLog(g, history, r.log);
    if r.running {
      Prefix(b.path, r.path, b.to);
      HeadStays(g, s, posts);
    }
  }

  lemma Associative(a: seq<Id>, b: seq<Id>, c: seq<Id>)
    ensures a + b + c == a + (b + c)
  {
  }

  lemma Prefix(a: seq<Id>, b: seq<Id>, n: nat)
    requires a <= b && n <= |a|
    ensures a[..n] == b[..n]
  {
  }

  lemma OfOne(xs: seq<Id>, x: Id)
    requires multiset(xs) <= multiset([x])
    ensures xs == [] || xs[0] == x
  {
    if xs != [] {
      assert xs[0] in multiset(xs);
    }
  }

  /** The head of the path of a fresh run never changes. */
  lemma HeadStays(g: Graph, s: RunState, posts: seq<Post>)
    requires CanStep(g, s, posts) && (s.idx == 0 ==> s.path == [BEGIN])
    ensures var r := After(g, s, posts);
            r.running ==> (r.idx == 0 ==> r.path == []) && (r.path == [] || r.path[0] == s.path[0])
  {
    AfterShape(g, s, posts);
    PlanShape(g, s.path, s.idx);
    var b := Plan(g, s.path, s.idx, |s.path|);
    if s.idx == 0 {
      assert s.path[0..] == [BEGIN] && b.path[0..] == b.path;
      OfOne(b.path, BEGIN);
    } else {
      assert b.path[..s.idx][0] == s.path[..s.idx][0];
    }
  }

  /** Safety of whole runs, for every graph and every choice of successors. */
  lemma {:induction false} EveryRunIsSafe(g: Graph, history: seq<Id>, states: seq<RunState>, posts: seq<seq<Post>>)
    requires FreshStart(g, history)
    requires IsRun(g, states, posts) && states[0] == Start(history)
    ensures forall i | 0 <= i < |states| :: Safe(g, history, states[i])
  {
    if posts == [] {
      StartIsSafe(g, history);
    } else {
      var n := |posts| - 1;
      EveryRunIsSafe(g, history, states[..n + 1], posts[..n]);
      assert Safe(g, history, states[..n + 1][n]);
      StepKeepsSafe(g, history, states[n], posts[n]);
      forall i | 0 <= i < |states|
        ensures Safe(g, history, states[i])
      {
        if i <= n { assert states[i] == states[..n + 1][i]; }
      }
    }
  }

  // ---------------------------------------------------------------- held components

  ghost function DivisionAt(g: Graph, s: RunState): Division
    requires Wf(s)
  {
    Divide(g, Ids(s.path[..s.idx]), s.path[s.idx..])
  }

  ghost predicate Dispatched(g: Graph, s: RunState, c: Id) {
    Wf(s) && c in DivisionAt(g, s).now
  }

  ghost predicate Held(g: Graph, s: RunState, c: Id) {
    Wf(s) && c in DivisionAt(g, s).later
  }

  /** The next window is what was held, followed by what was appended. */
  lemma NextWindow(g: Graph, s: RunState, posts: seq<Post>) returns (appended: seq<Id>)
    requires CanStep(g, s, posts) && !g.fillUp(s.path[0]) && After(g, s, posts).running
    ensures var r := After(g, s, posts);
            var d := DivisionAt(g, s);
            r.path[..r.idx] == s.path[..s.idx] + d.now && r.path[r.idx..] == d.later + appended
  {
    AfterShape(g, s, posts);
    ScheduleParts(g, s.path, s.idx);
    var b := Schedule(g, s.path, s.idx, |s.path|);
    appended := Grown(b.path, After(g, s, posts).path, b.to);
  }

  lemma Grown(before: seq<Id>, after: seq<Id>, to: nat) returns (added: seq<Id>)
    requires before <= after && to <= |before|
    ensures after[..to] == before[..to] && after[to..] == before[to..] + added
  {
    added := after[|before|..];
    Prefix(before, after, to);
    assert after == before + added;
  }

  lemma HeldAgain(g: Graph, done: seq<Id>, window: seq<Id>, appended: seq<Id>, c: Id)
    requires c in Divide(g, Ids(done), window).later
    ensures var d := Divide(g, Ids(done), window);
            var e := Divide(g, Ids(done + d.now), d.later + appended);
            c in e.now || c in e.later
  {
    var d := Divide(g, Ids(done), window);
    assert Ids(done + d.now) == Ids(done) + Ids(d.now);
    HeldSurvive(g, Ids(done), window, appended);
    DivisionKeepsSurvivors(g, Ids(done + d.now), d.later + appended);
    assert c in Ids(d.later);
    var e := Divide(g, Ids(done + d.now), d.later + appended);
    assert c in Ids(e.now) + Ids(e.later);
  }

  lemma HeldOneTurn(g: Graph, s: RunState, posts: seq<Post>, c: Id)
    requires CanStep(g, s, posts) && !g.fillUp(s.path[0])
    requires Held(g, s, c) && After(g, s, posts).running
    ensures var r := After(g, s, posts); Dispatched(g, r, c) || Held(g, r, c)
  {
    var appended := NextWindow(g, s, posts);
    HeldAgain(g, s.path[..s.idx], s.path[s.idx..], appended, c);
  }

  lemma RunTurn(g: Graph, history: seq<Id>, states: seq<RunState>, posts: seq<seq<Post>>, n: nat)
    requires FreshStart(g, history)
    requires IsRun(g, states, posts) && states[0] == Start(history) && n < |posts|
    ensures CanStep(g, states[n], posts[n]) && states[n + 1] == After(g, states[n], posts[n])
    ensures states[n].running && !g.fillUp(states[n].path[0])
  {
    EveryRunIsSafe(g, history, states, posts);
    assert Safe(g, history, states[n]);
  }

  lemma {:induction false} Persists(held: nat -> bool, gone: nat -> bool, k: nat, n: nat)
    requires k <= n && held(k)
    requires forall i: nat | k <= i < n && held(i) :: held(i + 1) || gone(i + 1)
    ensures held(n) || exists j: nat | k < j <= n :: gone(j)
  {
    if k < n { Persists(held, gone, k, n - 1); }
  }

  /** Once held, a component is never dropped: at every later turn it has been dispatched
      in the meantime or is dispatched or held again, whatever was appended. */
  lemma HeldNeverDropped(g: Graph, history: seq<Id>, states: seq<RunState>, posts: seq<seq<Post>>, k: nat, n: nat, c: Id)
    requires FreshStart(g, history)
    requires IsRun(g, states, posts) && states[0] == Start(history)
    requires k < n < |states| && states[n].running
    requires Held(g, states[k], c)
    ensures Held(g, states[n], c) || exists j: nat | k < j <= n :: Dispatched(g, states[j], c)
  {
    var held := (i: nat) => i < |states| && Held(g, states[i], c);
    var gone := (i: nat) => i < |states| && Dispatched(g, states[i], c);
    forall i: nat | k <= i < n && held(i)
      ensures held(i + 1) || gone(i + 1)
    {
      RunTurn(g, history, states, posts, i);
      if i + 1 < n { RunTurn(g, history, states, posts, i + 1); }
      HeldOneTurn(g, states[i], posts[i], c);
    }
    Persists(held, gone, k, n);
  }

  // ---------------------------------------------------------------- nothing asked for is lost

  /** A component is still to run, or is the last one of the batch that has just run. */
  ghost predicate Follows(path: seq<Id>, to: nat, c: Id)
    requires to <= |path|
  {
    c in path[to..] || (to > 0 && path[to - 1] == c)
  }

  lemma FollowsLonger(path: seq<Id>, longer: seq<Id>, to: nat, c: Id)
    requires to <= |path| && path <= longer && Follows(path, to, c)
    ensures Follows(longer, to, c)
  {
    if c in path[to..] {
      var k :| 0 <= k < |path[to..]| && path[to..][k] == c;
      assert longer[to..][k] == path[to + k];
    }
  }

  lemma AppendFollows(path: seq<Id>, to: nat, c: Id)
    requires path != [] && to <= |path|
    ensures Follows(AppendPath(path, to, c), to, c)
  {
    AppendTidies(path, to, c);
  }

  lemma {:induction false} ExtendFollows(path: seq<Id>, to: nat, cs: seq<Id>, c: Id)
    requires path != [] && to <= |path| && c in cs
    ensures Follows(ExtendPath(path, to, cs), to, c)
    decreases |cs|
  {
    var p := AppendPath(path, to, cs[0]);
    if c == cs[0] {
      AppendFollows(path, to, c);
      FollowsLonger(p, ExtendPath(p, to, cs[1..]), to, c);
    } else {
      ExtendFollows(p, to, cs[1..], c);
    }
  }

  /** Whatever one component asks for follows; the targets of an exception branch follow as they
      stand, whether or not they are pending already. */
  lemma PostFollows(path: seq<Id>, to: nat, post: Post, c: Id)
    requires path != [] && to <= |path| && c in post.ids
    ensures Follows(PostOne(path, to, post), to, c)
    ensures post.goto ==> c in PostOne(path, to, post)[|path|..]
  {
    if post.goto {
      var k :| 0 <= k < |post.ids| && post.ids[k] == c;
      assert (path + post.ids)[|path|..][k] == c && (path + post.ids)[to..][|path| - to + k] == c;
    } else {
      ExtendFollows(path, to, post.ids, c);
    }
  }

  lemma {:induction false} PostsFollow(path: seq<Id>, to: nat, posts: seq<Post>, i: nat, c: Id)
    requires path != [] && to <= |path| && i < |posts| && c in posts[i].ids
    ensures Follows(PostAll(path, to, posts), to, c)
    decreases |posts|
  {
    var last := |posts| - 1;
    var before := PostAll(path, to, posts[..last]);
    if i == last {
      PostFollows(before, to, posts[last], c);
    } else {
      PostsFollow(path, to, posts[..last], i, c);
      FollowsLonger(before, PostOne(before, to, posts[last]), to, c);
    }
  }

  /** After a turn every successor that a member of the batch asked for is still to run, or is the
      last member itself. A turn with a failed component ends the run with the path cut to what
      ran before it. */
  lemma TurnFollows(g: Graph, s: RunState, posts: seq<Post>)
    requires CanStep(g, s, posts)
    ensures var r := After(g, s, posts);
            if exists i | 0 <= i < |posts| :: posts[i].failed then !r.running && r.path == s.path[..s.idx]
            else r.running && r.idx <= |r.path| && forall i, c | 0 <= i < |posts| && c in posts[i].ids :: Follows(r.path, r.idx, c)
  {
    PlanShape(g, s.path, s.idx);
    var b := Plan(g, s.path, s.idx, |s.path|);
    if !SomeFailed(posts) {
      forall i, c | 0 <= i < |posts| && c in posts[i].ids ensures Follows(PostAll(b.path, b.to, posts), b.to, c) {
        PostsFollow(b.path, b.to, posts, i, c);
      }
    }
  }

  // ---------------------------------------------------------------- what earlier turns left

  /** What a component reads and earlier turns did not leave on the path was dispatched earlier in
      this run. So it reads only what this run wrote exactly when everything it reads that stands
      in the history was dispatched again. */
  lemma ReadsThisRun(g: Graph, history: seq<Id>, log: seq<Dispatch>, i: nat, c: Id)
    requires SafeLog(g, history, log) && i < |log| && !log[i].cyclic && c in log[i].members
    ensures WaitingOn(g, c) - Ids(history) <= Ids(Members(log[..i]))
    ensures WaitingOn(g, c) <= Ids(Members(log[..i])) <==> WaitingOn(g, c) * Ids(history) <= Ids(Members(log[..i]))
  {
    assert ReadsEarlierBatchesOnly(g, log[i]) && log[i].before == history + Members(log[..i]);
    assert Ids(log[i].before) == Ids(history) + Ids(Members(log[..i]));
  }

  /** In every fresh run a component that reads nothing of the history reads only what earlier
      batches of the run wrote; on a new canvas that is every component. */
  lemma EveryRunReadsItself(g: Graph, history: seq<Id>, states: seq<RunState>, posts: seq<seq<Post>>, n: nat, i: nat, c: Id)
    requires IsRun(g, states, posts) && states[0] == Start(history) && FreshStart(g, history) && n <= |posts|
    requires i < |states[n].log| && !states[n].log[i].cyclic && c in states[n].log[i].members
    ensures WaitingOn(g, c) !! Ids(history) ==> WaitingOn(g, c) <= Ids(Members(states[n].log[..i]))
  {
    EveryRunIsSafe(g, history, states, posts);
    assert Safe(g, history, states[n]);
    ReadsThisRun(g, history, states[n].log, i, c);
  }

  /** A window whose members read only what is finished runs as it stands. */
  lemma AllReady(g: Graph, finished: set<Id>, window: seq<Id>)
    requires forall c | c in window :: WaitingOn(g, c) <= finished && WaitingOn(g, c) !! Ids(window)
    ensures Divide(g, finished, window) == Division(window, [], false)
  {
    var all := Ids(window);
    SurvivorsUnique(g, finished, all, all);
    assert Ready(g, all) == all;
    KeepAll(window, all);
    KeepNone(window);
    NoIds(window);
    assert all - all == {};
  }

  lemma {:induction false} KeepNone(xs: seq<Id>)
    ensures Keep(xs, {}) == []
  {
    if xs != [] { KeepNone(xs[..|xs| - 1]); }
  }

  /** A single pending component that finds what it reads is the next batch. */
  lemma OnePending(g: Graph, path: seq<Id>, c: Id)
    requires path != [] && !g.fillUp(path[0]) && WaitingOn(g, c) <= Ids(path) && c !in WaitingOn(g, c)
    ensures Plan(g, path + [c], |path|, |path| + 1) == Batch(path + [c], |path| + 1, false)
  {
    var all := path + [c];
    assert all[|path|..] == [c] && all[..|path|] == path && all[0] == path[0];
    AllReady(g, Ids(path), [c]);
    ScheduleParts(g, all, |path|);
    assert path + [c] + [] == all;
  }

  lemma OneTurn(g: Graph, path: seq<Id>, c: Id, log: seq<Dispatch>, ids: seq<Id>)
    requires path != [] && !g.fillUp(path[0]) && WaitingOn(g, c) <= Ids(path) && c !in WaitingOn(g, c)
    ensures var s, post := RunState(path + [c], |path|, log, true), Post(false, ids, false);
            && CanStep(g, s, [post])
            && After(g, s, [post]) == RunState(ExtendPath(path + [c], |path| + 1, ids), |path| + 1, log + [Dispatch(path, [c], false)], true)
  {
    var s, post := RunState(path + [c], |path|, log, true), Post(false, ids, false);
    OnePending(g, path, c);
    assert s.path[..|path|] == path && s.path[|path|..] == [c] && s.path[|path|..|path| + 1] == [c];
    assert !SomeFailed([post]);
    PostAllSnoc(s.path, |s.path|, [], post);
    assert [] + [post] == [post];
  }

  lemma ExtendByOne(path: seq<Id>, c: Id)
    requires path != [] && path[|path| - 1] != c
    ensures ExtendPath(path, |path|, [c]) == path + [c]
  {
    assert path[|path|..] == [] && [c][1..] == [];
  }

  lemma TwoTurns(g: Graph, s0: RunState, p0: seq<Post>, s1: RunState, p1: seq<Post>, s2: RunState)
    requires CanStep(g, s0, p0) && s1 == After(g, s0, p0) && CanStep(g, s1, p1) && s2 == After(g, s1, p1)
    ensures IsRun(g, [s0, s1, s2], [p0, p1])
  {
    var states, posts := [s0, s1, s2], [p0, p1];
    forall i | 0 <= i < 2 ensures CanStep(g, states[i], posts[i]) && states[i + 1] == After(g, states[i], posts[i]) {
      assert i == 0 || i == 1;
    }
  }

  /** A canvas in its second turn: "c" reads "a", and only "c" is appended again. */
  const READER := Graph(c => if c == "c" then ["a"] else [], c => c == BEGIN, _ => false)
  const HISTORY: seq<Id> := [BEGIN, "a", "c"]
  const FIRST := Dispatch(HISTORY, [BEGIN], false)
  const SECOND := Dispatch(HISTORY + [BEGIN], ["c"], false)
  const MIDDLE := RunState(HISTORY + [BEGIN] + ["c"], 4, [FIRST], true)
  const LAST := RunState(HISTORY + [BEGIN] + ["c"], 5, [FIRST, SECOND], true)

  lemma FirstTurn()
    ensures var p := [Post(false, ["c"], false)];
            CanStep(READER, Start(HISTORY), p) && MIDDLE == After(READER, Start(HISTORY), p)
  {
    assert WaitingOn(READER, BEGIN) == {};
    OneTurn(READER, HISTORY, BEGIN, [], ["c"]);
    ExtendByOne(HISTORY + [BEGIN], "c");
    assert [] + [FIRST] == [FIRST];
  }

  lemma SecondTurn()
    ensures var p := [Post(false, [], false)];
            CanStep(READER, MIDDLE, p) && LAST == After(READER, MIDDLE, p)
  {
    var path := HISTORY + [BEGIN];
    assert path[0] == BEGIN && path[1] == "a" && WaitingOn(READER, "c") == {"a"};
    OneTurn(READER, path, "c", [FIRST], []);
    assert [FIRST] + [SECOND] == [FIRST, SECOND];
  }

  /** The condition is needed: here "c" reads "a", which only an earlier turn ran, and is
      dispatched in the second turn all the same. */
  lemma HistoryCounts()
    ensures IsRun(READER, [Start(HISTORY), MIDDLE, LAST], [[Post(false, ["c"], false)], [Post(false, [], false)]])
    ensures FreshStart(READER, HISTORY) && LAST.log[1].members == ["c"] && !LAST.log[1].cyclic
    ensures "a" in WaitingOn(READER, "c") && "a" !in Members(LAST.log)
  {
    FirstTurn();
    SecondTurn();
    TwoTurns(READER, Start(HISTORY), [Post(false, ["c"], false)], MIDDLE, [Post(false, [], false)], LAST);
    ReaderLog();
  }

  lemma ReaderLog()
    ensures FreshStart(READER, HISTORY) && LAST.log[1].members == ["c"] && !LAST.log[1].cyclic
    ensures "a" in WaitingOn(READER, "c") && "a" !in Members(LAST.log)
  {
    TwoMembers(FIRST, SECOND);
  }

  lemma TwoMembers(d: Dispatch, e: Dispatch)
    ensures Members([d, e]) == d.members + e.members
  {
    assert [d, e][..1] == [d] && [d][..0] == [];
    assert Members([d]) == [] + d.members;
  }

  // ---------------------------------------------------------------- nothing is queued twice

  lemma {:induction false} OnceEach(xs: seq<Id>, c: Id)
    requires NoRepeats(xs)
    ensures multiset(xs)[c] <= 1
  {
    if xs != [] {
      var n := |xs| - 1;
      OnceEach(xs[..n], c);
      assert xs == xs[..n] + [xs[n]];
      if c == xs[n] { assert c !in xs[..n]; }
    }
  }

  lemma TwiceIsMore(xs: seq<Id>, i: nat, j: nat)
    requires i < j < |xs| && xs[i] == xs[j]
    ensures multiset(xs)[xs[i]] >= 2
  {
    assert xs == xs[..j] + xs[j..];
    assert multiset(xs) == multiset(xs[..j]) + multiset(xs[j..]);
    assert xs[i] in xs[..j] && xs[j] in xs[j..];
  }

  lemma FewerNoRepeats(a: seq<Id>, b: seq<Id>)
    requires multiset(a) <= multiset(b) && NoRepeats(b)
    ensures NoRepeats(a)
  {
    if i, j :| 0 <= i < j < |a| && a[i] == a[j] {
      TwiceIsMore(a, i, j);
      OnceEach(b, a[i]);
      assert false;
    }
  }

  /** What the check in front of appending achieves: the successor is pending afterwards, or is
      the last member of the batch that has just run, which is not queued again; and nothing becomes
      pending twice. */
  lemma AppendTidies(path: seq<Id>, to: nat, c: Id)
    requires path != [] && to <= |path|
    ensures var r := AppendPath(path, to, c);
            && (c in r[to..] || (|r| == to && r[to - 1] == c))
            && (path[|path| - 1] == c ==> r == path)
            && (NoRepeats(path[to..]) ==> NoRepeats(r[to..]))
  {
    var r := AppendPath(path, to, c);
    if r == path {
      if path[|path| - 1] == c && to < |path| { assert path[to..][|path| - 1 - to] == c; }
    } else {
      assert r[to..] == path[to..] + [c];
    }
  }

  lemma {:induction false} ExtendTidies(path: seq<Id>, to: nat, cs: seq<Id>)
    requires path != [] && to <= |path| && NoRepeats(path[to..])
    ensures NoRepeats(ExtendPath(path, to, cs)[to..])
    decreases |cs|
  {
    if cs != [] {
      AppendTidies(path, to, cs[0]);
      ExtendTidies(AppendPath(path, to, cs[0]), to, cs[1..]);
    }
  }

  /** No component took its exception branch, which appends without the check. */
  predicate NoGoto(posts: seq<Post>) {
    forall i | 0 <= i < |posts| :: !posts[i].goto
  }

  lemma {:induction false} PostsTidy(path: seq<Id>, to: nat, posts: seq<Post>)
    requires (posts != [] ==> path != []) && to <= |path| && NoRepeats(path[to..]) && NoGoto(posts)
    ensures NoRepeats(PostAll(path, to, posts)[to..])
    decreases |posts|
  {
    if posts != [] {
      var last := |posts| - 1;
      PostsTidy(path, to, posts[..last]);
      ExtendTidies(PostAll(path, to, posts[..last]), to, posts[last].ids);
    }
  }

  ghost predicate Tidy(s: RunState) {
    && s.idx <= |s.path| && NoRepeats(s.path[s.idx..])
    && forall i | 0 <= i < |s.log| :: NoRepeats(s.log[i].members)
  }

  lemma StepKeepsTidy(g: Graph, s: RunState, posts: seq<Post>)
    requires CanStep(g, s, posts) && NoGoto(posts) && Tidy(s)
    ensures Tidy(After(g, s, posts))
  {
    PlanShape(g, s.path, s.idx);
    var b := Plan(g, s.path, s.idx, |s.path|);
    FewerNoRepeats(b.path[s.idx..], s.path[s.idx..]);
    PartsNoRepeats(b.path, s.idx, b.to);
    PostsTidy(b.path, b.to, posts);
  }

  lemma PartsNoRepeats(path: seq<Id>, f: nat, to: nat)
    requires f <= to <= |path| && NoRepeats(path[f..])
    ensures NoRepeats(path[f..to]) && NoRepeats(path[to..])
  {
    assert forall i | f <= i < |path| :: path[i] == path[f..][i - f];
  }

  /** In every run that starts without repetitions and takes no exception branch, no component
      is pending twice, so no batch runs a component twice at once. */
  lemma {:induction false} NoBatchRepeats(g: Graph, states: seq<RunState>, posts: seq<seq<Post>>, n: nat)
    requires IsRun(g, states, posts) && n <= |posts| && Tidy(states[0]) && forall i | 0 <= i < |posts| :: NoGoto(posts[i])
    ensures Tidy(states[n])
  {
    if n > 0 {
      NoBatchRepeats(g, states, posts, n - 1);
      assert CanStep(g, states[n - 1], posts[n - 1]) && states[n] == After(g, states[n - 1], posts[n - 1]);
      StepKeepsTidy(g, states[n - 1], posts[n - 1]);
    }
  }

  lemma StartIsTidy(history: seq<Id>)
    ensures Tidy(Start(history))
  {
    assert (history + [BEGIN])[|history|..] == [BEGIN];
  }

  /** So it is in every fresh run. */
  lemma FreshRunNeverRepeats(g: Graph, history: seq<Id>, states: seq<RunState>, posts: seq<seq<Post>>, n: nat)
    requires IsRun(g, states, posts) && states[0] == Start(history) && n <= |posts| && forall i | 0 <= i < |posts| :: NoGoto(posts[i])
    ensures forall i | 0 <= i < |states[n].log| :: NoRepeats(states[n].log[i].members)
  {
    StartIsTidy(history);
    NoBatchRepeats(g, states, posts, n);
  }
}
