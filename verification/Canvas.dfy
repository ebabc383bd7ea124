/** The scheduler part of the canvas object (agent/canvas.py), which keeps its `path` in a
    field and rewrites it in place. */
module Canvas {
  import opened Readiness
  import opened Sequences
  import opened CanvasRun
  import opened CanvasOrder

  class Canvas {
    const graph: Graph
    var path: seq<Id>
    // Components marked by `set_unrunnable` and not yet dispatched.
    var unrunnable: set<Id>

    constructor (graph: Graph, history: seq<Id>)
      ensures this.graph == graph && path == history && unrunnable == {}
    {
      this.graph := graph;
      path := history;
      unrunnable := {};
    }

    /** Removes from the window, round after round, whatever waits on something that is
        neither finished nor still in the window. */
    method Prune(finished: set<Id>, all: set<Id>) returns (window: set<Id>)
      ensures window == Survivors(graph, finished, all)
    {
      window := all;
      var pruning := true;
      while pruning
        invariant window <= all
        invariant forall s: set<Id> | s <= all && Closed(graph, finished, s) :: s <= window
        invariant !pruning ==> Closed(graph, finished, window)
        decreases pruning, |window|
      {
        var unavailable := set c | c in window && !(WaitingOn(graph, c) <= finished + window);
        forall s: set<Id> | s <= all && Closed(graph, finished, s)
          ensures s <= window - unavailable
        {
          assert forall c | c in s :: WaitingOn(graph, c) <= finished + window;
        }
        if unavailable == {} {
          forall c | c in window ensures WaitingOn(graph, c) <= finished + window {
            assert c !in unavailable;
          }
          pruning := false;
        } else {
          Smaller(window, unavailable);
          window := window - unavailable;
        }
      }
      SurvivorsUnique(graph, finished, all, window);
    }

    /** Sorts the surviving entries of the window into runnable and waiting ones. */
    method Sort(entries: seq<Id>, window: set<Id>) returns (ready: seq<Id>, deferred: seq<Id>)
      ensures ready == Keep(entries, Ready(graph, window))
      ensures deferred == Keep(entries, window - Ready(graph, window))
    {
      ready, deferred := [], [];
      for i := 0 to |entries|
        invariant ready == Keep(entries[..i], Ready(graph, window))
        invariant deferred == Keep(entries[..i], window - Ready(graph, window))
      {
        var c := entries[i];
        assert entries[..i + 1][..i] == entries[..i];
        if c in window {
          if WaitingOn(graph, c) !! window {
            ready := ready + [c];
          } else {
            deferred := deferred + [c];
          }
        }
      }
      assert entries[..|entries|] == entries;
    }

    /** Reorders the window `path[f..t]` and returns the end of the batch. */
    method Schedulable(f: nat, t: nat) returns (to: nat)
      requires path != [] && f <= t <= |path|
      modifies this`path, this`unrunnable
      ensures var b := Plan(graph, old(path), f, t);
              && path == b.path && f <= to == b.to <= |path|
              && unrunnable == old(unrunnable) + if b.cyclic then Ids(path[f..to]) else {}
    {
      if graph.fillUp(path[0]) {
        return t;
      }
      var finished := Ids(path[..f]);
      var window := Prune(finished, Ids(path[f..t]));
      var ready, deferred := Sort(path[f..t], window);
      ghost var d := DivideAs(graph, finished, path[f..t], ready, deferred);
      if ready == [] && deferred != [] {
        // Every candidate waits on another one: fail them all rather than run them.
        unrunnable := unrunnable + Ids(deferred);
        ready, deferred := deferred, [];
      }
      Middle(path[..f], ready, deferred, path[t..]);
      path := path[..f] + ready + deferred + path[t..];
      to := f + |ready|;
    }

    method Append(to: nat, c: Id)
      requires path != [] && to <= |path|
      modifies this`path
      ensures path == AppendPath(old(path), to, c)
      ensures c in path[to..] || (|path| == to && path[to - 1] == c)
      ensures NoRepeats(old(path)[to..]) ==> NoRepeats(path[to..])
    {
      AppendTidies(path, to, c);
      if path[|path| - 1] == c || c in path[to..] {
        return;
      }
      path := path + [c];
    }

    method Extend(to: nat, cs: seq<Id>)
      requires path != [] && to <= |path|
      modifies this`path
      ensures path == ExtendPath(old(path), to, cs)
    {
      for i := 0 to |cs|
        invariant old(path) <= path
        invariant ExtendPath(path, to, cs[i..]) == ExtendPath(old(path), to, cs)
      {
        assert cs[i..][1..] == cs[i + 1..];
        Append(to, cs[i]);
      }
    }

    /** Appends what one component asks for. */
    method Follow(to: nat, p: Post)
      requires path != [] && to <= |path|
      modifies this`path
      ensures path == PostOne(old(path), to, p)
    {
      if p.goto {
        path := path + p.ids;
      } else {
        Extend(to, p.ids);
      }
    }

    /** Post-processes the dispatched batch `path[f..to]`. */
    method PostProcess(f: nat, to: nat, post: (nat, Id) -> Post) returns (failed: bool, ghost posts: seq<Post>)
      requires f <= to <= |path|
      modifies this`path
      ensures |posts| == to - f && forall i | 0 <= i < to - f :: posts[i] == post(f + i, old(path)[f + i])
      ensures path == PostAll(old(path), to, posts)
      ensures failed <==> SomeFailed(posts)
    {
      failed := false;
      posts := Posts(post, f, path[f..to]);
      assert posts[..0] == [];
      for i := f to to
        invariant path == PostAll(old(path), to, posts[..i - f])
        invariant failed <==> SomeFailed(posts[..i - f])
      {
        assert i < |path| && path[i] == old(path)[i] by { KeptEntry(old(path), to, posts[..i - f], i); }
        ghost var before := path;
        var p := post(i, path[i]);
        assert p == posts[i - f] by { PostAt(post, f, old(path), to, i); }
        Follow(to, p);
        failed := failed || p.failed;
        assert path == PostAll(old(path), to, posts[..i + 1 - f]) && (failed <==> SomeFailed(posts[..i + 1 - f])) by {
          PostStep(old(path), before, to, posts, i - f, path);
        }
      }
      assert posts[..to - f] == posts;
    }

    /** One turn of the batch loop over the pending entries `path[idx..]`. */
    method Turn(idx: nat, post: (nat, Id) -> Post, ghost log: seq<Dispatch>)
      returns (to: nat, batch: Dispatch, failed: bool, ghost posts: seq<Post>)
      requires idx < |path| && unrunnable == {}
      modifies this`path, this`unrunnable
      ensures idx <= to <= |path| && unrunnable == {}
      ensures CanStep(graph, RunState(old(path), idx, log, true), posts)
      ensures After(graph, RunState(old(path), idx, log, true), posts) == TurnResult(path, idx, to, log + [batch], failed)
      ensures PostsFrom(Plan(graph, old(path), idx, |old(path)|), idx, posts, post)
    {
      PlanShape(graph, path, idx);
      to := Schedulable(idx, |path|);
      batch := Dispatch(path[..idx], path[idx..to], unrunnable != {});
      CyclicMarks(graph, old(path), idx);
      // Dispatching a marked component consumes its mark.
      unrunnable := unrunnable - Ids(path[idx..to]);
      failed, posts := PostProcess(idx, to, post);
    }

    /** The whole run. It halts because whatever post-processing may append for a component
        has a smaller rank: `succ` lists it, and the weights of the pending entries fall. */
    method Run(post: (nat, Id) -> Post, ghost succ: Id -> seq<Id>, ghost rank: Id -> nat)
      returns (log: seq<Dispatch>, failed: bool, ghost states: seq<RunState>, ghost choices: seq<seq<Post>>)
      requires unrunnable == {}
      requires Falling(succ, rank) && forall n: nat, c: Id :: Allowed(succ, c, post(n, c))
      modifies this`path, this`unrunnable
      ensures IsRun(graph, states, choices)
      ensures var resumed := old(path) != [] && graph.fillUp(old(path)[0]);
              var last := states[|choices|];
              && states[0] == (if resumed then RunState(old(path), 0, [], true) else Start(old(path)))
              && last.log == log && last.running == !failed
              && last.idx <= |last.path| && path == last.path[..last.idx]
              && (!failed ==> last.idx == |last.path|)
              && (!resumed && FreshStart(graph, old(path)) ==> SafeLog(graph, old(path), log))
      ensures unrunnable == {}
    {
      var resumed := path != [] && graph.fillUp(path[0]);
      if !resumed {
        path := path + [BEGIN];
      }
      var idx: nat := if resumed then 0 else |path| - 1;
      log, failed := [], false;
      ghost var s := RunState(path, idx, [], true);
      states, choices := [s], [];
      while idx < |path| && !failed
        invariant idx <= |path| && unrunnable == {}
        invariant IsRun(graph, states, choices) && s == states[|choices|]
        invariant states[0] == if resumed then RunState(old(path), 0, [], true) else Start(old(path))
        invariant s == TurnResult(path, idx, idx, log, failed)
        decreases !failed, if failed || idx == |path| then 0 else 1 + Load(succ, rank, path[idx..])
      {
        ghost var before := s;
        var to, batch, stop, posts := Turn(idx, post, log);
        LoadFalls(graph, succ, rank, before, posts, post);
        s := After(graph, before, posts);
        RunGrows(graph, states, choices, posts);
        states, choices := states + [s], choices + [posts];
        log := log + [batch];
        if stop {
          failed := true;
        } else {
          idx := to;
        }
      }
      path := path[..idx];
      if !resumed && FreshStart(graph, old(path)) {
        EveryRunIsSafe(graph, old(path), states, choices);
        assert Safe(graph, old(path), states[|choices|]);
      }
    }
  }

  /** What the members of a batch that starts at `f` ask for. */
  function Posts(post: (nat, Id) -> Post, f: nat, batch: seq<Id>): (posts: seq<Post>)
    ensures |posts| == |batch| && forall i | 0 <= i < |batch| :: posts[i] == post(f + i, batch[i])
  {
    seq(|batch|, i requires 0 <= i < |batch| => post(f + i, batch[i]))
  }

  lemma PostAt(post: (nat, Id) -> Post, f: nat, path: seq<Id>, to: nat, i: nat)
    requires f <= i < to <= |path|
    ensures Posts(post, f, path[f..to])[i - f] == post(i, path[i])
  {
    var k: nat := i - f;
    assert f + k == i && path[f..to][k] == path[i];
  }

  lemma KeptEntry(path: seq<Id>, to: nat, posts: seq<Post>, i: nat)
    requires path != [] && to <= |path| && i < to
    ensures |path| <= |PostAll(path, to, posts)| && PostAll(path, to, posts)[i] == path[i]
  {
  }

  /** One more component is post-processed. */
  lemma PostStep(path: seq<Id>, before: seq<Id>, to: nat, posts: seq<Post>, k: nat, after: seq<Id>)
    requires path != [] && to <= |path| && k < |posts|
    requires before == PostAll(path, to, posts[..k]) && after == PostOne(before, to, posts[k])
    ensures after == PostAll(path, to, posts[..k + 1])
    ensures SomeFailed(posts[..k + 1]) <==> SomeFailed(posts[..k]) || posts[k].failed
  {
    assert posts[..k + 1] == posts[..k] + [posts[k]];
    PostAllSnoc(path, to, posts[..k], posts[k]);
    FailedSnoc(posts[..k], posts[k]);
  }

  lemma FailedSnoc(posts: seq<Post>, p: Post)
    ensures SomeFailed(posts + [p]) <==> SomeFailed(posts) || p.failed
  {
    var all := posts + [p];
    assert all[|posts|] == p;
    assert forall i | 0 <= i < |posts| :: all[i] == posts[i];
  }

  /** The two sorted lists are the division, except that a stuck window is failed whole. */
  lemma DivideAs(g: Graph, finished: set<Id>, window: seq<Id>, ready: seq<Id>, deferred: seq<Id>) returns (d: Division)
    requires var alive := Survivors(g, finished, Ids(window));
             ready == Keep(window, Ready(g, alive)) && deferred == Keep(window, alive - Ready(g, alive))
    ensures d == Divide(g, finished, window)
    ensures d == if ready == [] && deferred != [] then Division(deferred, [], true) else Division(ready, deferred, false)
  {
    d := Divide(g, finished, window);
    SurvivorsAreGreatestClosed(g, finished, Ids(window));
    var alive := Survivors(g, finished, Ids(window));
    KeepIds(window, Ready(g, alive));
    KeepIds(window, alive - Ready(g, alive));
    NoIds(ready);
    NoIds(deferred);
    assert alive - {} == alive;
  }

  /** In a turn, some component is marked exactly when the batch is failed as a cycle, and
      then every marked component is in the batch. */
  lemma CyclicMarks(g: Graph, path: seq<Id>, f: nat)
    requires f < |path|
    ensures var b := Plan(g, path, f, |path|);
            f <= b.to <= |b.path| && (b.cyclic ==> Ids(b.path[f..b.to]) != {})
  {
    PlanShape(g, path, f);
    if !g.fillUp(path[0]) {
      ScheduleParts(g, path, f);
      DivisionKeepsSurvivors(g, Ids(path[..f]), path[f..]);
    }
  }

  /** The state a turn leaves: a failed run is cut back to where its last turn began. */
  function TurnResult(path: seq<Id>, idx: nat, to: nat, log: seq<Dispatch>, failed: bool): RunState
    requires idx <= |path|
  {
    if failed then RunState(path[..idx], idx, log, false) else RunState(path, to, log, true)
  }

  ghost predicate PostsFrom(b: Batch, f: nat, posts: seq<Post>, post: (nat, Id) -> Post) {
    && |posts| <= |b.path| - f
    && forall i | 0 <= i < |posts| :: posts[i] == post(f + i, b.path[f + i])
  }

  lemma LoadFalls(g: Graph, succ: Id -> seq<Id>, rank: Id -> nat, s: RunState, posts: seq<Post>, post: (nat, Id) -> Post)
    requires Falling(succ, rank) && forall n: nat, c: Id :: Allowed(succ, c, post(n, c))
    requires CanStep(g, s, posts) && PostsFrom(Plan(g, s.path, s.idx, |s.path|), s.idx, posts, post)
    ensures var r := After(g, s, posts);
            r.running ==> r.idx == |r.path| || Load(succ, rank, r.path[r.idx..]) < Load(succ, rank, s.path[s.idx..])
  {
    PlanShape(g, s.path, s.idx);
    TurnLowersLoad(g, succ, rank, s, posts);
  }

  lemma RunGrows(g: Graph, states: seq<RunState>, choices: seq<seq<Post>>, posts: seq<Post>)
    requires IsRun(g, states, choices) && CanStep(g, states[|choices|], posts)
    ensures IsRun(g, states + [After(g, states[|choices|], posts)], choices + [posts])
  {
    var s := states[|choices|];
    var all, picks := states + [After(g, s, posts)], choices + [posts];
    forall i | 0 <= i < |picks| ensures CanStep(g, all[i], picks[i]) && all[i + 1] == After(g, all[i], picks[i]) {
      if i < |choices| {
        assert all[i] == states[i] && all[i + 1] == states[i + 1] && picks[i] == choices[i];
      }
    }
  }

  lemma Middle(a: seq<Id>, b: seq<Id>, c: seq<Id>, d: seq<Id>)
    ensures (a + b + c + d)[|a|..|a| + |b|] == b
  {
  }

  lemma Smaller(s: set<Id>, r: set<Id>)
    requires r <= s && r != {}
    ensures |s - r| < |s|
  {
    assert s == (s - r) + r;
  }
}
