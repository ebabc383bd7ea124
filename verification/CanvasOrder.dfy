/** Two liveness-flavoured facts about the canvas batch loop (agent/canvas.py): when nothing
    is appended the window is run out in topological order, and when what may be appended is
    acyclic a numeric measure falls with every turn. */
module CanvasOrder {
  import opened Readiness
  import opened CanvasRun

  // ---------------------------------------------------------------- a fixed window

  /** Post-processing that appends nothing. */
  function Silent(n: nat): (posts: seq<Post>)
    ensures |posts| == n
  {
    seq(n, i => Post(false, [], false))
  }

  lemma {:induction false} SilentAppendsNothing(path: seq<Id>, to: nat, n: nat)
    requires (n > 0 ==> path != []) && to <= |path|
    ensures PostAll(path, to, Silent(n)) == path
  {
    if n > 0 {
      assert Silent(n)[..n - 1] == Silent(n - 1);
      SilentAppendsNothing(path, to, n - 1);
    }
  }

  /** A run that is no resume, and does not turn into one: while nothing is finished the head
      of the path may still change. */
  ghost predicate Fresh(g: Graph, s: RunState) {
    && Wf(s) && s.running
    && if s.idx > 0 then !g.fillUp(s.path[0]) else forall c | c in s.path :: !g.fillUp(c)
  }

  ghost function QuietTurn(g: Graph, s: RunState): RunState
    requires Fresh(g, s) && s.idx < |s.path|
  {
    PlanShape(g, s.path, s.idx);
    After(g, s, Silent(Plan(g, s.path, s.idx, |s.path|).to - s.idx))
  }

  lemma QuietTurnIsSchedule(g: Graph, s: RunState)
    requires Fresh(g, s) && s.idx < |s.path|
    ensures var r := QuietTurn(g, s);
            var b := Schedule(g, s.path, s.idx, |s.path|);
            r.running && r.path == b.path && r.idx == b.to
  {
    PlanShape(g, s.path, s.idx);
    var b := Plan(g, s.path, s.idx, |s.path|);
    var posts := Silent(b.to - s.idx);
    SilentAppendsNothing(b.path, b.to, b.to - s.idx);
    SilentSucceeds(g, s, posts);
  }

  lemma SilentSucceeds(g: Graph, s: RunState, posts: seq<Post>)
    requires CanStep(g, s, posts) && forall i | 0 <= i < |posts| :: !posts[i].failed
    ensures var b, r := Plan(g, s.path, s.idx, |s.path|), After(g, s, posts);
            b.to <= |b.path| && r.running && r.idx == b.to && (posts != [] ==> b.path != []) && r.path == PostAll(b.path, b.to, posts)
  {
    PlanShape(g, s.path, s.idx);
  }

  /** A quiet turn moves the batch into the finished prefix and leaves what was held. */
  lemma QuietTurnParts(g: Graph, s: RunState)
    requires Fresh(g, s) && s.idx < |s.path|
    ensures var r := QuietTurn(g, s);
            var d := DivisionAt(g, s);
            && Fresh(g, r) && r.path[..r.idx] == s.path[..s.idx] + d.now && r.path[r.idx..] == d.later
            && |d.later| < |s.path| - s.idx
  {
    QuietTurnIsSchedule(g, s);
    ScheduleParts(g, s.path, s.idx);
    DivisionKeepsSurvivors(g, Ids(s.path[..s.idx]), s.path[s.idx..]);
    QuietTurnStaysFresh(g, s);
  }

  lemma QuietTurnStaysFresh(g: Graph, s: RunState)
    requires Fresh(g, s) && s.idx < |s.path|
    ensures Fresh(g, QuietTurn(g, s))
  {
    QuietTurnIsSchedule(g, s);
    PlanShape(g, s.path, s.idx);
    var r := QuietTurn(g, s);
    if s.idx > 0 {
      assert r.path[..s.idx][0] == s.path[..s.idx][0];
    } else {
      assert r.path[0..] == r.path && s.path[0..] == s.path;
      forall c | c in r.path ensures !g.fillUp(c) {
        assert c in multiset(r.path);
      }
    }
  }

  /** The run that follows when no component appends anything. */
  ghost function RunOut(g: Graph, s: RunState): RunState
    requires Fresh(g, s)
    decreases |s.path| - s.idx
  {
    if s.idx == |s.path| then s else
      QuietTurnParts(g, s);
      RunOut(g, QuietTurn(g, s))
  }

  /** The order in which a window is executed behind `done` when nothing is appended. */
  ghost function Order(g: Graph, done: seq<Id>, window: seq<Id>): seq<Id>
    decreases |window|
  {
    if window == [] then [] else
      var d := Divide(g, Ids(done), window);
      DivisionKeepsSurvivors(g, Ids(done), window);
      d.now + Order(g, done + d.now, d.later)
  }

  lemma OrderStep(g: Graph, done: seq<Id>, window: seq<Id>)
    requires window != []
    ensures var d := Divide(g, Ids(done), window);
            Order(g, done, window) == d.now + Order(g, done + d.now, d.later)
  {
  }

  lemma {:induction false} RunOutFollowsOrder(g: Graph, s: RunState)
    requires Fresh(g, s)
    ensures var r := RunOut(g, s);
            r.idx == |r.path| && r.path == s.path[..s.idx] + Order(g, s.path[..s.idx], s.path[s.idx..])
    decreases |s.path| - s.idx
  {
    var done, window := s.path[..s.idx], s.path[s.idx..];
    assert s.path == done + window;
    if s.idx < |s.path| {
      QuietTurnParts(g, s);
      RunOutFollowsOrder(g, QuietTurn(g, s));
      OrderStep(g, done, window);
      var d := DivisionAt(g, s);
      Associative(done, d.now, Order(g, done + d.now, d.later));
    }
  }

  lemma HeldAreClosed(g: Graph, finished: set<Id>, window: seq<Id>)
    ensures var d := Divide(g, finished, window);
            Survivors(g, finished + Ids(d.now), Ids(d.later)) == Ids(d.later)
  {
    var d := Divide(g, finished, window);
    HeldSurvive(g, finished, window, []);
    assert d.later + [] == d.later;
    SurvivorsAreGreatestClosed(g, finished + Ids(d.now), Ids(d.later));
  }

  /** No component of `order` reads one that stands at or behind it, and each finds all it
      reads in `done` or in front of it. */
  ghost predicate Topological(g: Graph, done: set<Id>, order: seq<Id>) {
    Ordered(g, order) && Supplied(g, done, order)
  }

  ghost predicate Ordered(g: Graph, order: seq<Id>) {
    forall i, j | 0 <= i < |order| && 0 <= j < |order| && order[i] in WaitingOn(g, order[j]) :: i < j
  }

  ghost predicate Supplied(g: Graph, done: set<Id>, order: seq<Id>) {
    forall j | 0 <= j < |order| :: WaitingOn(g, order[j]) <= done + Ids(order[..j])
  }

  /** A batch reads neither itself nor what follows. */
  ghost predicate ReadsNeither(g: Graph, done: set<Id>, now: seq<Id>, rest: seq<Id>) {
    forall c | c in now :: WaitingOn(g, c) <= done && WaitingOn(g, c) !! Ids(now) + Ids(rest)
  }

  lemma NotRead(g: Graph, done: set<Id>, now: seq<Id>, rest: seq<Id>, i: nat, j: nat)
    requires ReadsNeither(g, done, now, rest) && i < |now + rest| && j < |now|
    ensures (now + rest)[i] !in WaitingOn(g, (now + rest)[j])
  {
    var c := (now + rest)[i];
    assert now[j] in now;
    assert c in Ids(now) + Ids(rest) by {
      assert c in now || c in rest;
    }
  }

  lemma ConcatOrdered(g: Graph, done: set<Id>, now: seq<Id>, rest: seq<Id>, i: nat, j: nat)
    requires ReadsNeither(g, done, now, rest) && Ordered(g, rest)
    requires i < |now + rest| && j < |now + rest| && (now + rest)[i] in WaitingOn(g, (now + rest)[j])
    ensures i < j
  {
    var order, n := now + rest, |now|;
    if j < n {
      NotRead(g, done, now, rest, i, j);
    } else if i >= n {
      assert order[j] == rest[j - n] && order[i] == rest[i - n];
    }
  }

  lemma ConcatFinds(g: Graph, done: set<Id>, now: seq<Id>, rest: seq<Id>, j: nat)
    requires ReadsNeither(g, done, now, rest) && Supplied(g, done + Ids(now), rest) && j < |now + rest|
    ensures WaitingOn(g, (now + rest)[j]) <= done + Ids((now + rest)[..j])
  {
    var order, n := now + rest, |now|;
    if j < n {
      assert order[j] in now;
    } else {
      assert order[j] == rest[j - n];
      assert order[..j] == now + rest[..j - n];
      assert WaitingOn(g, order[j]) <= done + Ids(now) + Ids(rest[..j - n]);
    }
  }

  lemma TopologicalConcat(g: Graph, done: set<Id>, now: seq<Id>, rest: seq<Id>)
    requires ReadsNeither(g, done, now, rest) && Topological(g, done + Ids(now), rest)
    ensures Topological(g, done, now + rest)
  {
    var order := now + rest;
    forall i, j | 0 <= i < |order| && 0 <= j < |order| && order[i] in WaitingOn(g, order[j]) ensures i < j {
      ConcatOrdered(g, done, now, rest, i, j);
    }
    forall j | 0 <= j < |order| ensures WaitingOn(g, order[j]) <= done + Ids(order[..j]) {
      ConcatFinds(g, done, now, rest, j);
    }
  }

  lemma NowThenLater(g: Graph, done: set<Id>, window: seq<Id>, rest: seq<Id>)
    requires var d := Divide(g, done, window);
             !d.cyclic && multiset(rest) == multiset(d.later) && Topological(g, done + Ids(d.now), rest)
    ensures Topological(g, done, Divide(g, done, window).now + rest)
  {
    var d := Divide(g, done, window);
    SameIds(rest, d.later);
    forall c | c in d.now
      ensures WaitingOn(g, c) <= done && WaitingOn(g, c) !! Ids(d.now) + Ids(rest)
    {
      BatchReadsOnlyFinished(g, done, window, c);
    }
    TopologicalConcat(g, done, d.now, rest);
  }

  lemma SameIds(a: seq<Id>, b: seq<Id>)
    requires multiset(a) == multiset(b)
    ensures Ids(a) == Ids(b)
  {
    assert forall x :: x in a <==> x in multiset(a);
    assert forall x :: x in b <==> x in multiset(b);
  }

  /** On acyclic dependencies a fixed window is executed completely: every surviving entry
      runs, as often as it was listed, in topological order. */
  lemma {:induction false} OrderIsTopological(g: Graph, rank: Id -> nat, done: seq<Id>, window: seq<Id>)
    requires Ranked(g, rank)
    ensures multiset(Order(g, done, window)) == multiset(Keep(window, Survivors(g, Ids(done), Ids(window))))
    ensures Topological(g, Ids(done), Order(g, done, window))
    decreases |window|
  {
    if window != [] {
      var d := Divide(g, Ids(done), window);
      DivisionKeepsSurvivors(g, Ids(done), window);
      OrderIsTopological(g, rank, done + d.now, d.later);
      HeldAreClosed(g, Ids(done), window);
      assert Ids(done + d.now) == Ids(done) + Ids(d.now);
      KeepAll(d.later, Ids(d.later));
      RankedNeverCyclic(g, rank, Ids(done), window);
      NowThenLater(g, Ids(done), window, Order(g, done + d.now, d.later));
    }
  }

  lemma FixedWindowRunsInOrder(g: Graph, rank: Id -> nat, s: RunState)
    requires Ranked(g, rank) && Fresh(g, s)
    ensures var r := RunOut(g, s);
            var alive := Survivors(g, Ids(s.path[..s.idx]), Ids(s.path[s.idx..]));
            && r.idx == |r.path| >= s.idx && r.path[..s.idx] == s.path[..s.idx]
            && multiset(r.path[s.idx..]) == multiset(Keep(s.path[s.idx..], alive))
            && Topological(g, Ids(s.path[..s.idx]), r.path[s.idx..])
  {
    RunOutFollowsOrder(g, s);
    OrderIsTopological(g, rank, s.path[..s.idx], s.path[s.idx..]);
    var order := Order(g, s.path[..s.idx], s.path[s.idx..]);
    assert (s.path[..s.idx] + order)[s.idx..] == order;
  }

  // ---------------------------------------------------------------- termination

  /** `rank` strictly falls from a component to anything post-processing may append for it. */
  ghost predicate Falling(succ: Id -> seq<Id>, rank: Id -> nat) {
    forall c, s | s in succ(c) :: rank(s) < rank(c)
  }

  /** w(c) = 1 + the weights of everything that may be appended for c. */
  ghost function Weight(succ: Id -> seq<Id>, rank: Id -> nat, c: Id): nat
    requires Falling(succ, rank)
    decreases rank(c), 1, 0
  {
    1 + Below(succ, rank, succ(c), rank(c))
  }

  ghost function Below(succ: Id -> seq<Id>, rank: Id -> nat, cs: seq<Id>, bound: nat): nat
    requires Falling(succ, rank) && forall c | c in cs :: rank(c) < bound
    decreases bound, 0, |cs|
  {
    if cs == [] then 0 else Weight(succ, rank, cs[0]) + Below(succ, rank, cs[1..], bound)
  }

  ghost function Load(succ: Id -> seq<Id>, rank: Id -> nat, cs: seq<Id>): nat
    requires Falling(succ, rank)
  {
    if cs == [] then 0 else Weight(succ, rank, cs[0]) + Load(succ, rank, cs[1..])
  }

  lemma {:induction false} LoadIsBelow(succ: Id -> seq<Id>, rank: Id -> nat, cs: seq<Id>, bound: nat)
    requires Falling(succ, rank) && forall c | c in cs :: rank(c) < bound
    ensures Load(succ, rank, cs) == Below(succ, rank, cs, bound)
  {
    if cs != [] { LoadIsBelow(succ, rank, cs[1..], bound); }
  }

  lemma {:induction false} LoadConcat(succ: Id -> seq<Id>, rank: Id -> nat, a: seq<Id>, b: seq<Id>)
    requires Falling(succ, rank)
    ensures Load(succ, rank, a + b) == Load(succ, rank, a) + Load(succ, rank, b)
  {
    if a == [] {
      assert a + b == b;
    } else {
      LoadConcat(succ, rank, a[1..], b);
      assert (a + b)[1..] == a[1..] + b;
    }
  }

  lemma LoadSnoc(succ: Id -> seq<Id>, rank: Id -> nat, a: seq<Id>)
    requires Falling(succ, rank) && a != []
    ensures Load(succ, rank, a) == Load(succ, rank, a[..|a| - 1]) + Weight(succ, rank, a[|a| - 1])
  {
    assert a == a[..|a| - 1] + [a[|a| - 1]];
    LoadConcat(succ, rank, a[..|a| - 1], [a[|a| - 1]]);
    assert [a[|a| - 1]][1..] == [];
  }

  function Without(a: seq<Id>, k: nat): seq<Id>
    requires k < |a|
  {
    a[..k] + a[k + 1..]
  }

  lemma WithoutOne(a: seq<Id>, k: nat)
    requires k < |a|
    ensures multiset(Without(a, k)) == multiset(a) - multiset{a[k]}
  {
    assert a == a[..k] + [a[k]] + a[k + 1..];
  }

  lemma LoadWithout(succ: Id -> seq<Id>, rank: Id -> nat, a: seq<Id>, k: nat)
    requires Falling(succ, rank) && k < |a|
    ensures Load(succ, rank, a) == Load(succ, rank, Without(a, k)) + Weight(succ, rank, a[k])
  {
    assert a == a[..k] + a[k..];
    assert a[k..][1..] == a[k + 1..];
    LoadConcat(succ, rank, a[..k], a[k..]);
    LoadConcat(succ, rank, a[..k], a[k + 1..]);
  }

  lemma {:induction false} LoadMonotone(succ: Id -> seq<Id>, rank: Id -> nat, a: seq<Id>, b: seq<Id>)
    requires Falling(succ, rank) && multiset(a) <= multiset(b)
    ensures Load(succ, rank, a) <= Load(succ, rank, b)
    decreases |a|
  {
    if a != [] {
      assert a[0] in multiset(a);
      var k :| 0 <= k < |b| && b[k] == a[0];
      WithoutOne(a, 0);
      WithoutOne(b, k);
      LoadMonotone(succ, rank, Without(a, 0), Without(b, k));
      LoadWithout(succ, rank, a, 0);
      LoadWithout(succ, rank, b, k);
    }
  }

  /** Post-processing of `c` asks only for entries of `succ(c)`. */
  predicate Allowed(succ: Id -> seq<Id>, c: Id, post: Post) {
    multiset(post.ids) <= multiset(succ(c))
  }

  /** The entries of `cs` that pass the check, in order. */
  function Added(path: seq<Id>, to: nat, cs: seq<Id>): seq<Id>
    requires path != [] && to <= |path|
    decreases |cs|
  {
    if cs == [] then []
    else
      var p := AppendPath(path, to, cs[0]);
      (if p == path then [] else [cs[0]]) + Added(p, to, cs[1..])
  }

  lemma {:induction false} ExtendIsAdded(path: seq<Id>, to: nat, cs: seq<Id>)
    requires path != [] && to <= |path|
    ensures ExtendPath(path, to, cs) == path + Added(path, to, cs)
    decreases |cs|
  {
    if cs != [] {
      var p := AppendPath(path, to, cs[0]);
      ExtendIsAdded(p, to, cs[1..]);
      Associative(path, [cs[0]], Added(p, to, cs[1..]));
    }
  }

  lemma {:induction false} AddedIsSome(path: seq<Id>, to: nat, cs: seq<Id>)
    requires path != [] && to <= |path|
    ensures multiset(Added(path, to, cs)) <= multiset(cs)
    decreases |cs|
  {
    if cs != [] {
      var p := AppendPath(path, to, cs[0]);
      var rest := Added(p, to, cs[1..]);
      AddedIsSome(p, to, cs[1..]);
      assert cs == [cs[0]] + cs[1..];
      assert multiset([cs[0]] + rest) == multiset{cs[0]} + multiset(rest);
      assert [] + rest == rest;
    }
  }

  lemma ExtendAppendsSome(path: seq<Id>, to: nat, cs: seq<Id>)
    requires path != [] && to <= |path|
    ensures multiset(ExtendPath(path, to, cs)[|path|..]) <= multiset(cs)
  {
    ExtendIsAdded(path, to, cs);
    AddedIsSome(path, to, cs);
    assert (path + Added(path, to, cs))[|path|..] == Added(path, to, cs);
  }

  /** Post-processing one component adds less than the component weighed. */
  lemma PostOneLoad(succ: Id -> seq<Id>, rank: Id -> nat, path: seq<Id>, to: nat, c: Id, post: Post)
    requires Falling(succ, rank) && path != [] && to <= |path| && Allowed(succ, c, post)
    ensures Load(succ, rank, PostOne(path, to, post)[|path|..]) < Weight(succ, rank, c)
  {
    var added := PostOne(path, to, post)[|path|..];
    ExtendAppendsSome(path, to, post.ids);
    LoadMonotone(succ, rank, added, succ(c));
    LoadIsBelow(succ, rank, succ(c), rank(c));
  }

  lemma {:induction false} AppendedLoad(succ: Id -> seq<Id>, rank: Id -> nat, path: seq<Id>, to: nat, members: seq<Id>, posts: seq<Post>)
    requires Falling(succ, rank) && to <= |path| && |posts| == |members|
    requires posts != [] ==> path != []
    requires forall i | 0 <= i < |posts| :: Allowed(succ, members[i], posts[i])
    ensures Load(succ, rank, PostAll(path, to, posts)[|path|..]) + |posts| <= Load(succ, rank, members)
    decreases |posts|
  {
    if posts == [] {
      assert path[|path|..] == [];
    } else {
      var n := |posts| - 1;
      assert Allowed(succ, members[n], posts[n]);
      var before := PostAll(path, to, posts[..n]);
      AppendedLoad(succ, rank, path, to, members[..n], posts[..n]);
      MoreLoad(succ, rank, path, before, to, members[n], posts[n]);
      LoadSnoc(succ, rank, members);
    }
  }

  lemma MoreLoad(succ: Id -> seq<Id>, rank: Id -> nat, path: seq<Id>, before: seq<Id>, to: nat, c: Id, post: Post)
    requires Falling(succ, rank) && path != [] && path <= before && to <= |path| && Allowed(succ, c, post)
    ensures |path| <= |PostOne(before, to, post)|
    ensures Load(succ, rank, PostOne(before, to, post)[|path|..]) < Load(succ, rank, before[|path|..]) + Weight(succ, rank, c)
  {
    PostOneLoad(succ, rank, before, to, c, post);
    GrowthLoad(succ, rank, path, before, PostOne(before, to, post));
  }

  lemma GrowthLoad(succ: Id -> seq<Id>, rank: Id -> nat, a: seq<Id>, b: seq<Id>, c: seq<Id>)
    requires Falling(succ, rank) && a <= b <= c
    ensures Load(succ, rank, c[|a|..]) == Load(succ, rank, b[|a|..]) + Load(succ, rank, c[|b|..])
  {
    assert c[|a|..] == b[|a|..] + c[|b|..];
    LoadConcat(succ, rank, b[|a|..], c[|b|..]);
  }

  lemma PendingLoad(succ: Id -> seq<Id>, rank: Id -> nat, path: seq<Id>, f: nat, to: nat, posts: seq<Post>)
    requires Falling(succ, rank) && f <= to <= |path| && |posts| == to - f
    requires forall i | 0 <= i < |posts| :: Allowed(succ, path[f + i], posts[i])
    ensures Load(succ, rank, PostAll(path, to, posts)[to..]) + |posts| <= Load(succ, rank, path[f..])
  {
    var members, held := path[f..to], path[to..];
    var after := PostAll(path, to, posts);
    assert path[f..] == members + held;
    LoadConcat(succ, rank, members, held);
    AppendedLoad(succ, rank, path, to, members, posts);
    HeldThenAppended(path, after, to);
    LoadConcat(succ, rank, held, after[|path|..]);
  }

  lemma HeldThenAppended(path: seq<Id>, after: seq<Id>, to: nat)
    requires to <= |path| && path <= after
    ensures after[to..] == path[to..] + after[|path|..]
  {
    assert after == path + after[|path|..];
  }

  /** Every turn either lowers the load of the pending entries or leaves none pending:
      dropping, holding, failing a cycle and resuming all respect the measure. */
  lemma TurnLowersLoad(g: Graph, succ: Id -> seq<Id>, rank: Id -> nat, s: RunState, posts: seq<Post>)
    requires Falling(succ, rank) && CanStep(g, s, posts)
    requires var b := Plan(g, s.path, s.idx, |s.path|);
             b.to <= |b.path| && forall i | 0 <= i < |posts| :: Allowed(succ, b.path[s.idx + i], posts[i])
    ensures var r := After(g, s, posts);
            r.running ==> r.idx == |r.path| || Load(succ, rank, r.path[r.idx..]) < Load(succ, rank, s.path[s.idx..])
  {
    PlanShape(g, s.path, s.idx);
    var b := Plan(g, s.path, s.idx, |s.path|);
    LoadMonotone(succ, rank, b.path[s.idx..], s.path[s.idx..]);
    PendingLoad(succ, rank, b.path, s.idx, b.to, posts);
  }
}
