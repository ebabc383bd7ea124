/** The readiness rule of the agent canvas (agent/canvas.py, `_schedulable`): which
    entries of a batch window run now, which are held for the next batch, which are
    dropped, and when the whole window is failed as a dependency cycle. */
module Readiness {

  type Id = string

  /** What the scheduler may ask about a component.
      - `deps` are the ids whose output the component reads,
      - `unconditional` holds for Begin and UserFillUp components, which wait on nothing,
      - `fillUp` holds for ids that mark a resumed run when they head the path. */
  datatype Graph = Graph(deps: Id -> seq<Id>, unconditional: Id -> bool, fillUp: Id -> bool)

  function WaitingOn(g: Graph, c: Id): set<Id> {
    if g.unconditional(c) then {} else set d | d in g.deps(c) && d != c
  }

  function Ids(xs: seq<Id>): set<Id> {
    set x | x in xs
  }

  /** The entries of `xs` that lie in `s`, in their original order. */
  function Keep(xs: seq<Id>, s: set<Id>): seq<Id> {
    if xs == [] then []
    else
      var last := xs[|xs| - 1];
      Keep(xs[..|xs| - 1], s) + if last in s then [last] else []
  }

  /** Every member of `s` finds what it waits on among `finished` or in `s` itself. */
  ghost predicate Closed(g: Graph, finished: set<Id>, s: set<Id>) {
    forall c | c in s :: WaitingOn(g, c) <= finished + s
  }

  /** The members of the window that can still run: those in some closed part of it. */
  ghost function Survivors(g: Graph, finished: set<Id>, window: set<Id>): set<Id> {
    set c | c in window && exists s: set<Id> :: s <= window && Closed(g, finished, s) && c in s
  }

  /** The members of `s` that wait on no other member of `s`. */
  function Ready(g: Graph, s: set<Id>): set<Id> {
    set c | c in s && WaitingOn(g, c) !! s
  }

  /** How a window is divided: what runs now, what is held behind it, and whether what runs
      now is being failed as a cycle. What is in neither part is dropped. */
  datatype Division = Division(now: seq<Id>, later: seq<Id>, cyclic: bool)

  ghost function Divide(g: Graph, finished: set<Id>, window: seq<Id>): Division {
    var alive := Survivors(g, finished, Ids(window));
    var ready := Ready(g, alive);
    if ready == {} && alive != {} then Division(Keep(window, alive), [], true)
    else Division(Keep(window, ready), Keep(window, alive - ready), false)
  }

  /** The outcome of one scheduling call: the rewritten path, the end of the batch, and
      whether the batch is being failed as a cycle. */
  datatype Batch = Batch(path: seq<Id>, to: nat, cyclic: bool)

  /** What `_schedulable(f, t)` must do to the path of a run that is not a resume. */
  ghost function Schedule(g: Graph, path: seq<Id>, f: nat, t: nat): Batch
    requires f <= t <= |path|
  {
    var d := Divide(g, Ids(path[..f]), path[f..t]);
    Batch(path[..f] + d.now + d.later + path[t..], f + |d.now|, d.cyclic)
  }

  // ---------------------------------------------------------------- Keep

  lemma {:induction false} KeepIds(xs: seq<Id>, s: set<Id>)
    ensures Ids(Keep(xs, s)) == Ids(xs) * s
    ensures |Keep(xs, s)| <= |xs|
  {
    if xs != [] {
      var init, last := xs[..|xs| - 1], xs[|xs| - 1];
      KeepIds(init, s);
      assert xs == init + [last];
      assert Ids(xs) == Ids(init) + {last};
      assert Ids(Keep(xs, s)) == Ids(Keep(init, s)) + if last in s then {last} else {};
    }
  }

  lemma {:induction false} KeepSplit(xs: seq<Id>, a: set<Id>, b: set<Id>)
    requires a <= b
    ensures multiset(Keep(xs, a) + Keep(xs, b - a)) == multiset(Keep(xs, b))
    ensures |Keep(xs, a)| + |Keep(xs, b - a)| == |Keep(xs, b)|
  {
    if xs != [] {
      KeepSplit(xs[..|xs| - 1], a, b);
    }
  }

  lemma {:induction false} KeepAll(xs: seq<Id>, s: set<Id>)
    requires Ids(xs) <= s
    ensures Keep(xs, s) == xs
  {
    if xs != [] {
      assert xs == xs[..|xs| - 1] + [xs[|xs| - 1]];
      KeepAll(xs[..|xs| - 1], s);
    }
  }

  // ---------------------------------------------------------------- the survivors

  /** `Survivors` is itself closed, and contains every closed part of the window: it is
      the greatest subset whose needs are met by the finished set or by the subset. */
  lemma SurvivorsAreGreatestClosed(g: Graph, finished: set<Id>, window: set<Id>)
    ensures Survivors(g, finished, window) <= window
    ensures Closed(g, finished, Survivors(g, finished, window))
    ensures forall s: set<Id> | s <= window && Closed(g, finished, s) :: s <= Survivors(g, finished, window)
  {
    var all := Survivors(g, finished, window);
    forall c | c in all
      ensures WaitingOn(g, c) <= finished + all
    {
      var s: set<Id> :| s <= window && Closed(g, finished, s) && c in s;
      assert s <= all;
    }
  }

  lemma SurvivorsUnique(g: Graph, finished: set<Id>, window: set<Id>, s: set<Id>)
    requires s <= window && Closed(g, finished, s)
    requires forall r: set<Id> | r <= window && Closed(g, finished, r) :: r <= s
    ensures s == Survivors(g, finished, window)
  {
    SurvivorsAreGreatestClosed(g, finished, window);
  }

  // ---------------------------------------------------------------- one call

  /** The two parts of a division hold exactly the survivors, entry for entry: nothing is
      invented and only the non-survivors are lost. */
  lemma DivisionKeepsSurvivors(g: Graph, finished: set<Id>, window: seq<Id>)
    ensures var d := Divide(g, finished, window);
            var alive := Survivors(g, finished, Ids(window));
            && Ids(d.now) == (if d.cyclic then alive else Ready(g, alive))
            && Ids(d.later) == alive - Ids(d.now)
            && multiset(d.now + d.later) == multiset(Keep(window, alive))
            && |d.now| + |d.later| <= |window|
            && (d.now == [] ==> d.later == [])
  {
    SurvivorsAreGreatestClosed(g, finished, Ids(window));
    var alive := Survivors(g, finished, Ids(window));
    var ready := Ready(g, alive);
    KeepIds(window, alive);
    KeepIds(window, ready);
    KeepIds(window, alive - ready);
    KeepSplit(window, ready, alive);
    var d := Divide(g, finished, window);
    NoIds(d.now);
    NoIds(d.later);
  }

  lemma NoIds(xs: seq<Id>)
    ensures Ids(xs) == {} <==> xs == []
  {
    assert xs != [] ==> xs[0] in Ids(xs);
  }

  /** A batch that is not being failed reads only what is finished, and no member of it reads
      another member or anything held behind it. */
  lemma BatchReadsOnlyFinished(g: Graph, finished: set<Id>, window: seq<Id>, c: Id)
    requires var d := Divide(g, finished, window); !d.cyclic && c in d.now
    ensures WaitingOn(g, c) <= finished
    ensures var d := Divide(g, finished, window); WaitingOn(g, c) !! Ids(d.now) + Ids(d.later)
  {
    DivisionKeepsSurvivors(g, finished, window);
    SurvivorsAreGreatestClosed(g, finished, Ids(window));
    assert c in Ids(Divide(g, finished, window).now);
  }

  // ---------------------------------------------------------------- who runs and who is dropped

  /** `c` has to wait for `d`: begin and user-fill-up components wait for nothing, and nothing
      waits for itself. */
  ghost predicate Needs(g: Graph, c: Id, d: Id) {
    !g.unconditional(c) && d in g.deps(c) && d != c
  }

  lemma NeedsIsWaiting(g: Graph, c: Id, d: Id)
    ensures Needs(g, c, d) <==> d in WaitingOn(g, c)
  {
  }

  lemma NowIsReady(g: Graph, finished: set<Id>, window: seq<Id>, c: Id)
    requires c in Survivors(g, finished, Ids(window)) && WaitingOn(g, c) !! Survivors(g, finished, Ids(window))
    ensures c in Divide(g, finished, window).now && !Divide(g, finished, window).cyclic
  {
    var alive := Survivors(g, finished, Ids(window));
    assert c in Ready(g, alive);
    DivisionKeepsSurvivors(g, finished, window);
    assert c in Ids(Divide(g, finished, window).now);
  }

  /** Whatever its dependencies say, a begin or user-fill-up component runs at once. */
  lemma UnconditionalRuns(g: Graph, finished: set<Id>, window: seq<Id>, c: Id)
    requires c in window && g.unconditional(c)
    ensures c in Divide(g, finished, window).now
  {
    SurvivorsAreGreatestClosed(g, finished, Ids(window));
    assert {c} <= Ids(window) && Closed(g, finished, {c});
    NowIsReady(g, finished, window, c);
  }

  /** A component all of whose dependencies are finished, and not queued once more, runs at once. */
  lemma SatisfiedRuns(g: Graph, finished: set<Id>, window: seq<Id>, c: Id)
    requires c in window && forall d | d in g.deps(c) :: d == c || (d in finished && d !in window)
    ensures c in Divide(g, finished, window).now
  {
    SurvivorsAreGreatestClosed(g, finished, Ids(window));
    assert {c} <= Ids(window) && Closed(g, finished, {c});
    NowIsReady(g, finished, window, c);
  }

  /** A component with a dependency that is queued, and runs too, does not run with it. */
  lemma QueuedHolds(g: Graph, finished: set<Id>, window: seq<Id>, c: Id, d: Id)
    requires !g.unconditional(c) && d in g.deps(c) && d != c && d in Divide(g, finished, window).now && !Divide(g, finished, window).cyclic
    ensures c !in Divide(g, finished, window).now
  {
    NeedsIsWaiting(g, c, d);
    assert d in Ids(Divide(g, finished, window).now);
    if c in Divide(g, finished, window).now {
      BatchReadsOnlyFinished(g, finished, window, c);
    }
  }

  /** A chain of unfinished dependencies inside the window that ends at one that is nowhere. */
  ghost predicate Broken(g: Graph, finished: set<Id>, window: seq<Id>, chain: seq<Id>) {
    && |chain| > 1 && chain[0] in window && Needs(g, chain[0], chain[1]) && chain[1] !in finished
    && if |chain| == 2 then chain[1] !in window else Broken(g, finished, window, chain[1..])
  }

  ghost predicate Doomed(g: Graph, finished: set<Id>, window: seq<Id>, c: Id) {
    exists chain :: Broken(g, finished, window, chain) && chain[0] == c
  }

  lemma {:induction false} BrokenIsDropped(g: Graph, finished: set<Id>, window: seq<Id>, chain: seq<Id>)
    requires Broken(g, finished, window, chain)
    ensures chain[0] !in Survivors(g, finished, Ids(window))
    decreases |chain|
  {
    var alive := Survivors(g, finished, Ids(window));
    SurvivorsAreGreatestClosed(g, finished, Ids(window));
    NeedsIsWaiting(g, chain[0], chain[1]);
    if |chain| > 2 { BrokenIsDropped(g, finished, window, chain[1..]); }
    assert chain[1] !in finished + alive;
  }

  lemma LongerChain(g: Graph, finished: set<Id>, window: seq<Id>, c: Id, d: Id)
    requires c in window && Needs(g, c, d) && d !in finished && (d !in window || Doomed(g, finished, window, d))
    ensures Doomed(g, finished, window, c)
  {
    if d !in window {
      assert Broken(g, finished, window, [c, d]) && [c, d][0] == c;
    } else {
      var rest :| Broken(g, finished, window, rest) && rest[0] == d;
      var chain := [c] + rest;
      assert chain[1..] == rest;
      assert Broken(g, finished, window, chain) && chain[0] == c;
    }
  }

  /** A window entry is dropped exactly when a chain of unfinished dependencies leads from it to
      one that is neither finished nor in the window. */
  lemma DroppedIff(g: Graph, finished: set<Id>, window: seq<Id>, c: Id)
    requires c in window
    ensures var d := Divide(g, finished, window);
            c !in d.now && c !in d.later <==> Doomed(g, finished, window, c)
  {
    var alive := Survivors(g, finished, Ids(window));
    DivisionKeepsSurvivors(g, finished, window);
    assert c in alive <==> c in Ids(Divide(g, finished, window).now) + Ids(Divide(g, finished, window).later);
    if Doomed(g, finished, window, c) {
      var chain :| Broken(g, finished, window, chain) && chain[0] == c;
      BrokenIsDropped(g, finished, window, chain);
    }
    SoundSurvives(g, finished, window, c);
  }

  lemma SoundSurvives(g: Graph, finished: set<Id>, window: seq<Id>, c: Id)
    requires c in window
    ensures !Doomed(g, finished, window, c) ==> c in Survivors(g, finished, Ids(window))
  {
    var sound := set x | x in Ids(window) && !Doomed(g, finished, window, x);
    forall x | x in sound ensures WaitingOn(g, x) <= finished + sound {
      forall d | d in WaitingOn(g, x) ensures d in finished + sound {
        NeedsIsWaiting(g, x, d);
        if d !in finished && d !in sound { LongerChain(g, finished, window, x, d); }
      }
    }
    SurvivorsAreGreatestClosed(g, finished, Ids(window));
    assert sound <= Ids(window) && Closed(g, finished, sound);
  }

  // ---------------------------------------------------------------- the cycle branch

  /** `walk` follows dependencies inside `s`. */
  ghost predicate Walk(g: Graph, s: set<Id>, walk: seq<Id>) {
    && (forall i | 0 <= i < |walk| :: walk[i] in s)
    && forall i | 0 <= i < |walk| - 1 :: walk[i + 1] in WaitingOn(g, walk[i])
  }

  /** `cycle` is a closed walk of at least two components of `s`, each reading the next. */
  ghost predicate DependencyCycle(g: Graph, s: set<Id>, cycle: seq<Id>) {
    && |cycle| >= 2
    && Walk(g, s, cycle)
    && cycle[0] in WaitingOn(g, cycle[|cycle| - 1])
  }

  lemma {:induction false} LongWalk(g: Graph, s: set<Id>, n: nat) returns (walk: seq<Id>)
    requires s != {} && Ready(g, s) == {}
    ensures |walk| == n + 1 && Walk(g, s, walk)
  {
    if n == 0 {
      var c :| c in s;
      walk := [c];
    } else {
      var before := LongWalk(g, s, n - 1);
      var c := before[n - 1];
      assert c !in Ready(g, s);
      var d :| d in WaitingOn(g, c) && d in s;
      walk := before + [d];
    }
  }

  lemma {:induction false} Pigeonhole(xs: seq<Id>, s: set<Id>) returns (i: nat, j: nat)
    requires Ids(xs) <= s && |xs| > |s|
    ensures i < j < |xs| && xs[i] == xs[j]
    decreases |xs|
  {
    var n := |xs| - 1;
    var init := xs[..n];
    if xs[n] in init {
      i :| 0 <= i < n && init[i] == xs[n];
      j := n;
    } else {
      assert xs[n] in Ids(xs);
      assert Ids(init) <= s - {xs[n]};
      i, j := Pigeonhole(init, s - {xs[n]});
    }
  }

  /** A stuck, non-empty set of components contains a dependency cycle. */
  lemma StuckMeansCycle(g: Graph, s: set<Id>) returns (cycle: seq<Id>)
    requires s != {} && Ready(g, s) == {}
    ensures DependencyCycle(g, s, cycle)
  {
    var walk := LongWalk(g, s, |s|);
    var i, j := Pigeonhole(walk, s);
    cycle := walk[i..j];
    assert walk[j] in WaitingOn(g, walk[j - 1]);
  }

  /** The cycle branch fires only on a window whose survivors contain a dependency cycle. */
  lemma CyclicMeansCycle(g: Graph, finished: set<Id>, window: seq<Id>) returns (cycle: seq<Id>)
    requires Divide(g, finished, window).cyclic
    ensures DependencyCycle(g, Ids(Divide(g, finished, window).now), cycle)
  {
    DivisionKeepsSurvivors(g, finished, window);
    cycle := StuckMeansCycle(g, Survivors(g, finished, Ids(window)));
  }

  /** `rank` strictly falls along every dependency. */
  ghost predicate Ranked(g: Graph, rank: Id -> nat) {
    forall c, d | d in WaitingOn(g, c) :: rank(d) < rank(c)
  }

  lemma {:induction false} CycleFalls(g: Graph, rank: Id -> nat, s: set<Id>, walk: seq<Id>, k: nat)
    requires Ranked(g, rank) && Walk(g, s, walk) && k < |walk|
    ensures rank(walk[k]) + k <= rank(walk[0])
  {
    if k > 0 { CycleFalls(g, rank, s, walk, k - 1); }
  }

  /** On dependencies that admit a falling rank the cycle branch never fires. */
  lemma RankedNeverCyclic(g: Graph, rank: Id -> nat, finished: set<Id>, window: seq<Id>)
    requires Ranked(g, rank)
    ensures !Divide(g, finished, window).cyclic
  {
    if Divide(g, finished, window).cyclic {
      var cycle := CyclicMeansCycle(g, finished, window);
      CycleFalls(g, rank, Ids(Divide(g, finished, window).now), cycle, |cycle| - 1);
    }
  }

  // ---------------------------------------------------------------- held components

  /** Whatever is appended behind the held entries, the next call drops none of them. */
  lemma HeldSurvive(g: Graph, finished: set<Id>, window: seq<Id>, appended: seq<Id>)
    ensures var d := Divide(g, finished, window);
            Ids(d.later) <= Survivors(g, finished + Ids(d.now), Ids(d.later + appended))
  {
    DivisionKeepsSurvivors(g, finished, window);
    SurvivorsAreGreatestClosed(g, finished, Ids(window));
    var d := Divide(g, finished, window);
    var held := Ids(d.later);
    assert Closed(g, finished + Ids(d.now), held);
    SurvivorsAreGreatestClosed(g, finished + Ids(d.now), Ids(d.later + appended));
    assert held <= Ids(d.later + appended);
  }
}
