/** The speech pipeline of a streamed message (agent/canvas.py, `_schedule_tts`,
    `_tts_worker`, `_drain_ready_tts`): a producer numbers sentences into a bounded queue, two
    workers synthesise them in any order, and a reorder buffer releases the audio in order. */
module TtsPipeline {
  import opened Wrappers

  type Audio = string

  datatype Job = Job(number: nat, text: string)

  /** What a worker reports; no audio when synthesis failed or had nothing to say. */
  datatype Report = Report(number: nat, audio: Option<Audio>)

  datatype Clip = Clip(number: nat, audio: Audio)

  const QUEUE_SIZE := 4
  const WORKERS := 2

  /** `texts` is the history of scheduled sentences, `failed` the numbers whose synthesis
      raised; the other fields are the pipeline's own. */
  datatype State = State(
    queue: seq<Job>,
    workers: seq<Option<Job>>,
    results: seq<Report>,
    completed: map<nat, Option<Audio>>,
    next: nat,
    sequence: nat,
    emitted: seq<Clip>,
    texts: seq<string>,
    failed: set<nat>)

  function Init(): State {
    State([], seq(WORKERS, i => None), [], map[], 0, 0, [], [], {})
  }

  // ---------------------------------------------------------------- the steps

  datatype Step =
    | Put(text: string)
    | Take(worker: nat)
    | Finish(worker: nat, raised: bool)
    | Drain

  /** The reorder buffer once every waiting result has been moved into it. */
  function Collected(completed: map<nat, Option<Audio>>, results: seq<Report>): map<nat, Option<Audio>> {
    if results == [] then completed
    else
      var last := results[|results| - 1];
      Collected(completed, results[..|results| - 1])[last.number := last.audio]
  }

  /** The clips of the numbers `from..to` of a buffer, in order; numbers without audio are
      skipped. */
  function Clips(buffer: map<nat, Option<Audio>>, from: nat, to: nat): seq<Clip>
    requires from <= to && forall k | from <= k < to :: k in buffer
  {
    if from == to then []
    else Clips(buffer, from, to - 1) + if buffer[to - 1].Some? then [Clip(to - 1, buffer[to - 1].value)] else []
  }

  function Range(from: nat, to: nat): (r: set<nat>)
    ensures forall k :: k in r <==> from <= k < to
  {
    if to <= from then {} else Range(from, to - 1) + {to - 1}
  }

  ghost predicate Contiguous(buffer: map<nat, Option<Audio>>, from: nat, to: nat) {
    && from <= to && to !in buffer
    && forall k | from <= k < to :: k in buffer
  }

  ghost predicate Next(synth: string -> Option<Audio>, s: State, step: Step, s': State) {
    match step
    case Put(text) =>
      && text != "" && |s.queue| < QUEUE_SIZE
      && s' == s.(queue := s.queue + [Job(s.sequence, text)], sequence := s.sequence + 1, texts := s.texts + [text])
    case Take(w) =>
      && w < |s.workers| && s.workers[w].None? && s.queue != []
      && s' == s.(queue := s.queue[1..], workers := s.workers[w := Some(s.queue[0])])
    case Finish(w, raised) =>
      && w < |s.workers| && s.workers[w].Some?
      && var job := s.workers[w].value;
         s' == s.(workers := s.workers[w := None],
                  results := s.results + [Report(job.number, if raised then None else synth(job.text))],
                  failed := s.failed + if raised then {job.number} else {})
    case Drain =>
      && var buffer := Collected(s.completed, s.results);
      && Contiguous(buffer, s.next, s'.next)
      && s' == s.(results := [], next := s'.next,
                  completed := buffer - Range(s.next, s'.next),
                  emitted := s.emitted + Clips(buffer, s.next, s'.next))
  }

  ghost predicate IsRun(synth: string -> Option<Audio>, states: seq<State>, steps: seq<Step>) {
    && |states| == |steps| + 1 && states[0] == Init()
    && forall i | 0 <= i < |steps| :: Next(synth, states[i], steps[i], states[i + 1])
  }

  lemma RunGrows(synth: string -> Option<Audio>, states: seq<State>, steps: seq<Step>, step: Step, s': State)
    requires IsRun(synth, states, steps) && Next(synth, states[|steps|], step, s')
    ensures IsRun(synth, states + [s'], steps + [step])
  {
    var all, done := states + [s'], steps + [step];
    forall i | 0 <= i < |done| ensures Next(synth, all[i], done[i], all[i + 1]) {
      if i < |steps| {
        assert all[i] == states[i] && all[i + 1] == states[i + 1] && done[i] == steps[i];
      } else {
        assert all[i] == states[i] && all[i + 1] == s' && done[i] == step;
      }
    }
  }

  // ---------------------------------------------------------------- the invariant

  function Bit(b: bool): nat {
    if b then 1 else 0
  }

  function Queued(jobs: seq<Job>, k: nat): nat {
    if jobs == [] then 0 else Bit(jobs[0].number == k) + Queued(jobs[1..], k)
  }

  function Busy(workers: seq<Option<Job>>, k: nat): nat {
    if workers == [] then 0 else Bit(workers[0].Some? && workers[0].value.number == k) + Busy(workers[1..], k)
  }

  function Reported(results: seq<Report>, k: nat): nat {
    if results == [] then 0
    else Reported(results[..|results| - 1], k) + Bit(results[|results| - 1].number == k)
  }

  /** How many times number `k` is held somewhere in the pipeline. */
  function Places(s: State, k: nat): nat {
    Queued(s.queue, k) + Busy(s.workers, k) + Reported(s.results, k) + Bit(k in s.completed)
  }

  /** Every number that was scheduled and not yet released is in exactly one place, and no
      other number is anywhere. */
  ghost predicate Partitioned(s: State) {
    s.next <= s.sequence && forall k: nat :: Places(s, k) == Bit(s.next <= k < s.sequence)
  }

  /** The audio sentence `k` is due, given which syntheses raised. */
  function Due(synth: string -> Option<Audio>, texts: seq<string>, failed: set<nat>, k: nat): Option<Audio>
    requires k < |texts|
  {
    if k in failed then None else synth(texts[k])
  }

  /** The clips due for the first `n` sentences: what one worker would have emitted. */
  function DueClips(synth: string -> Option<Audio>, texts: seq<string>, failed: set<nat>, n: nat): seq<Clip>
    requires n <= |texts|
  {
    if n == 0 then []
    else
      var due := Due(synth, texts, failed, n - 1);
      DueClips(synth, texts, failed, n - 1) + if due.Some? then [Clip(n - 1, due.value)] else []
  }

  ghost predicate JobFits(s: State, job: Job) {
    job.number < |s.texts| && job.text == s.texts[job.number] && job.number !in s.failed
  }

  ghost predicate AudioFits(synth: string -> Option<Audio>, s: State, k: nat, audio: Option<Audio>) {
    k < |s.texts| && audio == Due(synth, s.texts, s.failed, k)
  }

  /** Everything carried for a sentence is its own. */
  ghost predicate Faithful(synth: string -> Option<Audio>, s: State) {
    && |s.texts| == s.sequence
    && (forall k | k in s.failed :: k < s.sequence)
    && (forall i | 0 <= i < |s.queue| :: JobFits(s, s.queue[i]))
    && (forall i | 0 <= i < |s.workers| && s.workers[i].Some? :: JobFits(s, s.workers[i].value))
    && (forall i | 0 <= i < |s.results| :: AudioFits(synth, s, s.results[i].number, s.results[i].audio))
    && (forall k | k in s.completed :: AudioFits(synth, s, k, s.completed[k]))
  }

  ghost predicate Inv(synth: string -> Option<Audio>, s: State) {
    && Partitioned(s) && Faithful(synth, s)
    && s.emitted == DueClips(synth, s.texts, s.failed, s.next)
  }

  // ---------------------------------------------------------------- bookkeeping lemmas

  lemma {:induction false} QueuedSnoc(jobs: seq<Job>, job: Job, k: nat)
    ensures Queued(jobs + [job], k) == Queued(jobs, k) + Bit(job.number == k)
  {
    if jobs == [] {
      assert (jobs + [job])[1..] == [];
    } else {
      QueuedSnoc(jobs[1..], job, k);
      assert (jobs + [job])[1..] == jobs[1..] + [job];
    }
  }

  lemma {:induction false} BusyUpdate(workers: seq<Option<Job>>, w: nat, job: Option<Job>, k: nat)
    requires w < |workers|
    ensures Busy(workers[w := job], k) + Bit(workers[w].Some? && workers[w].value.number == k) ==
            Busy(workers, k) + Bit(job.Some? && job.value.number == k)
  {
    var updated := workers[w := job];
    if w == 0 {
      assert updated[1..] == workers[1..];
    } else {
      BusyUpdate(workers[1..], w - 1, job, k);
      assert updated[1..] == workers[1..][w - 1 := job];
    }
  }

  lemma ReportedSnoc(results: seq<Report>, r: Report, k: nat)
    ensures Reported(results + [r], k) == Reported(results, k) + Bit(r.number == k)
  {
    assert (results + [r])[..|results|] == results;
  }

  lemma {:induction false} QueuedAt(jobs: seq<Job>, i: nat)
    requires i < |jobs|
    ensures Queued(jobs, jobs[i].number) > 0
  {
    if i > 0 { QueuedAt(jobs[1..], i - 1); }
  }

  lemma {:induction false} BusyAt(workers: seq<Option<Job>>, i: nat)
    requires i < |workers| && workers[i].Some?
    ensures Busy(workers, workers[i].value.number) > 0
  {
    if i > 0 { BusyAt(workers[1..], i - 1); }
  }

  lemma {:induction false} ReportedAt(results: seq<Report>, i: nat)
    requires i < |results|
    ensures Reported(results, results[i].number) > 0
  {
    var n := |results| - 1;
    if i < n { ReportedAt(results[..n], i); }
  }

  /** Moving the waiting results into the buffer adds their numbers and nothing else. */
  lemma {:induction false} CollectedKeys(completed: map<nat, Option<Audio>>, results: seq<Report>, k: nat)
    ensures k in Collected(completed, results) <==> k in completed || Reported(results, k) > 0
  {
    if results != [] { CollectedKeys(completed, results[..|results| - 1], k); }
  }

  lemma {:induction false} CollectedValues(completed: map<nat, Option<Audio>>, results: seq<Report>, k: nat)
    requires k in Collected(completed, results)
    ensures (k in completed && Collected(completed, results)[k] == completed[k]) ||
            exists i | 0 <= i < |results| :: results[i] == Report(k, Collected(completed, results)[k])
  {
    if results != [] {
      var n := |results| - 1;
      if results[n].number == k {
        assert results[n] == Report(k, Collected(completed, results)[k]);
      } else {
        CollectedValues(completed, results[..n], k);
        if i :| 0 <= i < n && results[..n][i] == Report(k, Collected(completed, results)[k]) {
          assert results[i] == results[..n][i];
        }
      }
    }
  }

  lemma {:induction false} DueClipsStable(synth: string -> Option<Audio>, texts: seq<string>, failed: set<nat>,
                                          texts': seq<string>, failed': set<nat>, n: nat)
    requires texts <= texts' && n <= |texts|
    requires forall k: nat | k < n :: k in failed <==> k in failed'
    ensures DueClips(synth, texts', failed', n) == DueClips(synth, texts, failed, n)
  {
    if n > 0 {
      DueClipsStable(synth, texts, failed, texts', failed', n - 1);
    }
  }

  // ---------------------------------------------------------------- every step keeps it

  lemma PutKeepsPartition(synth: string -> Option<Audio>, s: State, text: string, s': State)
    requires Partitioned(s) && Next(synth, s, Put(text), s')
    ensures Partitioned(s')
  {
    forall k: nat ensures Places(s', k) == Bit(s'.next <= k < s'.sequence) {
      QueuedSnoc(s.queue, Job(s.sequence, text), k);
      assert Places(s, k) == Bit(s.next <= k < s.sequence);
    }
  }

  lemma TakeKeepsPartition(synth: string -> Option<Audio>, s: State, w: nat, s': State)
    requires Partitioned(s) && Next(synth, s, Take(w), s')
    ensures Partitioned(s')
  {
    forall k: nat ensures Places(s', k) == Bit(s'.next <= k < s'.sequence) {
      BusyUpdate(s.workers, w, Some(s.queue[0]), k);
      assert Places(s, k) == Bit(s.next <= k < s.sequence);
    }
  }

  lemma FinishKeepsPartition(synth: string -> Option<Audio>, s: State, w: nat, raised: bool, s': State)
    requires Partitioned(s) && Next(synth, s, Finish(w, raised), s')
    ensures Partitioned(s')
  {
    forall k: nat ensures Places(s', k) == Bit(s'.next <= k < s'.sequence) {
      BusyUpdate(s.workers, w, None, k);
      ReportedSnoc(s.results, s'.results[|s.results|], k);
      assert Places(s, k) == Bit(s.next <= k < s.sequence);
    }
  }

  lemma DrainKeepsPartition(synth: string -> Option<Audio>, s: State, s': State)
    requires Partitioned(s) && Next(synth, s, Drain, s')
    ensures Partitioned(s')
  {
    var buffer := Collected(s.completed, s.results);
    forall k | k in buffer ensures s.next <= k < s.sequence {
      CollectedKeys(s.completed, s.results, k);
      assert Places(s, k) == Bit(s.next <= k < s.sequence);
    }
    assert s'.next <= s.sequence by {
      assert s.sequence !in buffer;
    }
    forall k: nat ensures Places(s', k) == Bit(s'.next <= k < s'.sequence) {
      CollectedKeys(s.completed, s.results, k);
      assert Places(s, k) == Bit(s.next <= k < s.sequence);
    }
  }

  /** The sentence worker `w` is busy with is nowhere else. */
  lemma BusyAlone(s: State, w: nat)
    requires Partitioned(s) && w < |s.workers| && s.workers[w].Some?
    ensures var n := s.workers[w].value.number;
            && s.next <= n < s.sequence && n !in s.completed
            && (forall i | 0 <= i < |s.queue| :: s.queue[i].number != n)
            && (forall i | 0 <= i < |s.workers| && i != w && s.workers[i].Some? :: s.workers[i].value.number != n)
            && (forall i | 0 <= i < |s.results| :: s.results[i].number != n)
  {
    var n := s.workers[w].value.number;
    var others := s.workers[w := None];
    BusyUpdate(s.workers, w, None, n);
    assert Places(s, n) == Bit(s.next <= n < s.sequence);
    forall i | 0 <= i < |s.queue| ensures s.queue[i].number != n { QueuedAt(s.queue, i); }
    forall i | 0 <= i < |s.workers| && i != w && s.workers[i].Some? ensures s.workers[i].value.number != n {
      assert others[i] == s.workers[i];
      BusyAt(others, i);
    }
    forall i | 0 <= i < |s.results| ensures s.results[i].number != n { ReportedAt(s.results, i); }
  }

  lemma PutKeepsInv(synth: string -> Option<Audio>, s: State, text: string, s': State)
    requires Inv(synth, s) && Next(synth, s, Put(text), s')
    ensures Inv(synth, s')
  {
    PutKeepsPartition(synth, s, text, s');
    DueClipsStable(synth, s.texts, s.failed, s'.texts, s'.failed, s.next);
  }

  lemma TakeKeepsInv(synth: string -> Option<Audio>, s: State, w: nat, s': State)
    requires Inv(synth, s) && Next(synth, s, Take(w), s')
    ensures Inv(synth, s')
  {
    TakeKeepsPartition(synth, s, w, s');
  }

  lemma FinishKeepsInv(synth: string -> Option<Audio>, s: State, w: nat, raised: bool, s': State)
    requires Inv(synth, s) && Next(synth, s, Finish(w, raised), s')
    ensures Inv(synth, s')
  {
    FinishKeepsPartition(synth, s, w, raised, s');
    BusyAlone(s, w);
    DueClipsStable(synth, s.texts, s.failed, s'.texts, s'.failed, s.next);
  }

  lemma {:induction false} ClipsAreDue(synth: string -> Option<Audio>, s: State, buffer: map<nat, Option<Audio>>, from: nat, to: nat)
    requires from <= to <= |s.texts|
    requires forall k | from <= k < to :: k in buffer && AudioFits(synth, s, k, buffer[k])
    ensures DueClips(synth, s.texts, s.failed, to) == DueClips(synth, s.texts, s.failed, from) + Clips(buffer, from, to)
  {
    if from < to {
      ClipsAreDue(synth, s, buffer, from, to - 1);
    }
  }

  lemma DrainKeepsInv(synth: string -> Option<Audio>, s: State, s': State)
    requires Inv(synth, s) && Next(synth, s, Drain, s')
    ensures Inv(synth, s')
  {
    DrainKeepsPartition(synth, s, s');
    var buffer := Collected(s.completed, s.results);
    forall k | k in buffer ensures AudioFits(synth, s, k, buffer[k]) {
      CollectedValues(s.completed, s.results, k);
    }
    ClipsAreDue(synth, s, buffer, s.next, s'.next);
  }

  /** The partition, the ownership of every clip and the order of emission hold in every
      state of every interleaving. */
  lemma {:induction false} EveryInterleavingKeepsInv(synth: string -> Option<Audio>, states: seq<State>, steps: seq<Step>)
    requires IsRun(synth, states, steps)
    ensures Inv(synth, states[|steps|])
  {
    if steps == [] {
      forall k: nat ensures Places(Init(), k) == 0 {
        Idle(Init().workers, k);
      }
    } else {
      var n := |steps| - 1;
      EveryInterleavingKeepsInv(synth, states[..n + 1], steps[..n]);
      var s, s' := states[n], states[n + 1];
      assert Next(synth, s, steps[n], s');
      match steps[n]
      case Put(text) => PutKeepsInv(synth, s, text, s');
      case Take(w) => TakeKeepsInv(synth, s, w, s');
      case Finish(w, raised) => FinishKeepsInv(synth, s, w, raised, s');
      case Drain => DrainKeepsInv(synth, s, s');
    }
  }

  lemma {:induction false} Idle(workers: seq<Option<Job>>, k: nat)
    requires forall i | 0 <= i < |workers| :: workers[i].None?
    ensures Busy(workers, k) == 0
  {
    if workers != [] { Idle(workers[1..], k); }
  }

  ghost predicate Increasing(clips: seq<Clip>) {
    forall i, j | 0 <= i < j < |clips| :: clips[i].number < clips[j].number
  }

  lemma {:induction false} DueClipsIncrease(synth: string -> Option<Audio>, texts: seq<string>, failed: set<nat>, n: nat)
    requires n <= |texts|
    ensures var clips := DueClips(synth, texts, failed, n);
            Increasing(clips) && forall i | 0 <= i < |clips| :: clips[i].number < n
  {
    if n > 0 { DueClipsIncrease(synth, texts, failed, n - 1); }
  }

  /** In every interleaving audio comes out in strictly increasing order, so no sentence is
      spoken twice. */
  lemma EmissionIncreases(synth: string -> Option<Audio>, states: seq<State>, steps: seq<Step>)
    requires IsRun(synth, states, steps)
    ensures Increasing(states[|steps|].emitted)
  {
    EveryInterleavingKeepsInv(synth, states, steps);
    var s := states[|steps|];
    DueClipsIncrease(synth, s.texts, s.failed, s.next);
  }

  /** `tts_queue.join()` has returned: nothing is queued and no worker is busy. */
  ghost predicate Joined(s: State) {
    s.queue == [] && forall i | 0 <= i < |s.workers| :: s.workers[i].None?
  }

  /** After the join and the final drain every scheduled sentence was emitted or had no
      audio, and the stream of clips is the one a single worker would have produced. */
  lemma FinalDrainIsComplete(synth: string -> Option<Audio>, s: State, s': State)
    requires Inv(synth, s) && Joined(s) && Next(synth, s, Drain, s')
    ensures s'.next == s'.sequence == |s'.texts| && s'.completed.Keys == {} && s'.results == []
    ensures s'.emitted == DueClips(synth, s'.texts, s'.failed, |s'.texts|)
  {
    DrainKeepsInv(synth, s, s');
    Idle(s.workers, s'.next);
    CollectedKeys(s.completed, s.results, s'.next);
    assert Places(s, s'.next) == Bit(s.next <= s'.next < s.sequence);
    forall k: nat ensures k !in s'.completed {
      assert Places(s', k) == Bit(s'.next <= k < s'.sequence);
    }
  }

  // ---------------------------------------------------------------- which sentences fail

  /** Step `i` is a worker whose synthesis of sentence `k` raised. */
  ghost predicate RaisedAt(states: seq<State>, steps: seq<Step>, i: nat, k: nat)
    requires |states| == |steps| + 1 && i < |steps|
  {
    var step := steps[i];
    step.Finish? && step.raised && step.worker < |states[i].workers| && states[i].workers[step.worker].Some? &&
    states[i].workers[step.worker].value.number == k
  }

  ghost predicate Raised(states: seq<State>, steps: seq<Step>, k: nat)
    requires |states| == |steps| + 1
  {
    exists i | 0 <= i < |steps| :: RaisedAt(states, steps, i, k)
  }

  predicate NoneRaised(steps: seq<Step>) {
    forall i | 0 <= i < |steps| :: steps[i].Finish? ==> !steps[i].raised
  }

  lemma RaisedSnoc(states: seq<State>, steps: seq<Step>, k: nat)
    requires |states| == |steps| + 1 && steps != []
    ensures var n := |steps| - 1;
            Raised(states, steps, k) <==> Raised(states[..n + 1], steps[..n], k) || RaisedAt(states, steps, n, k)
  {
    var n := |steps| - 1;
    var before, done := states[..n + 1], steps[..n];
    forall i | 0 <= i < n ensures RaisedAt(before, done, i, k) <==> RaisedAt(states, steps, i, k) {
      assert before[i] == states[i] && done[i] == steps[i];
    }
    if Raised(states, steps, k) {
      var i :| 0 <= i < |steps| && RaisedAt(states, steps, i, k);
      assert i == n || RaisedAt(before, done, i, k);
    }
    if Raised(before, done, k) {
      var i :| 0 <= i < n && RaisedAt(before, done, i, k);
      assert RaisedAt(states, steps, i, k);
    }
  }

  /** A sentence counts as failed exactly when its synthesis raised. */
  lemma {:induction false} FailedIffRaised(synth: string -> Option<Audio>, states: seq<State>, steps: seq<Step>, k: nat)
    requires IsRun(synth, states, steps)
    ensures k in states[|steps|].failed <==> Raised(states, steps, k)
  {
    if steps != [] {
      var n := |steps| - 1;
      assert IsRun(synth, states[..n + 1], steps[..n]);
      FailedIffRaised(synth, states[..n + 1], steps[..n], k);
      assert Next(synth, states[n], steps[n], states[n + 1]);
      RaisedSnoc(states, steps, k);
    }
  }

  /** A clip is due exactly when its sentence has audio and its synthesis did not raise. */
  lemma {:induction false} DueClipsAre(synth: string -> Option<Audio>, texts: seq<string>, failed: set<nat>, n: nat, c: Clip)
    requires n <= |texts|
    ensures c in DueClips(synth, texts, failed, n) <==> c.number < n && c.number !in failed && synth(texts[c.number]) == Some(c.audio)
  {
    if n > 0 { DueClipsAre(synth, texts, failed, n - 1, c); }
  }

  /** The bounds of the pipeline: four sentences queued, two in the hands of workers. */
  lemma {:induction false} PipelineIsBounded(synth: string -> Option<Audio>, states: seq<State>, steps: seq<Step>)
    requires IsRun(synth, states, steps)
    ensures |states[|steps|].queue| <= 4 && |states[|steps|].workers| == 2
  {
    if steps != [] {
      var n := |steps| - 1;
      assert IsRun(synth, states[..n + 1], steps[..n]);
      PipelineIsBounded(synth, states[..n + 1], steps[..n]);
      assert Next(synth, states[n], steps[n], states[n + 1]);
    }
  }

  // ---------------------------------------------------------------- the drain itself

  method CollectResults(results: seq<Report>, completed: map<nat, Option<Audio>>)
    returns (completed': map<nat, Option<Audio>>)
    ensures completed' == Collected(completed, results)
  {
    completed' := completed;
    for i := 0 to |results|
      invariant completed' == Collected(completed, results[..i])
    {
      assert results[..i + 1][..i] == results[..i];
      completed' := completed'[results[i].number := results[i].audio];
    }
    assert results[..|results|] == results;
  }

  lemma RemoveOne(buffer: map<nat, Option<Audio>>, from: nat, to: nat)
    requires from <= to && forall k | from <= k <= to :: k in buffer
    ensures buffer - Range(from, to) - {to} == buffer - Range(from, to + 1)
    ensures Clips(buffer, from, to + 1) == Clips(buffer, from, to) + if buffer[to].Some? then [Clip(to, buffer[to].value)] else []
  {
    assert Range(from, to + 1) == Range(from, to) + {to};
  }

  /** Releases the longest run of consecutive numbers of the buffer that starts at `next`. */
  method Release(buffer: map<nat, Option<Audio>>, next: nat)
    returns (completed: map<nat, Option<Audio>>, next': nat, events: seq<Clip>)
    ensures Contiguous(buffer, next, next')
    ensures completed == buffer - Range(next, next')
    ensures events == Clips(buffer, next, next')
  {
    completed, next', events := buffer, next, [];
    while next' in completed
      invariant next <= next' && forall k | next <= k < next' :: k in buffer
      invariant completed == buffer - Range(next, next')
      invariant events == Clips(buffer, next, next')
      decreases completed.Keys
    {
      RemoveOne(buffer, next, next');
      var audio := buffer[next'];
      completed := completed - {next'};
      next' := next' + 1;
      if audio.Some? {
        events := events + [Clip(next' - 1, audio.value)];
      }
    }
  }

  /** `_drain_ready_tts`: empty the result queue into the buffer, then release. */
  method DrainReady(results: seq<Report>, completed: map<nat, Option<Audio>>, next: nat)
    returns (completed': map<nat, Option<Audio>>, next': nat, events: seq<Clip>)
    ensures var buffer := Collected(completed, results);
            && Contiguous(buffer, next, next')
            && completed' == buffer - Range(next, next')
            && events == Clips(buffer, next, next')
  {
    var buffer := CollectResults(results, completed);
    completed', next', events := Release(buffer, next);
  }
}
