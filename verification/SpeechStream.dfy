/** A streamed message from its chunks to the audio that is played (agent/canvas.py,
    `_stream_events`): the sentence cutter in front of the speech pipeline. */
module SpeechStream {
  import S = Segmentation
  import T = TtsPipeline
  import SentenceEnd
  import opened Wrappers

  /** The texts a run of the pipeline was given, in order. */
  function PutTexts(steps: seq<T.Step>): seq<string> {
    if steps == [] then []
    else
      var n := |steps| - 1;
      PutTexts(steps[..n]) + if steps[n].Put? then [steps[n].text] else []
  }

  lemma {:induction false} TextsArePut(synth: string -> Option<T.Audio>, states: seq<T.State>, steps: seq<T.Step>)
    requires T.IsRun(synth, states, steps)
    ensures states[|steps|].texts == PutTexts(steps)
  {
    if steps != [] {
      var n := |steps| - 1;
      assert T.IsRun(synth, states[..n + 1], steps[..n]);
      TextsArePut(synth, states[..n + 1], steps[..n]);
      assert T.Next(synth, states[n], steps[n], states[n + 1]);
    }
  }

  /** Some interleaving that is given these texts, waits for the workers and drains once more. */
  ghost predicate Plays(synth: string -> Option<T.Audio>, states: seq<T.State>, steps: seq<T.Step>, texts: seq<string>) {
    && T.IsRun(synth, states, steps) && PutTexts(steps) == texts
    && steps != [] && steps[|steps| - 1] == T.Drain && T.Joined(states[|steps| - 1])
  }

  /** What is played: the audio of exactly those texts that have some and whose synthesis did not
      raise, each once, in order. */
  ghost predicate PlaysThese(synth: string -> Option<T.Audio>, states: seq<T.State>, steps: seq<T.Step>, texts: seq<string>)
    requires |states| == |steps| + 1
  {
    var clips := states[|steps|].emitted;
    && T.Increasing(clips)
    && forall c :: c in clips <==> c.number < |texts| && synth(texts[c.number]) == Some(c.audio) && !T.Raised(states, steps, c.number)
  }

  lemma PlaysAll(synth: string -> Option<T.Audio>, states: seq<T.State>, steps: seq<T.Step>, texts: seq<string>)
    requires Plays(synth, states, steps, texts)
    ensures PlaysThese(synth, states, steps, texts)
  {
    var n := |steps| - 1;
    TextsArePut(synth, states, steps);
    assert T.IsRun(synth, states[..n + 1], steps[..n]);
    T.EveryInterleavingKeepsInv(synth, states[..n + 1], steps[..n]);
    assert T.Next(synth, states[n], steps[n], states[n + 1]);
    T.FinalDrainIsComplete(synth, states[n], states[n + 1]);
    T.EmissionIncreases(synth, states, steps);
    var last := states[n + 1];
    forall c
      ensures c in last.emitted <==> c.number < |texts| && synth(texts[c.number]) == Some(c.audio) && !T.Raised(states, steps, c.number)
    {
      T.DueClipsAre(synth, texts, last.failed, |texts|, c);
      T.FailedIffRaised(synth, states, steps, c.number);
    }
  }

  /** Where no synthesis raises, every text that has audio is played. */
  lemma PlaysEverything(synth: string -> Option<T.Audio>, states: seq<T.State>, steps: seq<T.Step>, texts: seq<string>)
    requires Plays(synth, states, steps, texts) && T.NoneRaised(steps)
    ensures forall k, audio | 0 <= k < |texts| && synth(texts[k]) == Some(audio) :: T.Clip(k, audio) in states[|steps|].emitted
  {
    PlaysAll(synth, states, steps, texts);
    forall k: nat ensures !T.Raised(states, steps, k) {
      assert forall i | 0 <= i < |steps| :: !T.RaisedAt(states, steps, i, k);
    }
  }

  // ---------------------------------------------------------------- such interleavings exist

  function BusyCount(workers: seq<Option<T.Job>>): nat {
    if workers == [] then 0 else T.Bit(workers[0].Some?) + BusyCount(workers[1..])
  }

  /** The steps the workers still have to take. */
  function Work(s: T.State): nat {
    2 * |s.queue| + BusyCount(s.workers)
  }

  lemma {:induction false} BusyCountUpdate(workers: seq<Option<T.Job>>, w: nat, job: Option<T.Job>)
    requires w < |workers|
    ensures BusyCount(workers[w := job]) + T.Bit(workers[w].Some?) == BusyCount(workers) + T.Bit(job.Some?)
  {
    if w == 0 {
      assert workers[0 := job][1..] == workers[1..];
    } else {
      assert workers[w := job][1..] == workers[1..][w - 1 := job];
      BusyCountUpdate(workers[1..], w - 1, job);
    }
  }

  /** Until the join returns some worker can take a step, and every such step leaves less to do. */
  lemma WorkerCanStep(synth: string -> Option<T.Audio>, s: T.State) returns (step: T.Step, s': T.State)
    requires |s.workers| == T.WORKERS && !T.Joined(s)
    ensures (step.Take? || (step.Finish? && !step.raised)) && T.Next(synth, s, step, s') && Work(s') < Work(s)
  {
    if w :| 0 <= w < |s.workers| && s.workers[w].Some? {
      var job := s.workers[w].value;
      step := T.Finish(w, false);
      s' := s.(workers := s.workers[w := None], results := s.results + [T.Report(job.number, synth(job.text))], failed := s.failed + {});
      BusyCountUpdate(s.workers, w, None);
    } else {
      step := T.Take(0);
      s' := s.(queue := s.queue[1..], workers := s.workers[0 := Some(s.queue[0])]);
      BusyCountUpdate(s.workers, 0, Some(s.queue[0]));
    }
  }

  lemma StepsSnoc(steps: seq<T.Step>, step: T.Step)
    ensures PutTexts(steps + [step]) == PutTexts(steps) + if step.Put? then [step.text] else []
    ensures T.NoneRaised(steps) && (step.Finish? ==> !step.raised) ==> T.NoneRaised(steps + [step])
  {
    assert (steps + [step])[..|steps|] == steps;
  }

  lemma RunSnoc(synth: string -> Option<T.Audio>, states: seq<T.State>, steps: seq<T.Step>, step: T.Step, s': T.State)
    requires T.IsRun(synth, states, steps) && T.Next(synth, states[|steps|], step, s')
    ensures T.IsRun(synth, states + [s'], steps + [step])
    ensures PutTexts(steps + [step]) == PutTexts(steps) + if step.Put? then [step.text] else []
    ensures T.NoneRaised(steps) && (step.Finish? ==> !step.raised) ==> T.NoneRaised(steps + [step])
  {
    StepsSnoc(steps, step);
    T.RunGrows(synth, states, steps, step, s');
  }

  /** From every reachable state the workers alone can bring the join about. */
  lemma {:induction false} ReachJoin(synth: string -> Option<T.Audio>, states: seq<T.State>, steps: seq<T.Step>)
    returns (states': seq<T.State>, steps': seq<T.Step>)
    requires T.IsRun(synth, states, steps)
    ensures T.IsRun(synth, states', steps') && PutTexts(steps') == PutTexts(steps) && T.Joined(states'[|steps'|])
    ensures T.NoneRaised(steps) ==> T.NoneRaised(steps')
    decreases Work(states[|steps|])
  {
    var s := states[|steps|];
    if T.Joined(s) {
      states', steps' := states, steps;
    } else {
      T.PipelineIsBounded(synth, states, steps);
      var step, s' := WorkerCanStep(synth, s);
      RunSnoc(synth, states, steps, step, s');
      assert (states + [s'])[|steps| + 1] == s';
      states', steps' := ReachJoin(synth, states + [s'], steps + [step]);
    }
  }

  lemma {:induction false} NextGap(buffer: map<nat, Option<T.Audio>>, from: nat) returns (to: nat)
    ensures T.Contiguous(buffer, from, to)
    decreases buffer.Keys
  {
    if from in buffer {
      to := NextGap(buffer - {from}, from + 1);
    } else {
      to := from;
    }
  }

  lemma {:induction false} PutAll(synth: string -> Option<T.Audio>, texts: seq<string>)
    returns (states: seq<T.State>, steps: seq<T.Step>)
    requires S.NonEmpty(texts)
    ensures T.IsRun(synth, states, steps) && PutTexts(steps) == texts && T.Joined(states[|steps|]) && T.NoneRaised(steps)
  {
    if texts == [] {
      states, steps := [T.Init()], [];
    } else {
      var n := |texts| - 1;
      states, steps := PutAll(synth, texts[..n]);
      var s := states[|steps|];
      var s' := s.(queue := s.queue + [T.Job(s.sequence, texts[n])], sequence := s.sequence + 1, texts := s.texts + [texts[n]]);
      assert T.Next(synth, s, T.Put(texts[n]), s');
      RunSnoc(synth, states, steps, T.Put(texts[n]), s');
      assert texts == texts[..n] + [texts[n]];
      states, steps := ReachJoin(synth, states + [s'], steps + [T.Put(texts[n])]);
    }
  }

  /** Every list of sentences can be played. */
  lemma EveryListPlays(synth: string -> Option<T.Audio>, texts: seq<string>) returns (states: seq<T.State>, steps: seq<T.Step>)
    requires S.NonEmpty(texts)
    ensures Plays(synth, states, steps, texts) && T.NoneRaised(steps)
    ensures forall k, audio | 0 <= k < |texts| && synth(texts[k]) == Some(audio) :: T.Clip(k, audio) in states[|steps|].emitted
  {
    states, steps := PutAll(synth, texts);
    var s := states[|steps|];
    var buffer := T.Collected(s.completed, s.results);
    var next := NextGap(buffer, s.next);
    var s' := s.(results := [], next := next, completed := buffer - T.Range(s.next, next), emitted := s.emitted + T.Clips(buffer, s.next, next));
    assert T.Next(synth, s, T.Drain, s');
    RunSnoc(synth, states, steps, T.Drain, s');
    states, steps := states + [s'], steps + [T.Drain];
    PlaysEverything(synth, states, steps, texts);
  }

  /** The whole way: the queued sentences concatenate to the text outside markers and thinking,
      and in every interleaving the audio played is theirs, in order. */
  method SpeakAnswer(chunks: seq<string>) returns (scheduled: seq<string>, answer: string)
    ensures answer == S.Answer(chunks) && S.Join(scheduled) == S.Spoken(chunks) && S.NonEmpty(scheduled)
    ensures forall synth, states: seq<T.State>, steps | Plays(synth, states, steps, scheduled) :: PlaysThese(synth, states, steps, scheduled)
  {
    SentenceEnd.PatternIsCutter();
    scheduled, answer := S.Stream(SentenceEnd.Find, chunks, true);
    forall synth, states: seq<T.State>, steps | Plays(synth, states, steps, scheduled)
      ensures PlaysThese(synth, states, steps, scheduled)
    {
      PlaysAll(synth, states, steps, scheduled);
    }
  }
}
