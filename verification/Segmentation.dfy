/** Cutting a streamed answer into sentences for speech (agent/canvas.py, `_process_stream`
    and the end of `_stream_events`). */
module Segmentation {
  import opened Wrappers

  /** A way to find the end of the first sentence of a text. The end is positive and inside
      the text, and cutting there does not move it. */
  ghost predicate Cutter(find: string -> Option<nat>) {
    && (forall s | find(s).Some? :: 0 < find(s).value <= |s|)
    && (forall s :: StableAt(find, s))
  }

  ghost predicate StableAt(find: string -> Option<nat>, s: string) {
    find(s).Some? && find(s).value <= |s| ==> find(s[..find(s).value]) == find(s)
  }

  // ---------------------------------------------------------------- cutting

  /** The sentences cut off a buffer and what stays in it. */
  datatype Cutting = Cutting(sentences: seq<string>, rest: string)

  ghost function Cut(find: string -> Option<nat>, s: string): Cutting
    requires Cutter(find)
    decreases |s|
  {
    match find(s)
    case None => Cutting([], s)
    case Some(e) =>
      var c := Cut(find, s[e..]);
      Cutting([s[..e]] + c.sentences, c.rest)
  }

  function Join(parts: seq<string>): string {
    if parts == [] then "" else Join(parts[..|parts| - 1]) + parts[|parts| - 1]
  }

  lemma JoinSnoc(parts: seq<string>, part: string)
    ensures Join(parts + [part]) == Join(parts) + part
  {
    assert (parts + [part])[..|parts|] == parts;
  }

  lemma {:induction false} JoinConcat(a: seq<string>, b: seq<string>)
    ensures Join(a + b) == Join(a) + Join(b)
  {
    if b == [] {
      assert a + b == a;
    } else {
      var n := |b| - 1;
      assert (a + b)[..|a| + n] == a + b[..n];
      JoinConcat(a, b[..n]);
    }
  }

  lemma JoinCons(first: string, parts: seq<string>, rest: string)
    ensures Join([first] + parts) + rest == first + (Join(parts) + rest)
  {
    JoinConcat([first], parts);
    JoinSnoc([], first);
    assert [] + [first] == [first];
  }

  /** A piece of text that stops at its own first sentence end. */
  predicate Sentence(find: string -> Option<nat>, s: string) {
    s != "" && find(s) == Some(|s|)
  }

  lemma CutUnfold(find: string -> Option<nat>, s: string)
    requires Cutter(find) && find(s).Some?
    ensures var e := find(s).value;
            0 < e <= |s| && Cut(find, s) == Cutting([s[..e]] + Cut(find, s[e..]).sentences, Cut(find, s[e..]).rest)
  {
  }

  lemma Reassembled(s: string, e: nat, parts: seq<string>, rest: string)
    requires e <= |s| && Join(parts) + rest == s[e..]
    ensures Join([s[..e]] + parts) + rest == s
  {
    JoinCons(s[..e], parts, rest);
  }

  /** Cutting loses nothing. */
  lemma {:induction false} CutIsLossless(find: string -> Option<nat>, s: string)
    requires Cutter(find)
    ensures Join(Cut(find, s).sentences) + Cut(find, s).rest == s
    decreases |s|
  {
    if find(s).Some? {
      CutUnfold(find, s);
      var e := find(s).value;
      CutIsLossless(find, s[e..]);
      Reassembled(s, e, Cut(find, s[e..]).sentences, Cut(find, s[e..]).rest);
    } else {
      assert Cut(find, s) == Cutting([], s);
    }
  }

  /** Cutting cuts whole sentences, and leaves no sentence end in the rest. */
  lemma {:induction false} CutsWholeSentences(find: string -> Option<nat>, s: string)
    requires Cutter(find)
    ensures find(Cut(find, s).rest) == None
    ensures forall i | 0 <= i < |Cut(find, s).sentences| :: Sentence(find, Cut(find, s).sentences[i])
    decreases |s|
  {
    if find(s).Some? {
      CutsWholeSentences(find, s[find(s).value..]);
      assert StableAt(find, s);
    }
  }

  // ---------------------------------------------------------------- the stream

  predicate OpensThinking(m: string) {
    m == "<think>"
  }

  predicate ClosesThinking(m: string) {
    m == "</think>"
  }

  predicate Marker(m: string) {
    OpensThinking(m) || ClosesThinking(m)
  }

  function Thinking(chunks: seq<string>): bool {
    if chunks == [] then false
    else
      var m := chunks[|chunks| - 1];
      if OpensThinking(m) then true else if ClosesThinking(m) then false else Thinking(chunks[..|chunks| - 1])
  }

  /** The text to be spoken: every chunk that is no marker and stands outside thinking. */
  function Spoken(chunks: seq<string>): string {
    if chunks == [] then ""
    else
      var init, m := chunks[..|chunks| - 1], chunks[|chunks| - 1];
      Spoken(init) + if Marker(m) || Thinking(init) then "" else m
  }

  /** The answer text: every chunk that is no marker. */
  function Answer(chunks: seq<string>): string {
    if chunks == [] then ""
    else
      var init, m := chunks[..|chunks| - 1], chunks[|chunks| - 1];
      Answer(init) + if Marker(m) then "" else m
  }

  /** What is thought is neither spoken nor lost from the answer; the markers are in neither. */
  lemma ThinkingIsSilent(a: string, b: string, c: string)
    requires forall m | m in [a, b, c] :: m != "<think>" && m != "</think>"
    ensures Spoken([a, "<think>", b, "</think>", c]) == a + c
    ensures Answer([a, "<think>", b, "</think>", c]) == a + b + c
  {
    var s0, s1, s2 := [a], [a, "<think>"], [a, "<think>", b];
    var s3, s4 := [a, "<think>", b, "</think>"], [a, "<think>", b, "</think>", c];
    assert a in [a, b, c] && b in [a, b, c] && c in [a, b, c];
    assert s0[..0] == [] && s1[..1] == s0 && s2[..2] == s1 && s3[..3] == s2 && s4[..4] == s3;
    assert !Thinking([]) && Spoken([]) == "" && Answer([]) == "";
    assert Spoken(s0) == "" + a && Answer(s0) == "" + a && !Thinking(s0);
    assert Spoken(s1) == a + "" == a && Answer(s1) == a + "" == a && Thinking(s1);
    assert Spoken(s2) == a + "" == a && Answer(s2) == a + b && Thinking(s2);
    assert Spoken(s3) == a + "" == a && Answer(s3) == a + b + "" == a + b && !Thinking(s3);
  }

  predicate NonEmpty(parts: seq<string>) {
    forall i | 0 <= i < |parts| :: parts[i] != ""
  }

  class Feeder {
    const find: string -> Option<nat>
    const speaking: bool
    var buffer: string
    var answer: string
    var thinking: bool
    // The sentences handed to the speech queue, in order.
    var scheduled: seq<string>

    constructor (find: string -> Option<nat>, speaking: bool)
      requires Cutter(find)
      ensures this.find == find && this.speaking == speaking && Holds([])
    {
      this.find, this.speaking := find, speaking;
      buffer, answer, thinking, scheduled := "", "", false, [];
    }

    /** After the chunks `chunks`: no text was lost, and only non-empty texts were queued. */
    ghost predicate Holds(chunks: seq<string>)
      reads this
    {
      && Cutter(find)
      && thinking == Thinking(chunks) && answer == Answer(chunks)
      && (if speaking then Join(scheduled) + buffer == Spoken(chunks) else scheduled == [])
      && NonEmpty(scheduled)
    }

    method Schedule(text: string)
      modifies this`scheduled
      ensures scheduled == old(scheduled) + if speaking && text != "" then [text] else []
      ensures Join(scheduled) == old(Join(scheduled)) + if speaking then text else ""
      ensures NonEmpty(old(scheduled)) ==> NonEmpty(scheduled)
    {
      JoinSnoc(scheduled, text);
      if speaking && text != "" {
        scheduled := scheduled + [text];
      }
    }

    /** Moves every complete sentence from the buffer to the queue. */
    method Split()
      requires Cutter(find)
      modifies this`buffer, this`scheduled
      ensures buffer == Cut(find, old(buffer)).rest
      ensures scheduled == old(scheduled) + if speaking then Cut(find, old(buffer)).sentences else []
    {
      ghost var done: seq<string> := [];
      var end := find(buffer);
      while end.Some?
        invariant end == find(buffer)
        invariant Cut(find, old(buffer)) == Cutting(done + Cut(find, buffer).sentences, Cut(find, buffer).rest)
        invariant scheduled == old(scheduled) + if speaking then done else []
        decreases |buffer|
      {
        var sentence := buffer[..end.value];
        CutStep(find, done, buffer);
        Associative(old(scheduled), done, sentence);
        done := done + [sentence];
        buffer := buffer[end.value..];
        Schedule(sentence);
        end := find(buffer);
      }
    }

    /** Hands whatever is left in the buffer to the queue. */
    method Flush()
      modifies this`buffer, this`scheduled
      ensures buffer == ""
      ensures speaking ==> Join(scheduled) == old(Join(scheduled) + buffer)
      ensures !speaking ==> scheduled == old(scheduled)
      ensures NonEmpty(old(scheduled)) ==> NonEmpty(scheduled)
    {
      Schedule(buffer);
      buffer := "";
    }

    method Process(m: string, ghost chunks: seq<string>)
      requires Holds(chunks)
      modifies this
      ensures Holds(chunks + [m])
      ensures !Thinking(chunks) && m != "" && !Marker(m) ==> find(buffer) == None
    {
      assert (chunks + [m])[..|chunks|] == chunks;
      if m == "" {
        return;
      }
      if OpensThinking(m) {
        Flush();
        thinking := true;
      } else if ClosesThinking(m) {
        thinking := false;
      } else {
        answer := answer + m;
        if thinking {
          return;
        }
        Speak(m);
      }
    }

    /** Takes in text outside thinking and queues the sentences it completes. */
    method Speak(m: string)
      requires Cutter(find)
      modifies this`buffer, this`scheduled
      ensures find(buffer) == None
      ensures if speaking then Join(scheduled) + buffer == old(Join(scheduled) + buffer) + m else scheduled == old(scheduled)
      ensures NonEmpty(old(scheduled)) ==> NonEmpty(scheduled)
    {
      CutMore(find, scheduled, buffer, m);
      buffer := buffer + m;
      Split();
    }
  }

  lemma CutStep(find: string -> Option<nat>, done: seq<string>, buffer: string)
    requires Cutter(find) && find(buffer).Some?
    ensures var e := find(buffer).value;
            Cutting(done + Cut(find, buffer).sentences, Cut(find, buffer).rest) ==
            Cutting(done + [buffer[..e]] + Cut(find, buffer[e..]).sentences, Cut(find, buffer[e..]).rest)
  {
    var e := find(buffer).value;
    var c := Cut(find, buffer[e..]);
    assert done + ([buffer[..e]] + c.sentences) == done + [buffer[..e]] + c.sentences;
  }

  lemma Associative(a: seq<string>, b: seq<string>, c: string)
    ensures (a + b) + [c] == a + (b + [c])
  {
  }

  /** Cutting up the buffer grown by `m`, behind what is queued already. */
  lemma CutMore(find: string -> Option<nat>, parts: seq<string>, buffer: string, m: string)
    requires Cutter(find)
    ensures var c := Cut(find, buffer + m);
            && Join(parts + c.sentences) + c.rest == (Join(parts) + buffer) + m
            && find(c.rest) == None
            && (NonEmpty(parts) ==> NonEmpty(parts + c.sentences))
  {
    var c := Cut(find, buffer + m);
    CutIsLossless(find, buffer + m);
    JoinConcat(parts, c.sentences);
    Regroup(Join(parts), Join(c.sentences), c.rest, buffer, m);
    CutsWholeSentences(find, buffer + m);
  }

  lemma Regroup(a: string, b: string, c: string, d: string, e: string)
    requires b + c == d + e
    ensures (a + b) + c == (a + d) + e
  {
    assert (a + b) + c == a + (b + c) == a + (d + e);
  }

  /** Segmentation is lossless: for every chunk stream that ends normally the scheduled
      sentences concatenate to exactly the text outside markers and thinking. */
  method Stream(find: string -> Option<nat>, chunks: seq<string>, speaking: bool) returns (scheduled: seq<string>, answer: string)
    requires Cutter(find)
    ensures answer == Answer(chunks)
    ensures if speaking then Join(scheduled) == Spoken(chunks) else scheduled == []
    ensures NonEmpty(scheduled)
  {
    var feeder := new Feeder(find, speaking);
    assert chunks[..0] == [];
    for i := 0 to |chunks|
      invariant fresh(feeder) && feeder.speaking == speaking
      invariant feeder.Holds(chunks[..i])
    {
      assert chunks[..i + 1] == chunks[..i] + [chunks[i]];
      feeder.Process(chunks[i], chunks[..i]);
    }
    assert chunks[..|chunks|] == chunks;
    feeder.Flush();
    scheduled, answer := feeder.scheduled, feeder.answer;
  }
}

/** The sentence-end pattern of the streamed message (agent/canvas.py, `sentence_end`). */
module SentenceEnd {
  import opened Text
  import opened Wrappers
  import opened Segmentation

  predicate Terminator(c: char) {
    || c == '\U{3002}' || c == '\U{FF01}' || c == '\U{FF1F}' || c == '!' || c == '?'
    || c == '\U{FF1B}' || c == ';' || c == '\n'
  }

  predicate Closer(c: char) {
    || c == '\U{201D}' || c == '\U{2019}' || c == '"' || c == '\U{300F}' || c == '\U{300D}'
    || c == '\U{3011}' || c == '\U{300B}' || c == '\U{FF09}' || c == ')'
  }

  predicate Stop(c: char) {
    c == '.' || c == '!' || c == '?'
  }

  function AfterClosers(s: string, p: nat): (e: nat)
    requires p <= |s|
    ensures p <= e <= |s|
    ensures e < |s| ==> !Closer(s[e])
    ensures forall i | p <= i < e :: Closer(s[i])
    decreases |s| - p
  {
    if p < |s| && Closer(s[p]) then AfterClosers(s, p + 1) else p
  }

  /** The end of the sentence-end pattern matched at position `p` exactly: a terminator with
      its closing marks, or an empty match behind a stop that ends the text or precedes white
      space. */
  function EndAt(s: string, p: nat): (e: Option<nat>)
    requires p <= |s|
    ensures e.Some? ==> 0 < e.value && p <= e.value <= |s|
  {
    if p < |s| && Terminator(s[p]) then Some(AfterClosers(s, p + 1))
    else if p > 0 && Stop(s[p - 1]) && (p == |s| || Space(s[p])) then Some(p)
    else None
  }

  /** The end of the leftmost match at or behind `p`. */
  function EndFrom(s: string, p: nat): (e: Option<nat>)
    requires p <= |s|
    ensures e.Some? ==> 0 < e.value && p <= e.value <= |s|
    decreases |s| - p
  {
    if EndAt(s, p).Some? then EndAt(s, p)
    else if p == |s| then None
    else EndFrom(s, p + 1)
  }

  /** `sentence_end.search` on a whole buffer. */
  function Find(s: string): Option<nat> {
    EndFrom(s, 0)
  }

  lemma {:induction false} EndOfPrefix(s: string, p: nat, e: nat)
    requires p <= |s| && EndFrom(s, p) == Some(e)
    ensures EndFrom(s[..e], p) == Some(e)
    decreases |s| - p
  {
    var t := s[..e];
    if EndAt(s, p).Some? {
      if p < |s| && Terminator(s[p]) {
        assert forall i | p + 1 <= i < e :: t[i] == s[i] && Closer(s[i]);
        ClosersToEnd(t, p + 1);
      }
    } else {
      EndOfPrefix(s, p + 1, e);
    }
  }

  lemma {:induction false} ClosersToEnd(s: string, p: nat)
    requires p <= |s| && forall i | p <= i < |s| :: Closer(s[i])
    ensures AfterClosers(s, p) == |s|
    decreases |s| - p
  {
    if p < |s| { ClosersToEnd(s, p + 1); }
  }

  /** Every match ends behind the start of the buffer, and a sentence that is cut off still
      ends where it was cut: the pattern drives the segmentation without stalling it. */
  lemma PatternIsCutter()
    ensures Cutter(Find)
  {
    forall s: string
      ensures StableAt(Find, s)
    {
      if Find(s).Some? { EndOfPrefix(s, 0, Find(s).value); }
    }
  }

  // ---------------------------------------------------------------- what ends a sentence

  /** Full-width and plain marks that end a sentence, and the line feed. */
  const ENDINGS := "\U{3002}\U{FF01}\U{FF1F}!?\U{FF1B};\n"
  /** Closing quotes and brackets that still belong to it. */
  const CLOSINGS := "\U{201D}\U{2019}\"\U{300F}\U{300D}\U{3011}\U{300B}\U{FF09})"

  predicate Quiet(u: string) {
    forall i | 0 <= i < |u| :: u[i] !in ENDINGS && u[i] != '.'
  }

  lemma Marks(c: char)
    ensures Terminator(c) <==> c in ENDINGS
    ensures Closer(c) <==> c in CLOSINGS
    ensures Stop(c) <==> c in ".!?"
  {
  }

  lemma QuietAt(s: string, u: string, p: nat)
    requires Quiet(u) && u <= s && p < |u|
    ensures EndAt(s, p).None? && !Stop(u[p])
  {
    Marks(u[p]);
    assert s[p] == u[p];
    if p > 0 {
      Marks(u[p - 1]);
      assert s[p - 1] == u[p - 1];
    }
  }

  lemma {:induction false} QuietSkips(s: string, u: string, p: nat)
    requires Quiet(u) && u <= s && p <= |u|
    ensures EndFrom(s, p) == EndFrom(s, |u|)
    decreases |u| - p
  {
    if p < |u| {
      QuietAt(s, u, p);
      QuietSkips(s, u, p + 1);
    }
  }

  lemma LastIsQuiet(s: string, u: string)
    requires Quiet(u) && u <= s
    ensures |u| > 0 ==> !Stop(s[|u| - 1])
  {
    if |u| > 0 { QuietAt(s, u, |u| - 1); }
  }

  lemma {:induction false} ClosersAre(s: string, p: nat, e: nat)
    requires p <= e <= |s| && (forall i | p <= i < e :: s[i] in CLOSINGS) && (e < |s| ==> s[e] !in CLOSINGS)
    ensures AfterClosers(s, p) == e
    decreases e - p
  {
    if p < |s| { Marks(s[p]); }
    if p < e { ClosersAre(s, p + 1, e); }
  }

  /** A sentence ends behind the first ending mark and the closing marks that follow it. */
  lemma MarkEndsSentence(u: string, c: char, q: string, rest: string)
    requires Quiet(u) && c in ENDINGS && (forall i | 0 <= i < |q| :: q[i] in CLOSINGS) && (rest != "" ==> rest[0] !in CLOSINGS)
    ensures Find(u + [c] + q + rest) == Some(|u| + 1 + |q|)
  {
    var s := u + [c] + q + rest;
    var n, e := |u|, |u| + 1 + |q|;
    QuietSkips(s, u, 0);
    Marks(c);
    assert s[n] == c;
    forall i | n + 1 <= i < e ensures s[i] in CLOSINGS { assert s[i] == q[i - n - 1]; }
    assert e < |s| ==> s[e] == rest[0];
    ClosersAre(s, n + 1, e);
  }

  /** A full stop ends a sentence where the text ends or white space follows, and nowhere else. */
  lemma StopEndsSentence(u: string, c: char, rest: string)
    requires Quiet(u) && c !in ENDINGS
    ensures Find(u + ".") == Some(|u| + 1)
    ensures Space(c) ==> Find(u + "." + [c] + rest) == Some(|u| + 1)
    ensures c != '.' && !Space(c) ==> Find(u + "." + [c]) == None
    ensures Find(u) == None
  {
    StopAtEnd(u, "");
    assert u + "." + "" == u + ".";
    if Space(c) {
      StopAtEnd(u, [c] + rest);
      assert u + "." + ([c] + rest) == u + "." + [c] + rest;
    }
    QuietSkips(u, u, 0);
    LastIsQuiet(u, u);
    if c != '.' && !Space(c) { NoEndAfter(u, c); }
  }

  lemma StopAtEnd(u: string, rest: string)
    requires Quiet(u) && (rest != "" ==> Space(rest[0]) && rest[0] !in ENDINGS)
    ensures Find(u + "." + rest) == Some(|u| + 1)
  {
    var s, n := u + "." + rest, |u|;
    QuietSkips(s, u, 0);
    LastIsQuiet(s, u);
    Marks('.');
    assert s[n] == '.' && EndAt(s, n).None?;
    if rest != "" { Marks(rest[0]); }
    assert rest != "" ==> s[n + 1] == rest[0];
    assert EndAt(s, n + 1) == Some(n + 1);
  }

  lemma NoEndAfter(u: string, c: char)
    requires Quiet(u) && c !in ENDINGS && c != '.' && !Space(c)
    ensures Find(u + "." + [c]) == None
  {
    var s, n := u + "." + [c], |u|;
    QuietSkips(s, u, 0);
    LastIsQuiet(s, u);
    Marks('.');
    Marks(c);
    assert s[n] == '.' && s[n + 1] == c && |s| == n + 2;
    assert EndAt(s, n).None? && EndAt(s, n + 1).None? && EndAt(s, n + 2).None?;
    assert EndFrom(s, n + 2) == None;
    assert EndFrom(s, n + 1) == None;
    assert EndFrom(s, n) == None;
  }
}
