/** The GaussDB predicates against the in-memory filter: on which documents with text metadata,
    stored as single texts or as lists of texts, the two select the same. */
module GaussAgreement {
  import opened Text
  import opened Wrappers
  import opened FilterSyntax
  import opened ListText
  import M = MetaFilter
  import E = EsFilter
  import G = GaussFilter

  // ---------------------------------------------------------------- one filter, two readers

  function Value(v: M.Value): G.Value {
    match v
    case Null => G.Null
    case Scalar(t) => G.Text(t)
    case Items(ts) => G.List(G.Texts(ts))
  }

  function ToGauss(f: Filter<M.Value>): Filter<G.Value> {
    Filter(f.key, f.op, Value(f.value))
  }

  /** A document and the keys under which it stores a list. */
  datatype Stored = Stored(doc: M.Doc, lists: set<string>) {
    function Values(key: string): seq<string> {
      M.Values(doc, key)
    }

    /** Under any other key it stores one text or nothing. */
    predicate Wf(key: string) {
      key !in lists ==> |Values(key)| <= 1
    }
  }

  function Jsons(vs: seq<string>): (js: seq<G.Json>)
    ensures |js| == |vs| && forall i | 0 <= i < |vs| :: js[i] == G.JText(vs[i])
  {
    seq(|vs|, i requires 0 <= i < |vs| => G.JText(vs[i]))
  }

  lemma JsonsHold(vs: seq<string>, t: string)
    ensures G.JText(t) in Jsons(vs) <==> t in vs
  {
    if t in vs {
      var i :| 0 <= i < |vs| && vs[i] == t;
      assert Jsons(vs)[i] == G.JText(t);
    }
  }

  function RowOf(s: Stored): G.Row {
    key =>
      if key in s.lists then Some(G.JArray(Jsons(s.Values(key))))
      else if s.Values(key) == [] then None
      else Some(G.JText(s.Values(key)[0]))
  }

  datatype Readers = Readers(memory: M.Env, gauss: G.Env, show: G.Json -> string)

  /** No Python literal to the translator. */
  predicate Unparsed(r: Readers, t: string) {
    Strip(t) == "" || r.gauss.parse(Strip(t)).None?
  }

  /** No literal to either reader, and no date. */
  predicate PlainText(r: Readers, t: string) {
    Unparsed(r, t) && !M.IsDate(Strip(t)) && r.memory.parse(t).None?
  }

  ghost predicate AllUnparsed(r: Readers, ts: seq<string>) {
    forall i | 0 <= i < |ts| :: Unparsed(r, ts[i])
  }

  /** Filters on a top-level key, with texts that both readers take as texts. */
  ghost predicate InScope(r: Readers, f: Filter<M.Value>) {
    && G.ValidKey(f.key) && '.' !in f.key
    && match Positive(f.op)
       case Eq => f.value.Scalar? && PlainText(r, f.value.text)
       case In => f.value.Items? && f.value.texts != [] && AllUnparsed(r, f.value.texts)
       case Empty => true
       case NotEmpty => true
       case _ => f.value.Scalar? && f.value.text != ""
  }

  // ---------------------------------------------------------------- what the predicates find

  /** How the database writes a stored list, in lower case. */
  function Written(r: Readers, s: Stored, key: string): string {
    Lower(r.show(G.JArray(Jsons(s.Values(key)))))
  }

  /** `=`: in a list a member in lower case, or the list as it is written. */
  ghost predicate Finds(r: Readers, s: Stored, key: string, t: string) {
    if key in s.lists then t != "" && (Lower(t) in s.Values(key) || Written(r, s, key) == Lower(t))
    else E.SomeEqual(s.Values(key), t)
  }

  ghost predicate FindsSome(r: Readers, s: Stored, key: string, ts: seq<string>) {
    exists i | 0 <= i < |ts| :: Finds(r, s, key, ts[i])
  }

  ghost predicate FindsPart(r: Readers, s: Stored, key: string, t: string) {
    if key in s.lists then Lower(t) in s.Values(key) || OccursIn(Lower(t), Written(r, s, key))
    else E.SomeHas(s.Values(key), t)
  }

  ghost predicate SomeStarts(vs: seq<string>, t: string) {
    exists i | 0 <= i < |vs| :: Lower(t) <= Lower(vs[i])
  }

  ghost predicate SomeEnds(vs: seq<string>, t: string) {
    exists i | 0 <= i < |vs| :: EndsWith(Lower(vs[i]), Lower(t))
  }

  ghost predicate FindsStart(r: Readers, s: Stored, key: string, t: string) {
    if key in s.lists then Lower(t) <= Written(r, s, key) else SomeStarts(s.Values(key), t)
  }

  ghost predicate FindsEnd(r: Readers, s: Stored, key: string, t: string) {
    if key in s.lists then EndsWith(Written(r, s, key), Lower(t)) else SomeEnds(s.Values(key), t)
  }

  /** In a field with at most one value, `some` means `the`. */
  lemma OneEqual(vs: seq<string>, t: string)
    requires |vs| <= 1
    ensures E.SomeEqual(vs, t) <==> vs != [] && Lower(vs[0]) == Lower(t)
    ensures E.SomeDiffers(vs, t) <==> vs != [] && Lower(vs[0]) != Lower(t)
  {
  }

  lemma OneHas(vs: seq<string>, t: string)
    requires |vs| <= 1
    ensures E.SomeHas(vs, t) <==> vs != [] && OccursIn(Lower(t), Lower(vs[0]))
    ensures E.SomeLacks(vs, t) <==> vs != [] && !OccursIn(Lower(t), Lower(vs[0]))
  {
    if vs != [] { assert OccursIn(Lower(t), Lower(vs[0])) || !OccursIn(Lower(t), Lower(vs[0])); }
  }

  lemma OneStarts(vs: seq<string>, t: string)
    requires |vs| <= 1
    ensures SomeStarts(vs, t) <==> vs != [] && Lower(t) <= Lower(vs[0])
  {
  }

  lemma OneEnds(vs: seq<string>, t: string)
    requires |vs| <= 1
    ensures SomeEnds(vs, t) <==> vs != [] && EndsWith(Lower(vs[0]), Lower(t))
  {
  }

  lemma EqualOn(r: Readers, s: Stored, key: string, t: string)
    requires Unparsed(r, t) && s.Wf(key)
    ensures G.Equal(r.gauss, key, G.Text(t)) == Done(G.EqualTo(key, G.Text(t))) && G.EqualTo(key, G.Text(t)).Wf()
    ensures G.EqualTo(key, G.Text(t)).On(r.show, RowOf(s)) == G.True <==> Finds(r, s, key, t)
  {
    var row, vs := RowOf(s), s.Values(key);
    if t == "" {
      if key !in s.lists { BlankEqual(vs); }
    } else {
      G.EqualTextOn(r.show, key, t, row);
      if key in s.lists {
        assert row(key) == Some(G.JArray(Jsons(vs)));
        JsonsHold(vs, Lower(t));
      } else {
        OneEqual(vs, t);
        LowerTwice(t);
      }
    }
  }

  lemma BlankEqual(vs: seq<string>)
    requires |vs| <= 1
    ensures E.SomeEqual(vs, "") <==> vs != [] && vs[0] == ""
  {
    OneEqual(vs, "");
    assert Lower("") == "";
  }

  lemma EqOn(r: Readers, s: Stored, key: string, t: string)
    requires G.ValidKey(key) && Unparsed(r, t) && s.Wf(key)
    ensures var f := Filter(key, Eq, G.Text(t));
            G.Translate(r.gauss, f).Done? && (G.Accepts(r.show, r.gauss, f, RowOf(s)) <==> Finds(r, s, key, t))
  {
    EqualOn(r, s, key, t);
  }

  lemma InOn(r: Readers, s: Stored, key: string, ts: seq<string>)
    requires G.ValidKey(key) && ts != [] && AllUnparsed(r, ts) && s.Wf(key)
    ensures var f := Filter(key, In, G.List(G.Texts(ts)));
            G.Translate(r.gauss, f).Done? && (G.Accepts(r.show, r.gauss, f, RowOf(s)) <==> FindsSome(r, s, key, ts))
  {
    var v := G.List(G.Texts(ts));
    forall i | 0 <= i < |ts|
      ensures var f := Filter(key, Eq, G.Texts(ts)[i]);
              G.Translate(r.gauss, f).Done? && (G.Accepts(r.show, r.gauss, f, RowOf(s)) <==> Finds(r, s, key, ts[i]))
    {
      EqOn(r, s, key, ts[i]);
    }
    G.InTranslatable(r.gauss, key, v);
    G.InIsSomeEqual(r.show, r.gauss, key, v, RowOf(s));
  }

  lemma ContainsOn(r: Readers, s: Stored, key: string, t: string)
    requires G.ValidKey(key) && t != "" && s.Wf(key)
    ensures var f := Filter(key, Contains, G.Text(t));
            G.Translate(r.gauss, f).Done? && (G.Accepts(r.show, r.gauss, f, RowOf(s)) <==> FindsPart(r, s, key, t))
  {
    G.TextTranslates(r.gauss, key, t);
    G.ContainsOn(r.show, key, t, RowOf(s));
    G.AcceptsIs(r.show, r.gauss, Filter(key, Contains, G.Text(t)), G.ContainsText(key, t), RowOf(s));
    ContainsMeansFound(r, s, key, t);
  }

  lemma ContainsMeansFound(r: Readers, s: Stored, key: string, t: string)
    requires s.Wf(key)
    ensures G.ContainsMeans(r.show, key, t, RowOf(s)) <==> FindsPart(r, s, key, t)
  {
    var vs := s.Values(key);
    if key in s.lists {
      JsonsHold(vs, Lower(t));
    } else {
      OneHas(vs, t);
      if vs != [] && vs[0] == Lower(t) { SelfOccurs(t); }
    }
  }

  lemma SelfOccurs(t: string)
    ensures OccursIn(Lower(t), Lower(Lower(t)))
  {
    LowerTwice(t);
    assert Lower(t) <= Lower(t)[0..];
  }

  /** The text of a stored value. */
  lemma StoredText(r: Readers, s: Stored, key: string)
    ensures G.TextOf(r.show, RowOf(s), key) ==
            if key in s.lists then Some(r.show(G.JArray(Jsons(s.Values(key)))))
            else if s.Values(key) == [] then None
            else Some(s.Values(key)[0])
  {
  }

  lemma StartsOn(r: Readers, s: Stored, key: string, t: string)
    requires G.ValidKey(key) && t != "" && s.Wf(key)
    ensures var f := Filter(key, StartWith, G.Text(t));
            G.Translate(r.gauss, f).Done? && (G.Accepts(r.show, r.gauss, f, RowOf(s)) <==> FindsStart(r, s, key, t))
  {
    G.TextTranslates(r.gauss, key, t);
    G.StartsWithOn(r.show, key, t, RowOf(s));
    G.AcceptsIs(r.show, r.gauss, Filter(key, StartWith, G.Text(t)), G.StartsWithText(key, t), RowOf(s));
    StoredText(r, s, key);
    if key !in s.lists { OneStarts(s.Values(key), t); }
  }

  lemma EndsOn(r: Readers, s: Stored, key: string, t: string)
    requires G.ValidKey(key) && t != "" && s.Wf(key)
    ensures var f := Filter(key, EndWith, G.Text(t));
            G.Translate(r.gauss, f).Done? && (G.Accepts(r.show, r.gauss, f, RowOf(s)) <==> FindsEnd(r, s, key, t))
  {
    G.TextTranslates(r.gauss, key, t);
    G.EndsWithOn(r.show, key, t, RowOf(s));
    G.AcceptsIs(r.show, r.gauss, Filter(key, EndWith, G.Text(t)), G.EndsWithText(key, t), RowOf(s));
    StoredText(r, s, key);
    if key !in s.lists { OneEnds(s.Values(key), t); }
  }

  /** The meaning of each positive operator on a stored document. */
  ghost predicate GaussFinds(r: Readers, s: Stored, f: Filter<M.Value>)
    requires InScope(r, f)
  {
    match Positive(f.op)
    case Eq => Finds(r, s, f.key, f.value.text)
    case In => FindsSome(r, s, f.key, f.value.texts)
    case Contains => FindsPart(r, s, f.key, f.value.text)
    case StartWith => FindsStart(r, s, f.key, f.value.text)
    case EndWith => FindsEnd(r, s, f.key, f.value.text)
    case Empty => if f.key in s.lists then s.Values(f.key) == [] else s.Values(f.key) == [] || s.Values(f.key)[0] == ""
    case _ => if f.key in s.lists then s.Values(f.key) != [] else s.Values(f.key) != [] && s.Values(f.key)[0] != ""
  }

  predicate Present(s: Stored, key: string) {
    key in s.lists || s.Values(key) != []
  }

  lemma EmptyOn(r: Readers, s: Stored, f: Filter<M.Value>)
    requires InScope(r, f) && (f.op == Empty || f.op == NotEmpty)
    ensures G.Translate(r.gauss, ToGauss(f)).Done?
    ensures G.Accepts(r.show, r.gauss, ToGauss(f), RowOf(s)) <==> GaussFinds(r, s, f)
  {
    G.EmptyPartitions(r.show, f.key, RowOf(s));
    var js := Jsons(s.Values(f.key));
    assert js == [] <==> s.Values(f.key) == [];
  }

  lemma PositiveOn(r: Readers, s: Stored, f: Filter<M.Value>)
    requires InScope(r, f) && s.Wf(f.key) && Positive(f.op) == f.op
    ensures G.Translate(r.gauss, ToGauss(f)).Done?
    ensures G.Accepts(r.show, r.gauss, ToGauss(f), RowOf(s)) <==> GaussFinds(r, s, f)
  {
    match f.op
    case Eq => EqOn(r, s, f.key, f.value.text);
    case In => InOn(r, s, f.key, f.value.texts);
    case Contains => ContainsOn(r, s, f.key, f.value.text);
    case StartWith => StartsOn(r, s, f.key, f.value.text);
    case EndWith => EndsOn(r, s, f.key, f.value.text);
    case Empty => EmptyOn(r, s, f);
    case NotEmpty => EmptyOn(r, s, f);
  }

  lemma NegativeOn(r: Readers, s: Stored, f: Filter<M.Value>)
    requires InScope(r, f) && s.Wf(f.key) && Positive(f.op) != f.op
    ensures G.Translate(r.gauss, ToGauss(f)).Done?
    ensures G.Accepts(r.show, r.gauss, ToGauss(f), RowOf(s)) <==> Present(s, f.key) && !GaussFinds(r, s, f)
  {
    var p := f.(op := Positive(f.op));
    PositiveOn(r, s, p);
    G.NegativeComplementsPositive(r.show, r.gauss, ToGauss(f), RowOf(s));
    assert ToGauss(p) == Filter(f.key, Positive(f.op), Value(f.value));
    assert GaussFinds(r, s, p) <==> GaussFinds(r, s, f);
  }

  // ---------------------------------------------------------------- what memory finds

  ghost predicate SomeAmong(vs: seq<string>, ts: seq<string>) {
    exists i | 0 <= i < |vs| :: Lower(vs[i]) in M.LowerAll(ts)
  }

  ghost predicate MemoryFinds(r: Readers, vs: seq<string>, f: Filter<M.Value>)
    requires InScope(r, f)
  {
    match f.op
    case Eq => E.SomeEqual(vs, f.value.text)
    case Ne => E.SomeDiffers(vs, f.value.text)
    case In => SomeAmong(vs, f.value.texts)
    case NotIn => E.SomeOutside(vs, f.value.texts)
    case Contains => E.SomeHas(vs, f.value.text)
    case NotContains => E.SomeLacks(vs, f.value.text)
    case StartWith => SomeStarts(vs, f.value.text)
    case EndWith => SomeEnds(vs, f.value.text)
    case Empty => E.SomeBlank(vs)
    case NotEmpty => E.SomeFilled(vs)
  }

  predicate ValueFound(r: Readers, x: string, f: Filter<M.Value>)
    requires f.value.Scalar?
  {
    var t := f.value.text;
    match f.op
    case Eq => Lower(x) == Lower(t)
    case Ne => Lower(x) != Lower(t)
    case Contains => OccursIn(Lower(t), Lower(x))
    case NotContains => !OccursIn(Lower(t), Lower(x))
    case StartWith => Lower(t) <= Lower(x)
    case EndWith => EndsWith(Lower(x), Lower(t))
    case _ => false
  }

  lemma MemoryValue(r: Readers, x: string, f: Filter<M.Value>)
    requires InScope(r, f) && f.value.Scalar? && f.op != In && f.op != NotIn && f.op != Empty && f.op != NotEmpty
    ensures M.Matches(r.memory, f.op, x, f.value) <==> ValueFound(r, x, f)
  {
    LowerTwice(f.value.text);
  }

  lemma MemoryOn(r: Readers, doc: M.Doc, f: Filter<M.Value>)
    requires InScope(r, f)
    ensures M.DocMatches(r.memory, doc, f) <==> MemoryFinds(r, M.Values(doc, f.key), f)
  {
    var vs := M.Values(doc, f.key);
    if f.op != In && f.op != NotIn && f.op != Empty && f.op != NotEmpty {
      forall i | 0 <= i < |vs| ensures M.Matches(r.memory, f.op, vs[i], f.value) <==> ValueFound(r, vs[i], f) {
        MemoryValue(r, vs[i], f);
      }
    }
  }

  // ---------------------------------------------------------------- when they agree

  ghost predicate SomeWritten(r: Readers, s: Stored, key: string, ts: seq<string>) {
    exists i | 0 <= i < |ts| :: ts[i] != "" && Written(r, s, key) == Lower(ts[i])
  }

  ghost predicate SomeLowerMember(vs: seq<string>, ts: seq<string>) {
    exists i | 0 <= i < |ts| :: ts[i] != "" && Lower(ts[i]) in vs
  }

  predicate TextOp(op: Op) {
    Positive(op) == Contains || op == StartWith || op == EndWith
  }

  /** The database writes lists of clean texts as JSON. */
  ghost predicate WritesLists(r: Readers) {
    forall vs | Clean(vs) :: r.show(G.JArray(Jsons(vs))) == WriteList(vs)
  }

  /** The operators that look at a list as it is written are judged on lists of clean texts. */
  predicate Legible(s: Stored, f: Filter<M.Value>) {
    f.key in s.lists && TextOp(f.op) ==> Clean(s.Values(f.key))
  }

  /** The stored lists on which the predicate keeps the meaning of the filter. `=` and `in` miss
      members that are not in lower case, and the negative operators judge the list as a whole.
      `contains` also finds brackets and separators, and texts with a quote across members;
      `start with` and `end with` find nothing but a bracket. `empty` and `not empty` look at the
      list, not at its members. */
  ghost predicate ListFits(r: Readers, s: Stored, f: Filter<M.Value>)
    requires InScope(r, f)
  {
    var vs := s.Values(f.key);
    match f.op
    case Eq =>
      var t := f.value.text;
      if t != "" && Written(r, s, f.key) == Lower(t) then E.SomeEqual(vs, t) else E.SomeEqual(vs, t) ==> t != "" && Lower(t) in vs
    case In =>
      var ts := f.value.texts;
      if SomeWritten(r, s, f.key, ts) then SomeAmong(vs, ts) else SomeAmong(vs, ts) ==> SomeLowerMember(vs, ts)
    case Ne =>
      var t := f.value.text;
      if t != "" && Written(r, s, f.key) == Lower(t) then !E.SomeDiffers(vs, t)
      else vs != [] && (E.SomeEqual(vs, t) ==> (t != "" && Lower(t) in vs <==> !E.SomeDiffers(vs, t)))
    case NotIn =>
      var ts := f.value.texts;
      if SomeWritten(r, s, f.key, ts) then !E.SomeOutside(vs, ts)
      else vs != [] && (SomeAmong(vs, ts) ==> (SomeLowerMember(vs, ts) <==> !E.SomeOutside(vs, ts)))
    case Contains =>
      var t := f.value.text;
      if QUOTE in t then !OccursIn(Lower(t), Lower(WriteList(vs))) else E.SomeHas(vs, t) || !Fragment(Lower(t), |vs|)
    case NotContains =>
      var t := f.value.text;
      if QUOTE in t then vs != [] && !OccursIn(Lower(t), Lower(WriteList(vs)))
      else if vs == [] then Fragment(Lower(t), 0)
      else !E.SomeLacks(vs, t) || !(E.SomeHas(vs, t) || Fragment(Lower(t), |vs|))
    case StartWith =>
      var t := f.value.text;
      if QUOTE in t then !(Lower(t) <= Lower(WriteList(vs)))
      else if t == "[" || (t == "[]" && vs == []) then SomeStarts(vs, t)
      else !SomeStarts(vs, t)
    case EndWith =>
      var t := f.value.text;
      if QUOTE in t then !EndsWith(Lower(WriteList(vs)), Lower(t))
      else if t == "]" || (t == "[]" && vs == []) then SomeEnds(vs, t)
      else !SomeEnds(vs, t)
    case Empty => vs != [] && !E.SomeBlank(vs)
    case NotEmpty => vs == [] || E.SomeFilled(vs)
  }

  ghost predicate Fits(r: Readers, s: Stored, f: Filter<M.Value>)
    requires InScope(r, f)
  {
    if f.key in s.lists then ListFits(r, s, f) else f.op == Empty ==> s.Values(f.key) != []
  }

  /** Equal members: what is stored in lower case is among what memory finds. */
  lemma LowerMemberIsEqual(vs: seq<string>, t: string)
    requires Lower(t) in vs
    ensures E.SomeEqual(vs, t)
  {
    var i :| 0 <= i < |vs| && vs[i] == Lower(t);
    LowerTwice(t);
    assert Lower(vs[i]) == Lower(t);
  }

  lemma LowerMemberIsAmong(vs: seq<string>, ts: seq<string>)
    requires SomeLowerMember(vs, ts)
    ensures SomeAmong(vs, ts)
  {
    var i :| 0 <= i < |ts| && ts[i] != "" && Lower(ts[i]) in vs;
    LowerMemberIsEqual(vs, ts[i]);
    var j :| 0 <= j < |vs| && Lower(vs[j]) == Lower(ts[i]);
    assert Lower(vs[j]) == M.LowerAll(ts)[i];
  }

  lemma FindsSomeInList(r: Readers, s: Stored, key: string, ts: seq<string>)
    requires key in s.lists
    ensures FindsSome(r, s, key, ts) <==> SomeWritten(r, s, key, ts) || SomeLowerMember(s.Values(key), ts)
  {
    if i :| 0 <= i < |ts| && Finds(r, s, key, ts[i]) {
      assert ts[i] != "" && (Lower(ts[i]) in s.Values(key) || Written(r, s, key) == Lower(ts[i]));
    }
    if i :| 0 <= i < |ts| && ts[i] != "" && (Lower(ts[i]) in s.Values(key) || Written(r, s, key) == Lower(ts[i])) {
      assert Finds(r, s, key, ts[i]);
    }
  }

  lemma PositiveListFits(r: Readers, s: Stored, f: Filter<M.Value>)
    requires InScope(r, f) && f.key in s.lists && (f.op == Eq || f.op == In)
    ensures (GaussFinds(r, s, f) <==> MemoryFinds(r, s.Values(f.key), f)) <==> ListFits(r, s, f)
  {
    var vs := s.Values(f.key);
    if f.op == Eq {
      if Lower(f.value.text) in vs { LowerMemberIsEqual(vs, f.value.text); }
    } else {
      FindsSomeInList(r, s, f.key, f.value.texts);
      if SomeLowerMember(vs, f.value.texts) { LowerMemberIsAmong(vs, f.value.texts); }
    }
  }

  lemma EachAmongOrOutside(vs: seq<string>, ts: seq<string>)
    requires vs != []
    ensures SomeAmong(vs, ts) || E.SomeOutside(vs, ts)
  {
    assert Lower(vs[0]) in M.LowerAll(ts) || Lower(vs[0]) !in M.LowerAll(ts);
  }

  lemma NegativeListFits(r: Readers, s: Stored, f: Filter<M.Value>)
    requires InScope(r, f) && f.key in s.lists && (f.op == Ne || f.op == NotIn)
    ensures (!GaussFinds(r, s, f) <==> MemoryFinds(r, s.Values(f.key), f)) <==> ListFits(r, s, f)
  {
    var vs := s.Values(f.key);
    if f.op == Ne {
      if vs != [] { E.EachEqualOrDiffers(vs, f.value.text); }
      if Lower(f.value.text) in vs { LowerMemberIsEqual(vs, f.value.text); }
    } else {
      if vs != [] { EachAmongOrOutside(vs, f.value.texts); }
      FindsSomeInList(r, s, f.key, f.value.texts);
      if SomeLowerMember(vs, f.value.texts) { LowerMemberIsAmong(vs, f.value.texts); }
    }
  }

  /** On a list stored in lower case `not equal` and `not in` go wrong exactly when it is empty or
      its members disagree among themselves. */
  lemma LowerCaseListFits(r: Readers, s: Stored, f: Filter<M.Value>)
    requires InScope(r, f) && f.key in s.lists && (f.op == Ne || f.op == NotIn)
    requires forall i | 0 <= i < |s.Values(f.key)| :: s.Values(f.key)[i] == Lower(s.Values(f.key)[i]) && s.Values(f.key)[i] != ""
    requires f.op == Ne ==> Written(r, s, f.key) != Lower(f.value.text)
    requires f.op == NotIn ==> !SomeWritten(r, s, f.key, f.value.texts)
    ensures var vs := s.Values(f.key);
            ListFits(r, s, f) <==>
            && vs != []
            && if f.op == Ne then !(E.SomeEqual(vs, f.value.text) && E.SomeDiffers(vs, f.value.text))
               else !(SomeAmong(vs, f.value.texts) && E.SomeOutside(vs, f.value.texts))
  {
    var vs := s.Values(f.key);
    if f.op == Ne {
      var t := f.value.text;
      if i :| 0 <= i < |vs| && Lower(vs[i]) == Lower(t) {
        assert vs[i] == Lower(t);
        assert Lower(t) in vs && t != "";
      }
    } else {
      var ts := f.value.texts;
      if i :| 0 <= i < |vs| && Lower(vs[i]) in M.LowerAll(ts) {
        var j :| 0 <= j < |ts| && M.LowerAll(ts)[j] == Lower(vs[i]);
        assert Lower(ts[j]) == vs[i];
        assert Lower(ts[j]) in vs && ts[j] != "";
      }
    }
  }

  // ---------------------------------------------------------------- lists as they are written

  lemma WrittenClean(r: Readers, s: Stored, key: string)
    requires WritesLists(r) && Clean(s.Values(key))
    ensures Written(r, s, key) == Lower(WriteList(s.Values(key))) == WriteList(LowerEach(s.Values(key)))
  {
    LowerList(s.Values(key));
  }

  lemma InSomeIsHas(vs: seq<string>, t: string)
    ensures InSome(Lower(t), LowerEach(vs)) <==> E.SomeHas(vs, t)
  {
    var ws := LowerEach(vs);
    if InSome(Lower(t), ws) {
      var i :| 0 <= i < |ws| && OccursIn(Lower(t), ws[i]);
      assert OccursIn(Lower(t), Lower(vs[i]));
    }
    if E.SomeHas(vs, t) {
      var i :| 0 <= i < |vs| && OccursIn(Lower(t), Lower(vs[i]));
      assert OccursIn(Lower(t), ws[i]);
    }
  }

  lemma MemberHas(vs: seq<string>, t: string)
    requires Lower(t) in vs
    ensures E.SomeHas(vs, t)
  {
    var i :| 0 <= i < |vs| && vs[i] == Lower(t);
    SelfOccurs(t);
    assert OccursIn(Lower(t), Lower(vs[i]));
  }

  /** In a list of clean texts `contains` finds what its members contain, and also brackets and
      separators; with a quote in the text it looks across members only. */
  lemma PartInList(r: Readers, s: Stored, key: string, t: string)
    requires WritesLists(r) && key in s.lists && Clean(s.Values(key))
    ensures QUOTE !in t ==> (FindsPart(r, s, key, t) <==> E.SomeHas(s.Values(key), t) || Fragment(Lower(t), |s.Values(key)|))
    ensures QUOTE in t ==> !E.SomeHas(s.Values(key), t) && (FindsPart(r, s, key, t) <==> OccursIn(Lower(t), Lower(WriteList(s.Values(key)))))
  {
    var vs := s.Values(key);
    WrittenClean(r, s, key);
    if Lower(t) in vs { MemberHas(vs, t); }
    if QUOTE in t {
      forall i | 0 <= i < |vs| ensures !OccursIn(Lower(t), Lower(vs[i])) { NotInClean(t, vs[i]); }
    } else {
      LowerQuote(t);
      OccursInList(Lower(t), LowerEach(vs));
      InSomeIsHas(vs, t);
    }
  }

  lemma ContainsListFits(r: Readers, s: Stored, f: Filter<M.Value>)
    requires InScope(r, f) && WritesLists(r) && f.key in s.lists && Legible(s, f) && Positive(f.op) == Contains
    ensures var finds := GaussFinds(r, s, f);
            ((if f.op == Contains then finds else !finds) <==> MemoryFinds(r, s.Values(f.key), f)) <==> ListFits(r, s, f)
  {
    var vs, t := s.Values(f.key), f.value.text;
    PartInList(r, s, f.key, t);
    if vs == [] && QUOTE in t { NoQuoteInEmpty(t); }
    if vs != [] { assert OccursIn(Lower(t), Lower(vs[0])) || !OccursIn(Lower(t), Lower(vs[0])); }
  }

  lemma NoQuoteInEmpty(t: string)
    requires QUOTE in t
    ensures !OccursIn(Lower(t), Lower(WriteList([])))
  {
    assert forall k | 0 <= k < |"[]"| :: CleanChar("[]"[k]);
    NotInClean(t, "[]");
    assert WriteList([]) == "[]";
  }

  lemma StartInClean(t: string, v: string)
    requires QUOTE in t && forall k | 0 <= k < |v| :: CleanChar(v[k])
    ensures !(Lower(t) <= Lower(v)) && !EndsWith(Lower(v), Lower(t))
  {
    NotInClean(t, v);
    assert Lower(v)[0..] == Lower(v);
  }

  lemma LowerBracket(t: string)
    ensures (Lower(t) == "[" <==> t == "[") && (Lower(t) == "]" <==> t == "]") && (Lower(t) == "[]" <==> t == "[]")
  {
    assert |Lower(t)| == |t|;
    assert forall c :: (LowerChar(c) == '[' <==> c == '[') && (LowerChar(c) == ']' <==> c == ']');
  }

  /** In a list of clean texts `start with` finds nothing but the opening bracket, unless the text
      has a quote. */
  lemma StartInList(r: Readers, s: Stored, key: string, t: string)
    requires WritesLists(r) && key in s.lists && Clean(s.Values(key)) && t != ""
    ensures QUOTE !in t ==> (FindsStart(r, s, key, t) <==> t == "[" || (t == "[]" && s.Values(key) == []))
    ensures QUOTE in t ==> !SomeStarts(s.Values(key), t) && (FindsStart(r, s, key, t) <==> Lower(t) <= Lower(WriteList(s.Values(key))))
  {
    var vs := s.Values(key);
    WrittenClean(r, s, key);
    if QUOTE in t {
      forall i | 0 <= i < |vs| ensures !(Lower(t) <= Lower(vs[i])) { StartInClean(t, vs[i]); }
    } else {
      LowerQuote(t);
      LowerBracket(t);
      StartsList(Lower(t), LowerEach(vs));
      assert LowerEach(vs) == [] <==> vs == [];
    }
  }

  lemma EndInList(r: Readers, s: Stored, key: string, t: string)
    requires WritesLists(r) && key in s.lists && Clean(s.Values(key)) && t != ""
    ensures QUOTE !in t ==> (FindsEnd(r, s, key, t) <==> t == "]" || (t == "[]" && s.Values(key) == []))
    ensures QUOTE in t ==> !SomeEnds(s.Values(key), t) && (FindsEnd(r, s, key, t) <==> EndsWith(Lower(WriteList(s.Values(key))), Lower(t)))
  {
    var vs := s.Values(key);
    WrittenClean(r, s, key);
    if QUOTE in t {
      forall i | 0 <= i < |vs| ensures !EndsWith(Lower(vs[i]), Lower(t)) { StartInClean(t, vs[i]); }
    } else {
      LowerQuote(t);
      LowerBracket(t);
      StartsList(Lower(t), LowerEach(vs));
      assert LowerEach(vs) == [] <==> vs == [];
    }
  }

  lemma EndsListFits(r: Readers, s: Stored, f: Filter<M.Value>)
    requires InScope(r, f) && WritesLists(r) && f.key in s.lists && Legible(s, f) && (f.op == StartWith || f.op == EndWith)
    ensures (GaussFinds(r, s, f) <==> MemoryFinds(r, s.Values(f.key), f)) <==> ListFits(r, s, f)
  {
    if f.op == StartWith { StartInList(r, s, f.key, f.value.text); } else { EndInList(r, s, f.key, f.value.text); }
  }

  lemma EmptyListFits(r: Readers, s: Stored, f: Filter<M.Value>)
    requires InScope(r, f) && f.key in s.lists && (f.op == Empty || f.op == NotEmpty)
    ensures (GaussFinds(r, s, f) <==> MemoryFinds(r, s.Values(f.key), f)) <==> ListFits(r, s, f)
  {
  }

  /** On a single text, or none, nothing but `empty` on a missing key differs. */
  lemma ScalarPositiveFits(r: Readers, s: Stored, f: Filter<M.Value>)
    requires InScope(r, f) && f.key !in s.lists && s.Wf(f.key) && Positive(f.op) == f.op
    ensures (GaussFinds(r, s, f) <==> MemoryFinds(r, s.Values(f.key), f)) <==> Fits(r, s, f)
  {
    if f.op == In { ScalarAmong(r, s, f.key, f.value.texts); }
  }

  lemma ScalarNegativeFits(r: Readers, s: Stored, f: Filter<M.Value>)
    requires InScope(r, f) && f.key !in s.lists && s.Wf(f.key) && Positive(f.op) != f.op
    ensures Present(s, f.key) && !GaussFinds(r, s, f) <==> MemoryFinds(r, s.Values(f.key), f)
  {
    var vs := s.Values(f.key);
    match f.op
    case Ne => OneEqual(vs, f.value.text);
    case NotContains => OneHas(vs, f.value.text);
    case NotIn => ScalarAmong(r, s, f.key, f.value.texts);
  }

  lemma OneAmong(vs: seq<string>, ts: seq<string>)
    requires |vs| <= 1
    ensures SomeAmong(vs, ts) <==> vs != [] && Lower(vs[0]) in M.LowerAll(ts)
    ensures E.SomeOutside(vs, ts) <==> vs != [] && Lower(vs[0]) !in M.LowerAll(ts)
  {
    if vs != [] { assert Lower(vs[0]) in M.LowerAll(ts) || Lower(vs[0]) !in M.LowerAll(ts); }
  }

  lemma ScalarAmong(r: Readers, s: Stored, key: string, ts: seq<string>)
    requires key !in s.lists && s.Wf(key)
    ensures FindsSome(r, s, key, ts) <==> SomeAmong(s.Values(key), ts)
    ensures E.SomeOutside(s.Values(key), ts) <==> s.Values(key) != [] && !SomeAmong(s.Values(key), ts)
  {
    var vs := s.Values(key);
    OneAmong(vs, ts);
    forall i | 0 <= i < |ts|
      ensures Finds(r, s, key, ts[i]) <==> vs != [] && Lower(vs[0]) == M.LowerAll(ts)[i]
    {
      OneEqual(vs, ts[i]);
    }
  }

  /** The predicate of a filter in scope and the in-memory filter agree on a document exactly
      when what the document stores fits. */
  lemma FilterAgreesIff(r: Readers, s: Stored, f: Filter<M.Value>)
    requires InScope(r, f) && s.Wf(f.key) && WritesLists(r) && Legible(s, f)
    ensures G.Translate(r.gauss, ToGauss(f)).Done?
    ensures (G.Accepts(r.show, r.gauss, ToGauss(f), RowOf(s)) <==> M.DocMatches(r.memory, s.doc, f)) <==> Fits(r, s, f)
  {
    MemoryOn(r, s.doc, f);
    if Positive(f.op) == f.op { PositiveOn(r, s, f); } else { NegativeOn(r, s, f); }
    if f.key !in s.lists {
      if Positive(f.op) == f.op { ScalarPositiveFits(r, s, f); } else { ScalarNegativeFits(r, s, f); }
    } else {
      match f.op
      case Eq => PositiveListFits(r, s, f);
      case In => PositiveListFits(r, s, f);
      case Ne => NegativeListFits(r, s, f);
      case NotIn => NegativeListFits(r, s, f);
      case Contains => ContainsListFits(r, s, f);
      case NotContains => ContainsListFits(r, s, f);
      case StartWith => EndsListFits(r, s, f);
      case EndWith => EndsListFits(r, s, f);
      case Empty => EmptyListFits(r, s, f);
      case NotEmpty => EmptyListFits(r, s, f);
    }
  }

  // ---------------------------------------------------------------- whole filters

  function AllToGauss(fs: seq<Filter<M.Value>>): (r: seq<Filter<G.Value>>)
    ensures |r| == |fs| && forall i | 0 <= i < |fs| :: r[i] == ToGauss(fs[i])
  {
    seq(|fs|, i requires 0 <= i < |fs| => ToGauss(fs[i]))
  }

  /** For every non-empty and/or list of filters the one SQL predicate, with its one parameter
      list, accepts a fitting document's row exactly when the in-memory filter selects it. */
  lemma PlanAgrees(r: Readers, s: Stored, fs: seq<Filter<M.Value>>, logic: Logic)
    requires fs != [] && WritesLists(r)
    requires forall i | 0 <= i < |fs| :: InScope(r, fs[i]) && s.Wf(fs[i].key) && Legible(s, fs[i]) && Fits(r, s, fs[i])
    ensures forall i | 0 <= i < |fs| :: G.Translate(r.gauss, AllToGauss(fs)[i]).Done?
    ensures G.AcceptsAll(r.show, r.gauss, AllToGauss(fs), logic, RowOf(s)) <==> M.DocSelected(r.memory, s.doc, fs, logic)
  {
    forall i | 0 <= i < |fs|
      ensures G.Translate(r.gauss, AllToGauss(fs)[i]).Done?
      ensures G.Accepts(r.show, r.gauss, AllToGauss(fs)[i], RowOf(s)) <==> M.DocMatches(r.memory, s.doc, fs[i])
    {
      FilterAgreesIff(r, s, fs[i]);
    }
  }

  // ---------------------------------------------------------------- documents that differ

  /** `=` ignores case in memory and not among the members of a list. */
  lemma ListsNeedLowerCase(r: Readers)
    requires PlainText(r, "A") && Lower(r.show(G.JArray(Jsons(["A"])))) != "a"
    ensures var s := Stored(M.Doc("1", "kb", map["tag" := ["A"]]), {"tag"});
            var f := Filter("tag", Eq, M.Scalar("A"));
            M.DocMatches(r.memory, s.doc, f) && !G.Accepts(r.show, r.gauss, ToGauss(f), RowOf(s))
  {
    var s := Stored(M.Doc("1", "kb", map["tag" := ["A"]]), {"tag"});
    var f := Filter("tag", Eq, M.Scalar("A"));
    assert s.Values("tag") == ["A"] && ["A"][0] == "A" && Lower("A") == "a" && "a"[0] != "A"[0];
    assert E.SomeEqual(s.Values("tag"), "A");
    MemoryOn(r, s.doc, f);
    PositiveOn(r, s, f);
  }

  /** `not equal` judges each value in memory and the whole list in the database, and nothing
      refuses it beforehand. */
  lemma NotEqualDiffersOnLists(r: Readers)
    requires PlainText(r, "a")
    ensures var s := Stored(M.Doc("1", "kb", map["tag" := ["a", "b"]]), {"tag"});
            var f := Filter("tag", Ne, M.Scalar("a"));
            && G.Translate(r.gauss, ToGauss(f)).Done?
            && M.DocMatches(r.memory, s.doc, f) && !G.Accepts(r.show, r.gauss, ToGauss(f), RowOf(s))
  {
    var s := Stored(M.Doc("1", "kb", map["tag" := ["a", "b"]]), {"tag"});
    var f := Filter("tag", Ne, M.Scalar("a"));
    var vs := s.Values("tag");
    assert vs[0] == "a" && vs[1] == "b" && Lower("a") == "a" && Lower("b") == "b" && "a"[0] != "b"[0];
    assert E.SomeDiffers(vs, "a");
    MemoryOn(r, s.doc, f);
    NegativeOn(r, s, f);
  }

  /** `start with` never finds a member of a list. */
  lemma StartWithDiffersOnLists(r: Readers)
    requires WritesLists(r)
    ensures var s := Stored(M.Doc("1", "kb", map["tag" := ["abc"]]), {"tag"});
            var f := Filter("tag", StartWith, M.Scalar("a"));
            M.DocMatches(r.memory, s.doc, f) && !G.Accepts(r.show, r.gauss, ToGauss(f), RowOf(s))
  {
    var s := Stored(M.Doc("1", "kb", map["tag" := ["abc"]]), {"tag"});
    var f := Filter("tag", StartWith, M.Scalar("a"));
    assert s.Values("tag")[0] == "abc" && Lower("a") == "a" && Lower("abc") == "abc";
    assert SomeStarts(s.Values("tag"), "a");
    FilterAgreesIff(r, s, f);
    MemoryOn(r, s.doc, f);
  }

  /** `contains` finds the separator between two members. */
  lemma ContainsDiffersOnLists(r: Readers)
    requires WritesLists(r)
    ensures var s := Stored(M.Doc("1", "kb", map["tag" := ["a", "b"]]), {"tag"});
            var f := Filter("tag", Contains, M.Scalar(","));
            !M.DocMatches(r.memory, s.doc, f) && G.Accepts(r.show, r.gauss, ToGauss(f), RowOf(s))
  {
    var s := Stored(M.Doc("1", "kb", map["tag" := ["a", "b"]]), {"tag"});
    var f := Filter("tag", Contains, M.Scalar(","));
    var vs := s.Values("tag");
    assert vs == ["a", "b"];
    assert Fragment(Lower(","), |vs|) by { assert Lower(",") == "," <= ", "[0..]; }
    assert !E.SomeHas(vs, ",") by {
      OtherChar(',', 'a');
      OtherChar(',', 'b');
    }
    PartInList(r, s, "tag", ",");
    MemoryOn(r, s.doc, f);
    PositiveOn(r, s, f);
  }

  lemma OtherChar(c: char, d: char)
    requires LowerChar(c) != LowerChar(d)
    ensures !OccursIn(Lower([c]), Lower([d]))
  {
    assert Lower([c])[0] == LowerChar(c) && Lower([d])[0] == LowerChar(d);
  }

  /** `empty` accepts a document without the key, which memory does not select. */
  lemma EmptyDiffersWithoutKey(r: Readers)
    ensures var s := Stored(M.Doc("1", "kb", map[]), {});
            var f := Filter("tag", Empty, M.Null);
            G.Accepts(r.show, r.gauss, ToGauss(f), RowOf(s)) && !M.DocMatches(r.memory, s.doc, f)
  {
    var s := Stored(M.Doc("1", "kb", map[]), {});
    var f := Filter("tag", Empty, M.Null);
    assert s.Values("tag") == [];
    MemoryOn(r, s.doc, f);
    PositiveOn(r, s, f);
  }
}
