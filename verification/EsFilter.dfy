/** Metadata filters as Elasticsearch queries (common/metadata_es_filter.py), an evaluator for
    the bool DSL they use, and what the translation preserves of `meta_filter`. */
module EsFilter {
  import opened Text
  import opened Wrappers
  import opened FilterSyntax
  import opened Patterns
  import opened MetaFilter

  // ---------------------------------------------------------------- the bool DSL

  /** `meta_fields.<key>`, its exact-text sub-field, or the knowledge-base id. */
  datatype Field = Parent(key: string) | Keyword(key: string) | KbId

  /** `oneShould` stands for `minimum_should_match: 1`; without it `should` is not used. */
  datatype Query =
    | Term(field: Field, value: string, foldCase: bool)
    | NumberTerm(field: Field, number: real)
    | Terms(field: Field, values: seq<string>)
    | Prefix(field: Field, text: string)
    | Wildcard(field: Field, pattern: string)
    | Exists(field: Field)
    | Bool(must: seq<Query>, should: seq<Query>, mustNot: seq<Query>, filter: seq<Query>, oneShould: bool)

  /** The texts a document has in a field; only text fields are modelled. */
  function Stored(doc: Doc, field: Field): seq<string> {
    match field
    case Parent(k) => Values(doc, k)
    case Keyword(k) => Values(doc, k)
    case KbId => [doc.kb]
  }

  /** A clause over a field, on one of the texts stored there. */
  predicate ValueHolds(q: Query, x: string) {
    match q
    case Term(_, v, fold) => if fold then Lower(x) == Lower(v) else x == v
    case Terms(_, vs) => x in vs
    case Prefix(_, t) => Lower(t) <= Lower(x)
    case Wildcard(_, p) => Glob(WILDCARD, Lower(p), Lower(x))
    case _ => false
  }

  predicate Holds(q: Query, doc: Doc)
    decreases q
  {
    match q
    case Exists(f) => Stored(doc, f) != []
    case Bool(must, should, mustNot, filter, one) =>
      && (forall c | c in must :: Holds(c, doc))
      && (forall c | c in filter :: Holds(c, doc))
      && (forall c | c in mustNot :: !Holds(c, doc))
      && (one ==> exists c | c in should :: Holds(c, doc))
    case _ => exists i | 0 <= i < |Stored(doc, q.field)| :: ValueHolds(q, Stored(doc, q.field)[i])
  }

  function AllOf(qs: seq<Query>): Query {
    Bool(qs, [], [], [], false)
  }

  function AnyOf(qs: seq<Query>): Query {
    Bool([], qs, [], [], true)
  }

  lemma AnyOfHolds(qs: seq<Query>, doc: Doc)
    ensures Holds(AnyOf(qs), doc) <==> exists i | 0 <= i < |qs| :: Holds(qs[i], doc)
  {
    assert forall c | c in qs :: exists i | 0 <= i < |qs| :: qs[i] == c;
  }

  lemma AllOfHolds(qs: seq<Query>, doc: Doc)
    ensures Holds(AllOf(qs), doc) <==> forall i | 0 <= i < |qs| :: Holds(qs[i], doc)
  {
    assert forall c | c in qs :: exists i | 0 <= i < |qs| :: qs[i] == c;
  }

  // ---------------------------------------------------------------- translation

  datatype Translated = Translated(must: seq<Query>, mustNot: seq<Query>)

  /** What a scalar comparison looks for. */
  datatype Sought = Exactly(text: string) | Numeric(n: real)

  /** `_coerce_scalar`, up to the date pattern. */
  function CoerceScalar(env: Env, v: Value): Result<Sought> {
    if !v.Scalar? then Failed
    else
      var s := Strip(v.text);
      if IsDate(s) then Done(Exactly(s))
      else match env.parse(s)
        case Some(Quoted(t)) => Done(Exactly(Lower(t)))
        case Some(Number(n)) => Done(Numeric(n))
        case _ => Done(Exactly(Lower(s)))
  }

  function CoerceString(v: Value): Result<string> {
    if v.Scalar? && v.text != "" then Done(v.text) else Failed
  }

  function Members(env: Env, v: Value): Result<seq<string>> {
    match v
    case Null => Failed
    case Items(ts) => if ts == [] then Failed else Done(StripLower(ts))
    case Scalar(t) =>
      var parts := match env.parse(t) case Some(Listed(items)) => items case _ => SplitCommas(t, "");
      if parts == [] then Failed else Done(StripLower(parts))
  }

  function StripLower(xs: seq<string>): (r: seq<string>)
    ensures |r| == |xs| && forall i | 0 <= i < |xs| :: r[i] == Strip(Lower(xs[i]))
  {
    seq(|xs|, i requires 0 <= i < |xs| => Strip(Lower(xs[i])))
  }

  function TermOrMatch(key: string, l: Sought): Query {
    match l
    case Numeric(n) => NumberTerm(Parent(key), n)
    case Exactly(s) => Term(Keyword(key), s, true)
  }

  function TermsOf(key: string, members: seq<string>): (r: seq<Query>)
    ensures |r| == |members| && forall i | 0 <= i < |members| :: r[i] == Term(Keyword(key), members[i], true)
  {
    seq(|members|, i requires 0 <= i < |members| => Term(Keyword(key), members[i], true))
  }

  function EscapeWildcard(t: string): string {
    EscapeByReplacing(WILDCARD, t)
  }

  function Blank(key: string): Query {
    Term(Keyword(key), "", false)
  }

  /** `MetaFilterTranslator.translate`. */
  function Translate(env: Env, f: Filter<Value>): Result<Translated> {
    if f.key == "" then Failed
    else
      var k := f.key;
      match f.op
      case Empty => Done(Translated([AnyOf([Bool([], [], [Exists(Parent(k))], [], false), Blank(k)])], []))
      case NotEmpty => Done(Translated([Exists(Parent(k))], [Blank(k)]))
      case Eq => var l :- CoerceScalar(env, f.value); Done(Translated([TermOrMatch(k, l)], []))
      case Ne => var l :- CoerceScalar(env, f.value); Done(Translated([Exists(Parent(k))], [TermOrMatch(k, l)]))
      case In => var ms :- Members(env, f.value); Done(Translated([AnyOf(TermsOf(k, ms))], []))
      case NotIn => var ms :- Members(env, f.value); Done(Translated([Exists(Parent(k))], [AnyOf(TermsOf(k, ms))]))
      case Contains => var t :- CoerceString(f.value); Done(Translated([Wildcard(Keyword(k), "*" + EscapeWildcard(t) + "*")], []))
      case NotContains =>
        var t :- CoerceString(f.value);
        Done(Translated([Exists(Parent(k))], [Wildcard(Keyword(k), "*" + EscapeWildcard(t) + "*")]))
      case StartWith => var t :- CoerceString(f.value); Done(Translated([Prefix(Keyword(k), t)], []))
      case EndWith => var t :- CoerceString(f.value); Done(Translated([Wildcard(Keyword(k), "*" + EscapeWildcard(t))], []))
  }

  /** `TranslatedFilter.to_clauses`: one atomic clause, so that a disjunction of filters can
      not be satisfied by half of one. */
  function ToClauses(t: Translated): seq<Query> {
    if t.must == [] && t.mustNot == [] then []
    else if t.mustNot == [] then (if |t.must| == 1 then t.must else [AllOf(t.must)])
    else [Bool(t.must, [], t.mustNot, [], false)]
  }

  ghost predicate Meaning(t: Translated, doc: Doc) {
    && (forall i | 0 <= i < |t.must| :: Holds(t.must[i], doc))
    && (forall i | 0 <= i < |t.mustNot| :: !Holds(t.mustNot[i], doc))
  }

  /** Whatever a translated filter consists of, it becomes one clause with its meaning. */
  lemma ClausesAreAtomic(t: Translated, doc: Doc)
    requires t.must != [] || t.mustNot != []
    ensures |ToClauses(t)| == 1 && (Holds(ToClauses(t)[0], doc) <==> Meaning(t, doc))
  {
    assert forall c | c in t.must :: exists i | 0 <= i < |t.must| :: t.must[i] == c;
    assert forall c | c in t.mustNot :: exists i | 0 <= i < |t.mustNot| :: t.mustNot[i] == c;
    if t.mustNot == [] && |t.must| != 1 {
      AllOfHolds(t.must, doc);
    }
  }

  function Flatten(parts: seq<Translated>): seq<Query> {
    if parts == [] then [] else Flatten(parts[..|parts| - 1]) + ToClauses(parts[|parts| - 1])
  }

  /** `MetaFilterPushdownPlan.to_query`. */
  function ToQuery(logic: Logic, parts: seq<Translated>, kbs: seq<string>): Query {
    var scope := Terms(KbId, kbs);
    if parts == [] then Bool([], [], [], [scope], false)
    else
      var inner := if logic == Or then AnyOf(Flatten(parts)) else AllOf(Flatten(parts));
      Bool([], [], [], [scope, inner], false)
  }

  /** `plan_pushdown`: every filter in turn, or nothing at all. */
  method Plan(env: Env, filters: seq<Filter<Value>>) returns (r: Result<seq<Translated>>)
    ensures r.Done? <==> forall i | 0 <= i < |filters| :: Translate(env, filters[i]).Done?
    ensures r.Done? ==> |r.value| == |filters| && forall i | 0 <= i < |filters| :: Translate(env, filters[i]) == Done(r.value[i])
  {
    var parts: seq<Translated> := [];
    for n := 0 to |filters|
      invariant |parts| == n && forall i | 0 <= i < n :: Translate(env, filters[i]) == Done(parts[i])
    {
      var t := Translate(env, filters[n]);
      if t.Failed? {
        return Failed;
      }
      parts := parts + [t.value];
    }
    return Done(parts);
  }

  /** `is_pushdown_supported`: the operators that go wrong on lists are refused up front. */
  predicate Supported(filters: seq<Filter<Value>>) {
    forall i | 0 <= i < |filters| :: filters[i].op != Ne && filters[i].op != NotIn && filters[i].key != ""
  }

  // ---------------------------------------------------------------- meaning is preserved

  /** No Python literal and no date, with or without the space around it. */
  predicate PlainText(env: Env, t: string) {
    !IsDate(Strip(t)) && env.parse(t).None? && env.parse(Strip(t)).None?
  }

  /** The filters whose translation has a meaning on text fields, whatever the index mapping. */
  predicate InScope(env: Env, f: Filter<Value>) {
    && f.key != ""
    && match f.op
       case Eq => f.value.Scalar? && PlainText(env, f.value.text)
       case Ne => f.value.Scalar? && PlainText(env, f.value.text)
       case In => f.value.Items? && f.value.texts != []
       case NotIn => f.value.Items? && f.value.texts != []
       case Empty => true
       case NotEmpty => true
       case _ => f.value.Scalar? && f.value.text != ""
  }

  ghost predicate SomeEqual(vs: seq<string>, t: string) {
    exists i | 0 <= i < |vs| :: Lower(vs[i]) == Lower(t)
  }

  ghost predicate SomePair(vs: seq<string>, ms: seq<string>) {
    exists i, j | 0 <= i < |ms| && 0 <= j < |vs| :: Lower(vs[j]) == Lower(ms[i])
  }

  ghost predicate SomeDiffers(vs: seq<string>, t: string) {
    exists i | 0 <= i < |vs| :: Lower(vs[i]) != Lower(t)
  }

  ghost predicate SomeOutside(vs: seq<string>, ts: seq<string>) {
    exists i | 0 <= i < |vs| :: Lower(vs[i]) !in LowerAll(ts)
  }

  ghost predicate SomeHas(vs: seq<string>, t: string) {
    exists i | 0 <= i < |vs| :: OccursIn(Lower(t), Lower(vs[i]))
  }

  ghost predicate SomeLacks(vs: seq<string>, t: string) {
    exists i | 0 <= i < |vs| :: !OccursIn(Lower(t), Lower(vs[i]))
  }

  ghost predicate SomeBlank(vs: seq<string>) {
    exists i | 0 <= i < |vs| :: vs[i] == ""
  }

  ghost predicate SomeFilled(vs: seq<string>) {
    exists i | 0 <= i < |vs| :: vs[i] != ""
  }

  predicate AllTrimmed(ts: seq<string>) {
    forall i | 0 <= i < |ts| :: Trimmed(ts[i])
  }

  /** The stored values on which a translated filter keeps its meaning. `=` and `in` trim what
      they look for, the negative operators judge all values of a field together, and `empty`
      also takes documents without the field. */
  ghost predicate Fits(f: Filter<Value>, doc: Doc) {
    var vs := Values(doc, f.key);
    match f.op
    case Eq => f.value.Scalar? ==> Trimmed(f.value.text) || (SomeEqual(vs, Strip(f.value.text)) <==> SomeEqual(vs, f.value.text))
    case In => f.value.Items? ==> AllTrimmed(f.value.texts) || (SomePair(vs, StripLower(f.value.texts)) <==> SomePair(vs, LowerAll(f.value.texts)))
    case Ne =>
      f.value.Scalar? ==>
        var t := f.value.text;
        if Trimmed(t) then !(SomeEqual(vs, t) && SomeDiffers(vs, t)) else vs == [] || (!SomeEqual(vs, Strip(t)) && SomeDiffers(vs, t))
    case NotIn =>
      f.value.Items? ==>
        var ts := f.value.texts;
        if AllTrimmed(ts) then !(SomePair(vs, LowerAll(ts)) && SomeOutside(vs, ts))
        else if SomePair(vs, StripLower(ts)) then !SomeOutside(vs, ts)
        else vs == [] || SomeOutside(vs, ts)
    case NotContains => f.value.Scalar? ==> !(SomeHas(vs, f.value.text) && SomeLacks(vs, f.value.text))
    case NotEmpty => !(SomeBlank(vs) && SomeFilled(vs))
    case Empty => vs != []
    case _ => true
  }

  lemma TrimmedList(ts: seq<string>)
    requires AllTrimmed(ts)
    ensures StripLower(ts) == LowerAll(ts)
  {
    forall i | 0 <= i < |ts| ensures Strip(Lower(ts[i])) == Lower(ts[i]) { TrimmedStrip(ts[i]); }
  }

  /** What the fields of a document must be like for trimmed texts: nothing for the positive
      operators, at most one value for the negative ones. */
  predicate Simple(f: Filter<Value>, doc: Doc) {
    match f.op
    case Eq => f.value.Scalar? ==> Trimmed(f.value.text)
    case In => f.value.Items? ==> AllTrimmed(f.value.texts)
    case Ne => f.value.Scalar? ==> Trimmed(f.value.text) && |Values(doc, f.key)| <= 1
    case NotIn => f.value.Items? ==> AllTrimmed(f.value.texts) && |Values(doc, f.key)| <= 1
    case NotContains => |Values(doc, f.key)| <= 1
    case NotEmpty => |Values(doc, f.key)| <= 1
    case Empty => Values(doc, f.key) != []
    case _ => true
  }

  lemma SimpleFits(f: Filter<Value>, doc: Doc)
    requires Simple(f, doc)
    ensures Fits(f, doc)
  {
    var vs := Values(doc, f.key);
    if f.op == NotIn && f.value.Items? && |vs| == 1 {
      var ts := f.value.texts;
      forall i | 0 <= i < |ts| ensures Lower(LowerAll(ts)[i]) == LowerAll(ts)[i] { LowerTwice(ts[i]); }
    }
  }

  lemma WildcardEscape(t: string)
    ensures Lower(EscapeWildcard(t)) == Escape(WILDCARD, Lower(t))
  {
    EscapesAgree(WILDCARD, t);
    LowerEscape(WILDCARD, t);
  }

  lemma WildcardContains(t: string, x: string)
    ensures Glob(WILDCARD, Lower("*" + EscapeWildcard(t) + "*"), Lower(x)) <==> OccursIn(Lower(t), Lower(x))
  {
    WildcardEscape(t);
    LowerConcat("*", EscapeWildcard(t));
    LowerConcat("*" + EscapeWildcard(t), "*");
    assert Lower("*") == "*" == [WILDCARD.any];
    InfixPattern(WILDCARD, Lower(t), Lower(x));
  }

  lemma WildcardEndsWith(t: string, x: string)
    ensures Glob(WILDCARD, Lower("*" + EscapeWildcard(t)), Lower(x)) <==> EndsWith(Lower(x), Lower(t))
  {
    WildcardEscape(t);
    LowerConcat("*", EscapeWildcard(t));
    assert Lower("*") == "*" == [WILDCARD.any];
    SuffixPattern(WILDCARD, Lower(t), Lower(x));
  }

  lemma TrimmedStrip(t: string)
    requires Trimmed(t)
    ensures Strip(t) == t && Trimmed(Lower(t)) && Strip(Lower(t)) == Lower(t)
  {
    assert forall c :: Space(LowerChar(c)) <==> Space(c);
  }

  lemma HoldsByValue(q: Query, doc: Doc)
    requires (q.Term? || q.Prefix? || q.Wildcard?) && q.field.Keyword?
    ensures Holds(q, doc) <==> exists i | 0 <= i < |Values(doc, q.field.key)| :: ValueHolds(q, Values(doc, q.field.key)[i])
  {
    assert Stored(doc, q.field) == Values(doc, q.field.key);
  }

  lemma MeaningOfOne(a: Query, doc: Doc)
    ensures Meaning(Translated([a], []), doc) <==> Holds(a, doc)
  {
    assert [a][0] == a;
  }

  lemma MeaningOfTwo(a: Query, b: Query, doc: Doc)
    ensures Meaning(Translated([a], [b]), doc) <==> Holds(a, doc) && !Holds(b, doc)
  {
    assert [a][0] == a && [b][0] == b;
  }

  lemma EqMeaning(env: Env, key: string, t: string, doc: Doc)
    requires key != "" && PlainText(env, t)
    ensures var f := Filter(key, Eq, Scalar(t));
            && Translate(env, f) == Done(Translated([Term(Keyword(key), Lower(Strip(t)), true)], []))
            && (Meaning(Translate(env, f).value, doc) <==> SomeEqual(Values(doc, key), Strip(t)))
            && (DocMatches(env, doc, f) <==> SomeEqual(Values(doc, key), t))
  {
    var f := Filter(key, Eq, Scalar(t));
    var vs := Values(doc, key);
    var q := Term(Keyword(key), Lower(Strip(t)), true);
    LowerTwice(Strip(t));
    HoldsByValue(q, doc);
    MeaningOfOne(q, doc);
    assert forall i | 0 <= i < |vs| :: ValueHolds(q, vs[i]) <==> Lower(vs[i]) == Lower(Strip(t));
    assert forall i | 0 <= i < |vs| :: Matches(env, Eq, vs[i], Scalar(t)) <==> Lower(vs[i]) == Lower(t);
  }

  /** `=` agrees with the in-memory filter on a document exactly when the text is trimmed, or the
      document carries it both with and without its outer space, or neither. */
  lemma EqAgreesIff(env: Env, f: Filter<Value>, doc: Doc)
    requires InScope(env, f) && f.op == Eq
    ensures Translate(env, f).Done? && Translate(env, f).value.must != []
    ensures (Meaning(Translate(env, f).value, doc) <==> DocMatches(env, doc, f)) <==> Fits(f, doc)
  {
    assert f == Filter(f.key, Eq, Scalar(f.value.text));
    EqMeaning(env, f.key, f.value.text, doc);
    if Trimmed(f.value.text) { TrimmedStrip(f.value.text); }
  }

  /** `contains`, `start with` and `end with` agree on every document, value by value. */
  lemma TextAgrees(env: Env, f: Filter<Value>, doc: Doc)
    requires InScope(env, f) && (f.op == Contains || f.op == StartWith || f.op == EndWith)
    ensures Translate(env, f).Done? && Translate(env, f).value.must != []
    ensures Meaning(Translate(env, f).value, doc) <==> DocMatches(env, doc, f)
  {
    var vs := Values(doc, f.key);
    var t := f.value.text;
    var q := Translate(env, f).value.must[0];
    assert Translate(env, f) == Done(Translated([q], []));
    MeaningOfOne(q, doc);
    HoldsByValue(q, doc);
    forall i | 0 <= i < |vs|
      ensures ValueHolds(q, vs[i]) <==> Matches(env, f.op, vs[i], f.value)
    {
      LowerTwice(t);
      if f.op == Contains { WildcardContains(t, vs[i]); }
      if f.op == EndWith { WildcardEndsWith(t, vs[i]); }
    }
  }

  lemma InTermsHold(key: string, ms: seq<string>, doc: Doc)
    ensures Holds(AnyOf(TermsOf(key, ms)), doc) <==> SomePair(Values(doc, key), ms)
  {
    var vs, qs := Values(doc, key), TermsOf(key, ms);
    AnyOfHolds(qs, doc);
    forall i | 0 <= i < |qs|
      ensures Holds(qs[i], doc) <==> exists j | 0 <= j < |vs| :: Lower(vs[j]) == Lower(ms[i])
    {
      HoldsByValue(qs[i], doc);
      assert forall j | 0 <= j < |vs| :: ValueHolds(qs[i], vs[j]) <==> Lower(vs[j]) == Lower(ms[i]);
    }
    if i, j :| 0 <= i < |ms| && 0 <= j < |vs| && Lower(vs[j]) == Lower(ms[i]) {
      assert Holds(qs[i], doc);
    }
  }

  lemma InMatches(env: Env, key: string, ts: seq<string>, doc: Doc)
    ensures DocMatches(env, doc, Filter(key, In, Items(ts))) <==> SomePair(Values(doc, key), LowerAll(ts))
  {
    var vs, ms := Values(doc, key), LowerAll(ts);
    forall i | 0 <= i < |ms| ensures Lower(ms[i]) == ms[i] { LowerTwice(ts[i]); }
    forall j | 0 <= j < |vs|
      ensures Matches(env, In, vs[j], Items(ts)) <==> exists i | 0 <= i < |ms| :: Lower(vs[j]) == Lower(ms[i])
    {
      assert Matches(env, In, vs[j], Items(ts)) <==> Lower(vs[j]) in ms;
    }
  }

  /** `in` with a list likewise. */
  lemma InListAgreesIff(env: Env, f: Filter<Value>, doc: Doc)
    requires InScope(env, f) && f.op == In
    ensures Translate(env, f).Done? && Translate(env, f).value.must != []
    ensures (Meaning(Translate(env, f).value, doc) <==> DocMatches(env, doc, f)) <==> Fits(f, doc)
  {
    var q := AnyOf(TermsOf(f.key, StripLower(f.value.texts)));
    assert Translate(env, f) == Done(Translated([q], []));
    MeaningOfOne(q, doc);
    InTermsHold(f.key, StripLower(f.value.texts), doc);
    assert f == Filter(f.key, In, Items(f.value.texts));
    InMatches(env, f.key, f.value.texts, doc);
    if AllTrimmed(f.value.texts) { TrimmedList(f.value.texts); }
  }

  // ---------------------------------------------------------------- the negative operators

  lemma EachEqualOrDiffers(vs: seq<string>, t: string)
    requires vs != []
    ensures SomeEqual(vs, t) || SomeDiffers(vs, t)
  {
    assert Lower(vs[0]) == Lower(t) || Lower(vs[0]) != Lower(t);
  }

  /** An untrimmed text and its trimmed form are not equal. */
  lemma StripDiffers(vs: seq<string>, t: string)
    requires !Trimmed(t) && SomeEqual(vs, Strip(t))
    ensures SomeDiffers(vs, t)
  {
    var i :| 0 <= i < |vs| && Lower(vs[i]) == Lower(Strip(t));
    StripTrims(t);
    assert |Lower(vs[i])| < |Lower(t)|;
  }

  lemma NeMeaning(env: Env, key: string, t: string, doc: Doc)
    requires key != "" && PlainText(env, t)
    ensures var f := Filter(key, Ne, Scalar(t));
            && Translate(env, f).Done? && Translate(env, f).value.must != []
            && (Meaning(Translate(env, f).value, doc) <==> Values(doc, key) != [] && !SomeEqual(Values(doc, key), Strip(t)))
            && (DocMatches(env, doc, f) <==> SomeDiffers(Values(doc, key), t))
  {
    var vs := Values(doc, key);
    var q := Term(Keyword(key), Lower(Strip(t)), true);
    LowerTwice(Strip(t));
    HoldsByValue(q, doc);
    assert forall i | 0 <= i < |vs| :: ValueHolds(q, vs[i]) <==> Lower(vs[i]) == Lower(Strip(t));
    MeaningOfTwo(Exists(Parent(key)), q, doc);
    assert forall i | 0 <= i < |vs| :: Matches(env, Ne, vs[i], Scalar(t)) <==> Lower(vs[i]) != Lower(t);
  }

  /** `not equal`, which the pre-check refuses, agrees exactly where the values do not disagree among
      themselves, for a trimmed text. */
  lemma NeAgreesIff(env: Env, f: Filter<Value>, doc: Doc)
    requires InScope(env, f) && f.op == Ne
    ensures Translate(env, f).Done? && Translate(env, f).value.must != []
    ensures (Meaning(Translate(env, f).value, doc) <==> DocMatches(env, doc, f)) <==> Fits(f, doc)
  {
    var vs, t := Values(doc, f.key), f.value.text;
    assert f == Filter(f.key, Ne, Scalar(t));
    NeMeaning(env, f.key, t, doc);
    if vs != [] { EachEqualOrDiffers(vs, t); }
    if Trimmed(t) {
      TrimmedStrip(t);
    } else if SomeEqual(vs, Strip(t)) {
      StripDiffers(vs, t);
    }
  }

  lemma EachInOrOutside(vs: seq<string>, ts: seq<string>)
    requires vs != []
    ensures SomePair(vs, LowerAll(ts)) || SomeOutside(vs, ts)
  {
    if Lower(vs[0]) in LowerAll(ts) {
      var i :| 0 <= i < |ts| && LowerAll(ts)[i] == Lower(vs[0]);
      LowerTwice(ts[i]);
      assert Lower(vs[0]) == Lower(LowerAll(ts)[i]);
    }
  }

  lemma NotInMeaning(env: Env, key: string, ts: seq<string>, doc: Doc)
    requires key != "" && ts != []
    ensures var f := Filter(key, NotIn, Items(ts));
            && Translate(env, f).Done? && Translate(env, f).value.must != []
            && (Meaning(Translate(env, f).value, doc) <==> Values(doc, key) != [] && !SomePair(Values(doc, key), StripLower(ts)))
            && (DocMatches(env, doc, f) <==> SomeOutside(Values(doc, key), ts))
  {
    var vs := Values(doc, key);
    var q := AnyOf(TermsOf(key, StripLower(ts)));
    InTermsHold(key, StripLower(ts), doc);
    MeaningOfTwo(Exists(Parent(key)), q, doc);
    assert forall i | 0 <= i < |vs| :: Matches(env, NotIn, vs[i], Items(ts)) <==> Lower(vs[i]) !in LowerAll(ts);
  }

  /** `not in` likewise. */
  lemma NotInAgreesIff(env: Env, f: Filter<Value>, doc: Doc)
    requires InScope(env, f) && f.op == NotIn
    ensures Translate(env, f).Done? && Translate(env, f).value.must != []
    ensures (Meaning(Translate(env, f).value, doc) <==> DocMatches(env, doc, f)) <==> Fits(f, doc)
  {
    var vs, ts := Values(doc, f.key), f.value.texts;
    assert f == Filter(f.key, NotIn, Items(ts));
    NotInMeaning(env, f.key, ts, doc);
    if vs != [] { EachInOrOutside(vs, ts); }
    if AllTrimmed(ts) { TrimmedList(ts); }
  }

  lemma WildcardHolds(key: string, t: string, doc: Doc)
    ensures Holds(Wildcard(Keyword(key), "*" + EscapeWildcard(t) + "*"), doc) <==> SomeHas(Values(doc, key), t)
  {
    var q, vs := Wildcard(Keyword(key), "*" + EscapeWildcard(t) + "*"), Values(doc, key);
    HoldsByValue(q, doc);
    forall i | 0 <= i < |vs| ensures ValueHolds(q, vs[i]) <==> OccursIn(Lower(t), Lower(vs[i])) {
      WildcardContains(t, vs[i]);
    }
  }

  lemma MemoryLacks(env: Env, key: string, t: string, doc: Doc)
    ensures DocMatches(env, doc, Filter(key, NotContains, Scalar(t))) <==> SomeLacks(Values(doc, key), t)
  {
    var vs := Values(doc, key);
    assert forall i | 0 <= i < |vs| :: Matches(env, NotContains, vs[i], Scalar(t)) <==> !OccursIn(Lower(t), Lower(vs[i]));
  }

  lemma NotContainsMeaning(env: Env, key: string, t: string, doc: Doc)
    requires key != "" && t != ""
    ensures var f := Filter(key, NotContains, Scalar(t));
            && Translate(env, f).Done? && Translate(env, f).value.must != []
            && (Meaning(Translate(env, f).value, doc) <==> Values(doc, key) != [] && !SomeHas(Values(doc, key), t))
            && (DocMatches(env, doc, f) <==> SomeLacks(Values(doc, key), t))
  {
    WildcardHolds(key, t, doc);
    MemoryLacks(env, key, t, doc);
    MeaningOfTwo(Exists(Parent(key)), Wildcard(Keyword(key), "*" + EscapeWildcard(t) + "*"), doc);
  }

  lemma NotEmptyMeaning(env: Env, key: string, v: Value, doc: Doc)
    requires key != ""
    ensures var f := Filter(key, NotEmpty, v);
            && Translate(env, f).Done? && Translate(env, f).value.must != []
            && (Meaning(Translate(env, f).value, doc) <==> Values(doc, key) != [] && !SomeBlank(Values(doc, key)))
            && (DocMatches(env, doc, f) <==> SomeFilled(Values(doc, key)))
  {
    var vs := Values(doc, key);
    HoldsByValue(Blank(key), doc);
    assert forall i | 0 <= i < |vs| :: ValueHolds(Blank(key), vs[i]) <==> vs[i] == "";
    assert Holds(Blank(key), doc) <==> SomeBlank(Values(doc, key));
    assert forall i | 0 <= i < |vs| :: Matches(env, NotEmpty, vs[i], v) <==> vs[i] != "";
    MeaningOfTwo(Exists(Parent(key)), Blank(key), doc);
  }

  lemma FirstValue(doc: Doc, key: string, t: string)
    requires Values(doc, key) != []
    ensures SomeHas(Values(doc, key), t) || SomeLacks(Values(doc, key), t)
    ensures SomeBlank(Values(doc, key)) || SomeFilled(Values(doc, key))
    ensures |Values(doc, key)| == 1 ==> !(SomeHas(Values(doc, key), t) && SomeLacks(Values(doc, key), t)) && !(SomeBlank(Values(doc, key)) && SomeFilled(Values(doc, key)))
  {
    var x := Values(doc, key)[0];
    assert OccursIn(Lower(t), Lower(x)) || !OccursIn(Lower(t), Lower(x));
  }

  /** `not contains` agrees with the in-memory filter exactly on the documents whose values do
      not disagree among themselves: either all contain the text or none does. */
  lemma NotContainsAgreesIff(env: Env, key: string, t: string, doc: Doc)
    requires key != "" && t != ""
    ensures var f := Filter(key, NotContains, Scalar(t));
            && Translate(env, f).Done? && Translate(env, f).value.must != []
            && ((Meaning(Translate(env, f).value, doc) <==> DocMatches(env, doc, f)) <==>
                !(SomeHas(Values(doc, key), t) && SomeLacks(Values(doc, key), t)))
  {
    NotContainsMeaning(env, key, t, doc);
    if Values(doc, key) != [] { FirstValue(doc, key, t); }
  }

  /** `not empty` likewise: it goes wrong exactly on fields that mix blank and other values. */
  lemma NotEmptyAgreesIff(env: Env, key: string, v: Value, doc: Doc)
    requires key != ""
    ensures var f := Filter(key, NotEmpty, v);
            && Translate(env, f).Done? && Translate(env, f).value.must != []
            && ((Meaning(Translate(env, f).value, doc) <==> DocMatches(env, doc, f)) <==>
                !(SomeBlank(Values(doc, key)) && SomeFilled(Values(doc, key))))
  {
    NotEmptyMeaning(env, key, v, doc);
    if Values(doc, key) != [] { FirstValue(doc, key, ""); }
  }

  /** `empty` agrees with the in-memory filter exactly on the documents that carry the field:
      the query also selects those without it. */
  lemma EmptyAgreesIff(env: Env, key: string, v: Value, doc: Doc)
    requires key != ""
    ensures var f := Filter(key, Empty, v);
            && Translate(env, f).Done? && Translate(env, f).value.must != []
            && ((Meaning(Translate(env, f).value, doc) <==> DocMatches(env, doc, f)) <==> Values(doc, key) != [])
  {
    var f := Filter(key, Empty, v);
    var vs := Values(doc, key);
    var missing := Bool([], [], [Exists(Parent(key))], [], false);
    var parts := [missing, Blank(key)];
    AnyOfHolds(parts, doc);
    HoldsByValue(Blank(key), doc);
    assert Holds(missing, doc) <==> vs == [] by {
      assert missing.mustNot == [Exists(Parent(key))];
      assert Exists(Parent(key)) in missing.mustNot;
    }
    forall i | 0 <= i < |vs|
      ensures ValueHolds(Blank(key), vs[i]) <==> Matches(env, Empty, vs[i], v)
    {
    }
    assert parts[0] == missing && parts[1] == Blank(key);
    assert Holds(AnyOf(parts), doc) <==> vs == [] || Holds(Blank(key), doc);
    MeaningOfOne(AnyOf(parts), doc);
  }

  /** The push-down is not safe for `not contains` on multi-valued fields: a document tagged
      both "a" and "b" passes the in-memory filter for the text "a" and fails the query. */
  lemma NotContainsDiffersOnLists(env: Env)
    ensures var doc := Doc("1", "kb", map["tag" := ["a", "b"]]);
            var f := Filter("tag", NotContains, Scalar("a"));
            && Supported([f]) && Translate(env, f).Done?
            && DocMatches(env, doc, f) && !Meaning(Translate(env, f).value, doc)
  {
    var doc := Doc("1", "kb", map["tag" := ["a", "b"]]);
    var vs := Values(doc, "tag");
    NotContainsMeaning(env, "tag", "a", doc);
    assert vs[0] == "a" && vs[1] == "b" && Lower("a") == "a" && Lower("b") == "b";
    assert OccursIn(Lower("a"), Lower(vs[0])) by { assert "a" <= "a"[0..]; }
    assert !OccursIn(Lower("a"), Lower(vs[1])) by {
      assert forall k | 0 <= k <= 1 :: |"b"[k..]| == 0 || "b"[k..][0] == 'b';
    }
  }

  /** Nor for `empty`: a document without the field passes the query and fails in memory. */
  lemma EmptyDiffersWithoutField(env: Env)
    ensures var doc := Doc("1", "kb", map[]);
            var f := Filter("tag", Empty, Null);
            && Supported([f]) && Translate(env, f).Done?
            && Meaning(Translate(env, f).value, doc) && !DocMatches(env, doc, f)
  {
    var doc := Doc("1", "kb", map[]);
    EmptyAgreesIff(env, "tag", Null, doc);
    assert Values(doc, "tag") == [];
  }

  // ---------------------------------------------------------------- whole queries

  /** The query of a filter in scope and the in-memory filter agree on a document exactly when
      the document's values fit. */
  lemma FilterAgreesIff(env: Env, f: Filter<Value>, doc: Doc)
    requires InScope(env, f)
    ensures Translate(env, f).Done? && Translate(env, f).value.must != []
    ensures (Meaning(Translate(env, f).value, doc) <==> DocMatches(env, doc, f)) <==> Fits(f, doc)
  {
    match f.op
    case Eq => EqAgreesIff(env, f, doc);
    case In => InListAgreesIff(env, f, doc);
    case Ne => NeAgreesIff(env, f, doc);
    case NotIn => NotInAgreesIff(env, f, doc);
    case NotContains =>
      assert f == Filter(f.key, NotContains, Scalar(f.value.text));
      NotContainsAgreesIff(env, f.key, f.value.text, doc);
    case NotEmpty => NotEmptyAgreesIff(env, f.key, f.value, doc);
    case Empty => EmptyAgreesIff(env, f.key, f.value, doc);
    case _ => TextAgrees(env, f, doc);
  }

  // ---------------------------------------------------------------- filters that always agree

  ghost predicate Agrees(env: Env, f: Filter<Value>, doc: Doc) {
    var t := Translate(env, f);
    t.Done? && (Meaning(t.value, doc) <==> DocMatches(env, doc, f))
  }

  /** What can be told from the filter alone. */
  predicate Steady(f: Filter<Value>) {
    match f.op
    case Eq => f.value.Scalar? && Trimmed(f.value.text)
    case In => f.value.Items? && AllTrimmed(f.value.texts)
    case Ne => false
    case NotIn => false
    case NotContains => false
    case NotEmpty => false
    case Empty => false
    case _ => true
  }

  /** Longer than every member. */
  function Longer(ts: seq<string>): (s: string)
    ensures forall i | 0 <= i < |ts| :: |ts[i]| < |s|
  {
    if ts == [] then "x" else ts[0] + Longer(ts[1..])
  }

  lemma LongerIsOutside(ts: seq<string>)
    requires ts != []
    ensures SomePair([Strip(ts[0]), Longer(ts)], StripLower(ts)) && SomeOutside([Strip(ts[0]), Longer(ts)], ts)
    ensures Trimmed(ts[0]) ==> SomePair([Strip(ts[0]), Longer(ts)], LowerAll(ts))
  {
    var vs := [Strip(ts[0]), Longer(ts)];
    StripLowers(ts[0]);
    assert vs[0] == Strip(ts[0]) && vs[1] == Longer(ts);
    assert Lower(vs[0]) == Lower(StripLower(ts)[0]) by { LowerTwice(Strip(ts[0])); }
    assert Lower(vs[1]) !in LowerAll(ts) by {
      assert forall i | 0 <= i < |ts| :: |LowerAll(ts)[i]| < |Lower(vs[1])|;
    }
    if Trimmed(ts[0]) {
      TrimmedStrip(ts[0]);
      LowerTwice(ts[0]);
      assert Lower(vs[0]) == Lower(LowerAll(ts)[0]);
    }
  }

  lemma {:induction false} StripLowers(s: string)
    ensures Strip(Lower(s)) == Lower(Strip(s))
    decreases |s|
  {
    assert forall c :: Space(LowerChar(c)) <==> Space(c);
    if s == "" {
    } else if Space(s[0]) {
      assert Lower(s)[1..] == Lower(s[1..]);
      StripLowers(s[1..]);
    } else if Space(s[|s| - 1]) {
      assert Lower(s)[..|s| - 1] == Lower(s[..|s| - 1]);
      StripLowers(s[..|s| - 1]);
    }
  }

  /** A text does not fit a document that carries it with its outer space. */
  lemma UntrimmedDiffers(t: string)
    requires !Trimmed(t)
    ensures SomeEqual([t], t) && !SomeEqual([t], Strip(t))
  {
    StripTrims(t);
    assert [t][0] == t && |Lower(Strip(t))| < |Lower(t)|;
  }

  lemma UntrimmedMemberDiffers(ts: seq<string>, k: nat)
    requires k < |ts| && !Trimmed(ts[k])
    ensures SomePair([ts[k]], LowerAll(ts)) && !SomePair([ts[k]], StripLower(ts))
  {
    var t := ts[k];
    assert [t][0] == t;
    LowerTwice(t);
    assert Lower([t][0]) == Lower(LowerAll(ts)[k]);
    LowerTrimmed(t);
    forall i | 0 <= i < |ts| ensures Lower(t) != Lower(StripLower(ts)[i]) {
      StripTrims(Lower(ts[i]));
      LowerTrimmed(Strip(Lower(ts[i])));
    }
  }

  /** A document that does not fit, for every filter that is not steady. */
  lemma DifferingDoc(env: Env, f: Filter<Value>, kb: string) returns (doc: Doc)
    requires InScope(env, f) && !Steady(f)
    ensures doc.id == "1" && doc.kb == kb && !Fits(f, doc)
  {
    match f.op
    case Eq =>
      doc := Doc("1", kb, map[f.key := [f.value.text]]);
      UntrimmedDiffers(f.value.text);
    case In =>
      var k :| 0 <= k < |f.value.texts| && !Trimmed(f.value.texts[k]);
      doc := Doc("1", kb, map[f.key := [f.value.texts[k]]]);
      UntrimmedMemberDiffers(f.value.texts, k);
    case Ne =>
      var t := Strip(f.value.text);
      doc := Doc("1", kb, map[f.key := [t, t + "x"]]);
      TwoTexts(f.value.text);
    case NotIn =>
      doc := Doc("1", kb, map[f.key := [Strip(f.value.texts[0]), Longer(f.value.texts)]]);
      LongerIsOutside(f.value.texts);
    case NotContains =>
      doc := Doc("1", kb, map[f.key := [f.value.text, ""]]);
      HasAndLacks(f.value.text);
    case NotEmpty =>
      doc := Doc("1", kb, map[f.key := ["", "a"]]);
      assert Values(doc, f.key)[0] == "" && Values(doc, f.key)[1] == "a";
    case Empty =>
      doc := Doc("1", kb, map[]);
      assert Values(doc, f.key) == [];
  }

  lemma TwoTexts(t: string)
    ensures SomeEqual([Strip(t), Strip(t) + "x"], Strip(t))
    ensures Trimmed(t) ==> SomeEqual([Strip(t), Strip(t) + "x"], t) && SomeDiffers([Strip(t), Strip(t) + "x"], t)
  {
    var vs := [Strip(t), Strip(t) + "x"];
    assert vs[0] == Strip(t) && |Lower(vs[1])| == |Strip(t)| + 1;
    if Trimmed(t) { TrimmedStrip(t); }
  }

  lemma HasAndLacks(t: string)
    requires t != ""
    ensures SomeHas([t, ""], t) && SomeLacks([t, ""], t)
  {
    var vs := [t, ""];
    assert OccursIn(Lower(t), Lower(vs[0])) by { assert Lower(t) <= Lower(t)[0..]; }
    assert !OccursIn(Lower(t), Lower(vs[1]));
  }

  /** A filter agrees with the in-memory filter on every document exactly when it is a text
      operator, or `=` or `in` with trimmed texts. */
  lemma AlwaysAgreesIff(env: Env, f: Filter<Value>)
    requires InScope(env, f)
    ensures (forall doc :: Agrees(env, f, doc)) <==> Steady(f)
  {
    forall doc ensures Agrees(env, f, doc) <==> Fits(f, doc) { FilterAgreesIff(env, f, doc); }
    if Steady(f) {
      forall doc ensures Agrees(env, f, doc) { assert Fits(f, doc); }
    } else {
      var doc := DifferingDoc(env, f, "kb");
      assert !Agrees(env, f, doc);
    }
  }

  ghost predicate AllFit(env: Env, filters: seq<Filter<Value>>, doc: Doc) {
    forall i | 0 <= i < |filters| :: InScope(env, filters[i]) && Fits(filters[i], doc)
  }

  ghost predicate Parts(env: Env, filters: seq<Filter<Value>>, parts: seq<Translated>) {
    |parts| == |filters| && forall i | 0 <= i < |filters| :: Translate(env, filters[i]) == Done(parts[i])
  }

  /** The clauses stand for the filters, one for one. */
  ghost predicate Mirrors(env: Env, clauses: seq<Query>, filters: seq<Filter<Value>>, doc: Doc) {
    |clauses| == |filters| && forall i | 0 <= i < |filters| :: Holds(clauses[i], doc) <==> DocMatches(env, doc, filters[i])
  }

  lemma ClauseMirrors(env: Env, f: Filter<Value>, t: Translated, doc: Doc)
    requires InScope(env, f) && Fits(f, doc) && Translate(env, f) == Done(t)
    ensures |ToClauses(t)| == 1 && (Holds(ToClauses(t)[0], doc) <==> DocMatches(env, doc, f))
  {
    FilterAgreesIff(env, f, doc);
    ClausesAreAtomic(t, doc);
  }

  /** Each translated filter becomes one clause. */
  ghost predicate OneEach(parts: seq<Translated>, clauses: seq<Query>) {
    |clauses| == |parts| && forall i | 0 <= i < |parts| :: ToClauses(parts[i]) == [clauses[i]]
  }

  lemma {:induction false} FlattenIs(parts: seq<Translated>, clauses: seq<Query>)
    requires OneEach(parts, clauses)
    ensures Flatten(parts) == clauses
  {
    if parts != [] {
      var n := |parts| - 1;
      assert OneEach(parts[..n], clauses[..n]) by {
        assert forall i | 0 <= i < n :: parts[..n][i] == parts[i] && clauses[..n][i] == clauses[i];
      }
      FlattenIs(parts[..n], clauses[..n]);
      assert ToClauses(parts[n]) == [clauses[n]];
      assert clauses == clauses[..n] + [clauses[n]];
    }
  }

  lemma FlattenAgrees(env: Env, filters: seq<Filter<Value>>, parts: seq<Translated>, doc: Doc)
    requires Parts(env, filters, parts) && AllFit(env, filters, doc)
    ensures Mirrors(env, Flatten(parts), filters, doc)
  {
    forall i | 0 <= i < |parts|
      ensures |ToClauses(parts[i])| == 1 && (Holds(ToClauses(parts[i])[0], doc) <==> DocMatches(env, doc, filters[i]))
    {
      ClauseMirrors(env, filters[i], parts[i], doc);
    }
    var clauses := seq(|parts|, i requires 0 <= i < |parts| => ToClauses(parts[i])[0]);
    FlattenIs(parts, clauses);
  }

  lemma ScopedHolds(scope: Query, inner: Query, doc: Doc)
    ensures Holds(Bool([], [], [], [scope, inner], false), doc) <==> Holds(scope, doc) && Holds(inner, doc)
  {
    var q := Bool([], [], [], [scope, inner], false);
    assert q.filter[0] == scope && q.filter[1] == inner;
  }

  lemma ScopeHolds(kbs: seq<string>, doc: Doc)
    ensures Holds(Terms(KbId, kbs), doc) <==> doc.kb in kbs
  {
    assert Stored(doc, KbId)[0] == doc.kb;
  }

  lemma InnerHolds(env: Env, clauses: seq<Query>, filters: seq<Filter<Value>>, logic: Logic, doc: Doc)
    requires filters != [] && Mirrors(env, clauses, filters, doc)
    ensures Holds(if logic == Or then AnyOf(clauses) else AllOf(clauses), doc) <==> DocSelected(env, doc, filters, logic)
  {
    AnyOfHolds(clauses, doc);
    AllOfHolds(clauses, doc);
  }

  /** The rendered query selects a document exactly when the document is in scope and
      `meta_filter` selects it. */
  lemma QueryAgrees(env: Env, filters: seq<Filter<Value>>, logic: Logic, parts: seq<Translated>, kbs: seq<string>, doc: Doc)
    requires filters != [] && Parts(env, filters, parts) && AllFit(env, filters, doc)
    ensures Holds(ToQuery(logic, parts, kbs), doc) <==> doc.kb in kbs && DocSelected(env, doc, filters, logic)
  {
    var clauses := Flatten(parts);
    assert Mirrors(env, clauses, filters, doc) by { FlattenAgrees(env, filters, parts, doc); }
    var inner := if logic == Or then AnyOf(clauses) else AllOf(clauses);
    assert Holds(inner, doc) <==> DocSelected(env, doc, filters, logic) by { InnerHolds(env, clauses, filters, logic, doc); }
    assert ToQuery(logic, parts, kbs) == Bool([], [], [], [Terms(KbId, kbs), inner], false);
    ScopedHolds(Terms(KbId, kbs), inner, doc);
    ScopeHolds(kbs, doc);
  }

  /** Without filters the query selects the whole scope and the in-memory filter nothing, which
      is why callers only push down a non-empty list. */
  lemma NoFiltersDiffer(env: Env, metas: Metas, logic: Logic, kbs: seq<string>, doc: Doc)
    ensures Holds(ToQuery(logic, [], kbs), doc) <==> doc.kb in kbs
    ensures !Selects(env, metas, [], logic, doc.id)
  {
    ScopeHolds(kbs, doc);
    var q := ToQuery(logic, [], kbs);
    assert q.filter[0] == Terms(KbId, kbs);
  }

  ghost predicate Translatable(env: Env, filters: seq<Filter<Value>>) {
    forall i | 0 <= i < |filters| :: Translate(env, filters[i]).Done?
  }

  ghost function PartsOf(env: Env, filters: seq<Filter<Value>>): (parts: seq<Translated>)
    requires Translatable(env, filters)
    ensures Parts(env, filters, parts)
  {
    seq(|filters|, i requires 0 <= i < |filters| => Translate(env, filters[i]).value)
  }

  /** The query that stands for the filter list. */
  ghost function QueryFor(env: Env, filters: seq<Filter<Value>>, logic: Logic, kbs: seq<string>): Query
    requires Translatable(env, filters)
  {
    ToQuery(logic, PartsOf(env, filters), kbs)
  }

  /** `build_meta_filter_query`: all filters are translated or none. The query preserves the
      meaning of every non-empty and/or list of filters in scope, on every document whose values
      fit them. */
  method PushDown(env: Env, filters: seq<Filter<Value>>, logic: Logic, kbs: seq<string>) returns (r: Result<Query>)
    ensures r.Done? <==> Translatable(env, filters)
    ensures r.Done? ==> r.value == QueryFor(env, filters, logic, kbs)
    ensures r.Done? && filters != [] ==> forall doc | AllFit(env, filters, doc) ::
              Holds(r.value, doc) <==> doc.kb in kbs && DocSelected(env, doc, filters, logic)
  {
    var plan := Plan(env, filters);
    if plan.Failed? {
      return Failed;
    }
    assert Translatable(env, filters) && plan.value == PartsOf(env, filters);
    r := Done(ToQuery(logic, plan.value, kbs));
    forall doc | filters != [] && AllFit(env, filters, doc)
      ensures Holds(r.value, doc) <==> doc.kb in kbs && DocSelected(env, doc, filters, logic)
    {
      QueryAgrees(env, filters, logic, plan.value, kbs, doc);
    }
  }

  lemma OneClauseQuery(logic: Logic, t: Translated, kbs: seq<string>, doc: Doc)
    requires |ToClauses(t)| == 1 && doc.kb in kbs
    ensures Holds(ToQuery(logic, [t], kbs), doc) <==> Holds(ToClauses(t)[0], doc)
  {
    var c := ToClauses(t)[0];
    assert ToClauses(t) == [c];
    FlattenIs([t], [c]);
    OneClauseHolds(logic, c, kbs, doc);
  }

  /** For a single filter the fit is also necessary. */
  lemma OneFilterAgreesIff(env: Env, f: Filter<Value>, logic: Logic, kbs: seq<string>, doc: Doc)
    requires InScope(env, f) && doc.kb in kbs
    ensures Translatable(env, [f])
    ensures (Holds(QueryFor(env, [f], logic, kbs), doc) <==> DocSelected(env, doc, [f], logic)) <==> Fits(f, doc)
  {
    FilterAgreesIff(env, f, doc);
    var t := Translate(env, f).value;
    assert [f][0] == f;
    assert PartsOf(env, [f]) == [t];
    ClausesAreAtomic(t, doc);
    OneClauseQuery(logic, t, kbs, doc);
    DocSelectedOne(env, doc, f, logic);
  }

  lemma OneClauseHolds(logic: Logic, c: Query, kbs: seq<string>, doc: Doc)
    requires doc.kb in kbs
    ensures var inner := if logic == Or then AnyOf([c]) else AllOf([c]);
            Holds(Bool([], [], [], [Terms(KbId, kbs), inner], false), doc) <==> Holds(c, doc)
  {
    var inner := if logic == Or then AnyOf([c]) else AllOf([c]);
    ScopedHolds(Terms(KbId, kbs), inner, doc);
    ScopeHolds(kbs, doc);
    AnyOfHolds([c], doc);
    AllOfHolds([c], doc);
    assert [c][0] == c;
  }

  lemma DocSelectedOne(env: Env, doc: Doc, f: Filter<Value>, logic: Logic)
    ensures DocSelected(env, doc, [f], logic) <==> DocMatches(env, doc, f)
  {
    assert [f][0] == f;
  }

  // ---------------------------------------------------------------- what `=` and `in` look for

  lemma TermFinds(key: string, s: string, doc: Doc)
    ensures Holds(Term(Keyword(key), Lower(s), true), doc) <==> SomeEqual(Values(doc, key), s)
  {
    var q, vs := Term(Keyword(key), Lower(s), true), Values(doc, key);
    LowerTwice(s);
    HoldsByValue(q, doc);
    assert forall i | 0 <= i < |vs| :: ValueHolds(q, vs[i]) <==> Lower(vs[i]) == Lower(s);
  }

  lemma DateFinds(key: string, s: string, doc: Doc)
    ensures Holds(Term(Keyword(key), s, true), doc) <==> SomeEqual(Values(doc, key), s)
  {
    var q, vs := Term(Keyword(key), s, true), Values(doc, key);
    HoldsByValue(q, doc);
    assert forall i | 0 <= i < |vs| :: ValueHolds(q, vs[i]) <==> Lower(vs[i]) == Lower(s);
  }

  /** What `=` looks for: a date as it is, a quoted text without its quotes, a number in the numeric
      field, and any other text, all without outer space and ignoring case. */
  lemma EqLooksFor(env: Env, key: string, t: string, doc: Doc)
    requires key != ""
    ensures var r, s, vs := Translate(env, Filter(key, Eq, Scalar(t))), Strip(t), Values(doc, key);
            && r.Done?
            && (IsDate(s) ==> (Meaning(r.value, doc) <==> SomeEqual(vs, s)))
            && (!IsDate(s) && env.parse(s).Some? && env.parse(s).value.Quoted? ==> (Meaning(r.value, doc) <==> SomeEqual(vs, env.parse(s).value.s)))
            && (!IsDate(s) && env.parse(s).Some? && env.parse(s).value.Number? ==> r.value == Translated([NumberTerm(Parent(key), env.parse(s).value.n)], []))
            && (!IsDate(s) && (env.parse(s).None? || env.parse(s).value.Listed? || env.parse(s).value.Other?) ==> (Meaning(r.value, doc) <==> SomeEqual(vs, s)))
  {
    var r, s := Translate(env, Filter(key, Eq, Scalar(t))), Strip(t);
    MeaningOfOne(r.value.must[0], doc);
    if IsDate(s) {
      DateFinds(key, s, doc);
    } else {
      TermFinds(key, s, doc);
      if env.parse(s).Some? && env.parse(s).value.Quoted? { TermFinds(key, env.parse(s).value.s, doc); }
    }
  }

  /** A text given to `in` stands for the parts between its commas, unless Python reads it as a list. */
  lemma InSplitsAtCommas(env: Env, key: string, a: string, b: string, doc: Doc)
    requires key != "" && ',' !in a && ',' !in b && Strip(a) != "" && Strip(b) != "" && env.parse(a + "," + b).None?
    ensures var r := Translate(env, Filter(key, In, Scalar(a + "," + b)));
            r.Done? && (Meaning(r.value, doc) <==> SomeEqual(Values(doc, key), Strip(a)) || SomeEqual(Values(doc, key), Strip(b)))
  {
    SplitTwo(a, b);
    var parts, vs := [Strip(a), Strip(b)], Values(doc, key);
    var ms := StripLower(parts);
    var q := AnyOf(TermsOf(key, ms));
    assert Translate(env, Filter(key, In, Scalar(a + "," + b))) == Done(Translated([q], []));
    MeaningOfOne(q, doc);
    InTermsHold(key, ms, doc);
    MemberText(a);
    MemberText(b);
    assert ms[0] == Lower(Strip(a)) && ms[1] == Lower(Strip(b));
    LowerTwice(Strip(a));
    LowerTwice(Strip(b));
    PairOfTwo(vs, ms, Strip(a), Strip(b));
  }

  lemma MemberText(a: string)
    ensures Strip(Lower(Strip(a))) == Lower(Strip(a))
  {
    StripTrims(a);
    TrimmedStrip(Strip(a));
  }

  lemma PairOfTwo(vs: seq<string>, ms: seq<string>, a: string, b: string)
    requires |ms| == 2 && Lower(ms[0]) == Lower(a) && Lower(ms[1]) == Lower(b)
    ensures SomePair(vs, ms) <==> SomeEqual(vs, a) || SomeEqual(vs, b)
  {
    if j :| 0 <= j < |vs| && Lower(vs[j]) == Lower(a) { assert Lower(vs[j]) == Lower(ms[0]); }
    if j :| 0 <= j < |vs| && Lower(vs[j]) == Lower(b) { assert Lower(vs[j]) == Lower(ms[1]); }
  }

  /** A text that Python reads as a list stands for its elements. */
  lemma InReadsLists(env: Env, key: string, t: string, items: seq<string>)
    requires key != "" && env.parse(t) == Some(Listed(items)) && items != []
    ensures Translate(env, Filter(key, In, Scalar(t))) == Translate(env, Filter(key, In, Items(items)))
  {
  }

  /** Which filters are refused. */
  lemma TranslatesIff(env: Env, f: Filter<Value>)
    ensures f.key == "" ==> Translate(env, f).Failed?
    ensures f.key != "" && (f.op == Empty || f.op == NotEmpty) ==> Translate(env, f).Done?
    ensures f.key != "" && (f.op == Eq || f.op == Ne) ==> (Translate(env, f).Done? <==> f.value.Scalar?)
    ensures f.key != "" && (f.op == In || f.op == NotIn) && !f.value.Scalar? ==> (Translate(env, f).Done? <==> f.value.Items? && f.value.texts != [])
    ensures f.key != "" && (f.op == Contains || f.op == NotContains || f.op == StartWith || f.op == EndWith) ==>
              (Translate(env, f).Done? <==> f.value.Scalar? && f.value.text != "")
  {
  }
}
