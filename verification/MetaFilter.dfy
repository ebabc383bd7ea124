/** What the user asks of the metadata of a document. */
module FilterSyntax {

  datatype Op = Eq | Ne | In | NotIn | Contains | NotContains | StartWith | EndWith | Empty | NotEmpty

  datatype Filter<V> = Filter(key: string, op: Op, value: V)

  datatype Logic = And | Or

  /** The operator that a negative one negates. */
  function Positive(op: Op): Op {
    match op
    case Ne => Eq
    case NotIn => In
    case NotContains => Contains
    case _ => op
  }
}

/** The in-memory metadata filter (common/metadata_utils.py, `meta_filter`): the simple form
    that the search-engine translations have to preserve. */
module MetaFilter {
  import opened Text
  import opened Wrappers
  import opened FilterSyntax

  type DocId = string

  /** What `ast.literal_eval` may make of a text. */
  datatype Literal = Number(n: real) | Quoted(s: string) | Listed(items: seq<string>) | Other(repr: string)

  /** A filter value: absent, a text, or a list of texts. */
  datatype Value = Null | Scalar(text: string) | Items(texts: seq<string>)

  /** Python's own parts: the literal parser and `str` of a value that is no text. */
  datatype Env = Env(parse: string -> Option<Literal>, repr: Value -> string)

  /** A metadata value and the documents that carry it. */
  datatype Bucket = Bucket(value: string, docs: seq<DocId>)

  type Metas = map<string, seq<Bucket>>

  // ---------------------------------------------------------------- one value

  function Show(env: Env, v: Value): string {
    if v.Scalar? then v.text else env.repr(v)
  }

  predicate Digit(c: char) {
    '0' <= c <= '9'
  }

  predicate IsDate(s: string) {
    |s| == 10 && s[4] == '-' && s[7] == '-' && forall i | 0 <= i < 10 && i != 4 && i != 7 :: Digit(s[i])
  }

  function LowerAll(xs: seq<string>): (r: seq<string>)
    ensures |r| == |xs| && forall i | 0 <= i < |xs| :: r[i] == Lower(xs[i])
  {
    seq(|xs|, i requires 0 <= i < |xs| => Lower(xs[i]))
  }

  function LowerLiteral(l: Literal): Literal {
    if l.Quoted? then Quoted(Lower(l.s)) else l
  }

  function Normalize(v: Value): Value {
    match v
    case Null => Null
    case Scalar(t) => Scalar(Lower(t))
    case Items(ts) => Items(LowerAll(ts))
  }

  /** A date is only ever compared with a date. */
  predicate Comparable(env: Env, input: string, value: Value) {
    IsDate(Strip(Show(env, value))) ==> IsDate(Strip(input))
  }

  predicate Equal(env: Env, input: string, value: Value) {
    if IsDate(Strip(Show(env, value))) then Strip(input) == Strip(Show(env, value))
    else match value
      case Scalar(t) =>
        if env.parse(input).Some? && env.parse(t).Some?
        then LowerLiteral(env.parse(input).value) == LowerLiteral(env.parse(t).value)
        else Lower(input) == Lower(t)
      case _ => false
  }

  /** Whether one metadata value satisfies a filter. Where Python raises, nothing matches. */
  predicate Matches(env: Env, op: Op, input: string, value: Value) {
    var i := Lower(input);
    var v := Normalize(value);
    match op
    case Eq => Comparable(env, input, value) && Equal(env, input, value)
    case Ne => Comparable(env, input, value) && !Equal(env, input, value)
    case Contains => v.Scalar? && OccursIn(v.text, i)
    case NotContains => v.Scalar? && !OccursIn(v.text, i)
    case In => (v.Scalar? && OccursIn(i, v.text)) || (v.Items? && i in v.texts)
    case NotIn => (v.Scalar? && !OccursIn(i, v.text)) || (v.Items? && i !in v.texts)
    case StartWith => Lower(Show(env, v)) <= i
    case EndWith => EndsWith(i, Lower(Show(env, v)))
    case Empty => input == ""
    case NotEmpty => input != ""
  }

  // ---------------------------------------------------------------- what the operators mean

  /** Dates are compared as texts, without their outer space, and only with dates. */
  lemma EqOnDates(env: Env, x: string, t: string)
    requires IsDate(Strip(t))
    ensures Matches(env, Eq, x, Scalar(t)) <==> Strip(x) == Strip(t)
    ensures Matches(env, Ne, x, Scalar(t)) <==> IsDate(Strip(x)) && Strip(x) != Strip(t)
  {
  }

  /** Two numbers are compared by value, whatever they look like. */
  lemma EqOnNumbers(env: Env, x: string, t: string, a: real, b: real)
    requires !IsDate(Strip(t)) && env.parse(x) == Some(Number(a)) && env.parse(t) == Some(Number(b))
    ensures Matches(env, Eq, x, Scalar(t)) <==> a == b
    ensures Matches(env, Ne, x, Scalar(t)) <==> a != b
  {
  }

  /** Two quoted texts are compared by what they quote, ignoring case. */
  lemma EqOnQuoted(env: Env, x: string, t: string, a: string, b: string)
    requires !IsDate(Strip(t)) && env.parse(x) == Some(Quoted(a)) && env.parse(t) == Some(Quoted(b))
    ensures Matches(env, Eq, x, Scalar(t)) <==> Lower(a) == Lower(b)
    ensures Matches(env, Ne, x, Scalar(t)) <==> Lower(a) != Lower(b)
  {
  }

  /** Literals of different kinds are never equal, lists and the rest when they are the same. */
  lemma EqOnOtherLiterals(env: Env, x: string, t: string, a: Literal, b: Literal)
    requires !IsDate(Strip(t)) && env.parse(x) == Some(a) && env.parse(t) == Some(b) && !(a.Quoted? && b.Quoted?)
    ensures Matches(env, Eq, x, Scalar(t)) <==> a == b
    ensures Matches(env, Ne, x, Scalar(t)) <==> a != b
  {
  }

  /** Both sides are taken as literals, or neither: otherwise the texts are compared, ignoring
      case. */
  lemma EqOnTexts(env: Env, x: string, t: string)
    requires !IsDate(Strip(t)) && (env.parse(x).None? || env.parse(t).None?)
    ensures Matches(env, Eq, x, Scalar(t)) <==> Lower(x) == Lower(t)
    ensures Matches(env, Ne, x, Scalar(t)) <==> Lower(x) != Lower(t)
  {
  }

  /** A text given to `in` is searched for the value; a list is searched for it as a member. */
  lemma InMeans(env: Env, x: string, a: string, b: string, t: string, ts: seq<string>)
    ensures Matches(env, In, x, Scalar(a + x + b)) && !Matches(env, NotIn, x, Scalar(a + x + b))
    ensures |t| < |x| ==> !Matches(env, In, x, Scalar(t)) && Matches(env, NotIn, x, Scalar(t))
    ensures Matches(env, In, x, Items(ts)) <==> exists i | 0 <= i < |ts| :: Lower(ts[i]) == Lower(x)
    ensures Matches(env, NotIn, x, Items(ts)) <==> !Matches(env, In, x, Items(ts))
  {
    var s := a + x + b;
    assert Lower(x) <= Lower(s)[|a|..] by {
      assert forall k | 0 <= k < |x| :: s[|a| + k] == x[k];
    }
  }

  /** A value that is no text is compared as Python writes it by `start with` and `end with`, after its
      members were lower-cased; looking for it with `contains` raises, so nothing matches. */
  lemma OtherValues(env: Env, x: string, ts: seq<string>)
    ensures Matches(env, StartWith, x, Null) <==> Lower(env.repr(Null)) <= Lower(x)
    ensures Matches(env, EndWith, x, Null) <==> EndsWith(Lower(x), Lower(env.repr(Null)))
    ensures Matches(env, StartWith, x, Items(ts)) <==> Lower(env.repr(Items(LowerAll(ts)))) <= Lower(x)
    ensures Matches(env, EndWith, x, Items(ts)) <==> EndsWith(Lower(x), Lower(env.repr(Items(LowerAll(ts)))))
    ensures forall v | v == Null || v == Items(ts) :: !Matches(env, Contains, x, v) && !Matches(env, NotContains, x, v)
    ensures forall v | v == Null || v == Items(ts) :: !IsDate(Strip(env.repr(v))) ==> !Matches(env, Eq, x, v) && Matches(env, Ne, x, v)
    ensures !Matches(env, In, x, Null) && !Matches(env, NotIn, x, Null)
  {
  }

  lemma DigitIs(c: char)
    ensures Digit(c) <==> c in "0123456789"
  {
  }

  predicate Numeral(s: string) {
    forall i | 0 <= i < |s| :: s[i] in "0123456789"
  }

  /** A date is four digits, two digits and two digits with dashes between them. */
  lemma DateShape(y: string, m: string, d: string)
    requires |y| == 4 && |m| == 2 && |d| == 2
    ensures IsDate(y + "-" + m + "-" + d) <==> Numeral(y) && Numeral(m) && Numeral(d)
  {
    var s := y + "-" + m + "-" + d;
    assert s[4] == '-' && s[7] == '-';
    assert forall i | 0 <= i < 4 :: s[i] == y[i];
    assert forall i | 0 <= i < 2 :: s[5 + i] == m[i] && s[8 + i] == d[i];
    forall c ensures Digit(c) <==> c in "0123456789" { DigitIs(c); }
    if IsDate(s) {
      forall i | 0 <= i < 4 ensures y[i] in "0123456789" { assert Digit(s[i]); }
      forall i | 0 <= i < 2 ensures m[i] in "0123456789" && d[i] in "0123456789" { assert Digit(s[5 + i]) && Digit(s[8 + i]); }
    }
    if Numeral(y) && Numeral(m) && Numeral(d) {
      forall i | 0 <= i < 10 && i != 4 && i != 7 ensures Digit(s[i]) {
        if i < 4 { assert y[i] in "0123456789"; }
        else if i < 7 { assert m[i - 5] in "0123456789" && s[i] == s[5 + (i - 5)]; }
        else { assert d[i - 8] in "0123456789" && s[i] == s[8 + (i - 8)]; }
      }
    }
  }

  // ---------------------------------------------------------------- all values

  ghost predicate Hit(env: Env, metas: Metas, f: Filter<Value>, d: DocId) {
    f.key in metas && BucketHit(env, metas[f.key], f, d)
  }

  ghost predicate BucketHit(env: Env, buckets: seq<Bucket>, f: Filter<Value>, d: DocId) {
    exists i | 0 <= i < |buckets| :: Matches(env, f.op, buckets[i].value, f.value) && d in buckets[i].docs
  }

  /** The meaning of a filter list: all, or at least one, of the filters hit; none selects
      nothing. */
  ghost predicate Selects(env: Env, metas: Metas, filters: seq<Filter<Value>>, logic: Logic, d: DocId) {
    && filters != []
    && if logic == And then forall i | 0 <= i < |filters| :: Hit(env, metas, filters[i], d)
       else exists i | 0 <= i < |filters| :: Hit(env, metas, filters[i], d)
  }

  /** `filter_out`. */
  method FilterOut(env: Env, buckets: seq<Bucket>, f: Filter<Value>) returns (ids: seq<DocId>)
    ensures forall d :: d in ids <==> BucketHit(env, buckets, f, d)
  {
    ids := [];
    for i := 0 to |buckets|
      invariant forall d :: d in ids <==> BucketHit(env, buckets[..i], f, d)
    {
      var before := ids;
      if Matches(env, f.op, buckets[i].value, f.value) {
        ids := ids + buckets[i].docs;
      }
      forall d ensures d in ids <==> BucketHit(env, buckets[..i + 1], f, d) {
        BucketHitSnoc(env, buckets, i, f, d);
      }
    }
    assert buckets[..|buckets|] == buckets;
  }

  lemma BucketHitSnoc(env: Env, buckets: seq<Bucket>, i: nat, f: Filter<Value>, d: DocId)
    requires i < |buckets|
    ensures BucketHit(env, buckets[..i + 1], f, d) <==>
            BucketHit(env, buckets[..i], f, d) || (Matches(env, f.op, buckets[i].value, f.value) && d in buckets[i].docs)
  {
    var shorter, longer := buckets[..i], buckets[..i + 1];
    assert forall j | 0 <= j < i :: shorter[j] == longer[j];
    assert longer[i] == buckets[i];
  }

  /** `meta_filter`: fold the hits of the filters, returning early from a failed conjunction. */
  method Evaluate(env: Env, metas: Metas, filters: seq<Filter<Value>>, logic: Logic) returns (ids: set<DocId>)
    ensures forall d :: d in ids <==> Selects(env, metas, filters, logic, d)
  {
    ids := {};
    for n := 0 to |filters|
      invariant forall d :: d in ids <==> Selects(env, metas, filters[..n], logic, d)
    {
      var f := filters[n];
      var hits: seq<DocId> := [];
      if f.key in metas {
        hits := FilterOut(env, metas[f.key], f);
      }
      assert forall d :: d in hits <==> Hit(env, metas, f, d);
      forall d
        ensures Selects(env, metas, filters[..n + 1], logic, d) <==>
                if n == 0 then d in hits else if logic == And then d in ids && d in hits else d in ids || d in hits
      {
        SelectsSnoc(env, metas, filters, n, logic, d);
      }
      if n == 0 {
        ids := set d | d in hits;
      } else if logic == And {
        ids := set d | d in ids && d in hits;
        if ids == {} {
          forall d ensures !Selects(env, metas, filters, logic, d) {
            assert d !in ids;
            PrefixFails(env, metas, filters, n + 1, d);
          }
          return;
        }
      } else {
        ids := ids + set d | d in hits;
      }
    }
    assert filters[..|filters|] == filters;
  }

  lemma SelectsSnoc(env: Env, metas: Metas, filters: seq<Filter<Value>>, n: nat, logic: Logic, d: DocId)
    requires n < |filters|
    ensures Selects(env, metas, filters[..n + 1], logic, d) <==>
            var hit := Hit(env, metas, filters[n], d);
            if n == 0 then hit
            else if logic == And then Selects(env, metas, filters[..n], logic, d) && hit
            else Selects(env, metas, filters[..n], logic, d) || hit
  {
    var shorter, longer := filters[..n], filters[..n + 1];
    assert forall j | 0 <= j < n :: shorter[j] == longer[j];
    assert longer[n] == filters[n];
  }

  lemma PrefixFails(env: Env, metas: Metas, filters: seq<Filter<Value>>, n: nat, d: DocId)
    requires 0 < n <= |filters| && !Selects(env, metas, filters[..n], And, d)
    ensures !Selects(env, metas, filters, And, d)
  {
    assert forall j | 0 <= j < n :: filters[..n][j] == filters[j];
  }

  // ---------------------------------------------------------------- documents

  /** A document: its id, its knowledge base, and the texts it carries under each key. */
  datatype Doc = Doc(id: DocId, kb: string, fields: map<string, seq<string>>)

  function Values(doc: Doc, key: string): seq<string> {
    if key in doc.fields then doc.fields[key] else []
  }

  ghost predicate DocMatches(env: Env, doc: Doc, f: Filter<Value>) {
    exists i | 0 <= i < |Values(doc, f.key)| :: Matches(env, f.op, Values(doc, f.key)[i], f.value)
  }

  ghost predicate DocSelected(env: Env, doc: Doc, filters: seq<Filter<Value>>, logic: Logic) {
    && filters != []
    && if logic == And then forall i | 0 <= i < |filters| :: DocMatches(env, doc, filters[i])
       else exists i | 0 <= i < |filters| :: DocMatches(env, doc, filters[i])
  }

  ghost predicate Carries(metas: Metas, key: string, value: string, d: DocId) {
    key in metas && exists i | 0 <= i < |metas[key]| :: metas[key][i].value == value && d in metas[key][i].docs
  }

  /** `metas` lists, per key and value, exactly the documents that carry the value, list
      values expanded (api/db/services/doc_metadata_service.py, `get_flatted_meta_by_kbs`). */
  ghost predicate Flattened(metas: Metas, docs: seq<Doc>) {
    forall key, value, d :: Carries(metas, key, value, d) <==> exists j | 0 <= j < |docs| :: docs[j].id == d && value in Values(docs[j], key)
  }

  ghost predicate UniqueIds(docs: seq<Doc>) {
    forall i, j | 0 <= i < j < |docs| :: docs[i].id != docs[j].id
  }

  /** On flattened metadata a filter hits exactly the documents one of whose values matches. */
  lemma HitIsDocMatch(env: Env, metas: Metas, docs: seq<Doc>, f: Filter<Value>, j: nat)
    requires Flattened(metas, docs) && UniqueIds(docs) && j < |docs|
    ensures Hit(env, metas, f, docs[j].id) <==> DocMatches(env, docs[j], f)
  {
    var doc := docs[j];
    if Hit(env, metas, f, doc.id) {
      var i :| 0 <= i < |metas[f.key]| && Matches(env, f.op, metas[f.key][i].value, f.value) && doc.id in metas[f.key][i].docs;
      var value := metas[f.key][i].value;
      assert Carries(metas, f.key, value, doc.id);
      var k :| 0 <= k < |docs| && docs[k].id == doc.id && value in Values(docs[k], f.key);
      assert k == j;
    }
    if DocMatches(env, doc, f) {
      var i :| 0 <= i < |Values(doc, f.key)| && Matches(env, f.op, Values(doc, f.key)[i], f.value);
      var value := Values(doc, f.key)[i];
      assert value in Values(doc, f.key);
      assert Carries(metas, f.key, value, doc.id);
    }
  }

  lemma HitIsKnown(env: Env, metas: Metas, docs: seq<Doc>, f: Filter<Value>, d: DocId)
    requires Flattened(metas, docs) && Hit(env, metas, f, d)
    ensures exists j | 0 <= j < |docs| :: docs[j].id == d
  {
    var i :| 0 <= i < |metas[f.key]| && Matches(env, f.op, metas[f.key][i].value, f.value) && d in metas[f.key][i].docs;
    assert Carries(metas, f.key, metas[f.key][i].value, d);
  }

  /** The id-level result of `meta_filter` is the document-level one. */
  lemma SelectsIsDocSelected(env: Env, metas: Metas, docs: seq<Doc>, filters: seq<Filter<Value>>, logic: Logic)
    requires Flattened(metas, docs) && UniqueIds(docs)
    ensures forall j | 0 <= j < |docs| ::
              Selects(env, metas, filters, logic, docs[j].id) <==> DocSelected(env, docs[j], filters, logic)
    ensures forall d | Selects(env, metas, filters, logic, d) :: exists j | 0 <= j < |docs| :: docs[j].id == d
  {
    forall j | 0 <= j < |docs|
      ensures Selects(env, metas, filters, logic, docs[j].id) <==> DocSelected(env, docs[j], filters, logic)
    {
      forall i | 0 <= i < |filters|
        ensures Hit(env, metas, filters[i], docs[j].id) <==> DocMatches(env, docs[j], filters[i])
      {
        HitIsDocMatch(env, metas, docs, filters[i], j);
      }
    }
    forall d | Selects(env, metas, filters, logic, d)
      ensures exists j | 0 <= j < |docs| :: docs[j].id == d
    {
      var i :| 0 <= i < |filters| && Hit(env, metas, filters[i], d);
      HitIsKnown(env, metas, docs, filters[i], d);
    }
  }
}
