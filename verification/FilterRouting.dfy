/** Which evaluator answers a metadata filter (common/metadata_utils.py,
    `filter_doc_ids_by_metadata`; api/db/services/doc_metadata_service.py,
    `_filter_doc_ids_by_metadata_es`): the index where it can, memory otherwise, and when the
    caller can tell which. */
module FilterRouting {
  import opened Sequences
  import opened Text
  import opened MetaFilter
  import opened Wrappers
  import opened FilterSyntax
  import opened EsFilter

  /** The ids of the documents a query matches. */
  function Matching(q: Query, docs: seq<Doc>): seq<DocId> {
    if docs == [] then []
    else
      var n := |docs| - 1;
      Matching(q, docs[..n]) + if Holds(q, docs[n]) then [docs[n].id] else []
  }

  ghost predicate Matched(q: Query, docs: seq<Doc>, d: DocId) {
    exists j | 0 <= j < |docs| :: docs[j].id == d && Holds(q, docs[j])
  }

  lemma MatchedSnoc(q: Query, docs: seq<Doc>, d: DocId)
    requires docs != []
    ensures var n := |docs| - 1; Matched(q, docs, d) <==> Matched(q, docs[..n], d) || (docs[n].id == d && Holds(q, docs[n]))
  {
    var init := docs[..|docs| - 1];
    assert forall j | 0 <= j < |init| :: init[j] == docs[j];
  }

  lemma {:induction false} MatchingIsMatched(q: Query, docs: seq<Doc>, d: DocId)
    ensures d in Matching(q, docs) <==> Matched(q, docs, d)
  {
    if docs != [] {
      MatchingIsMatched(q, docs[..|docs| - 1], d);
      MatchedSnoc(q, docs, d);
    }
  }

  /** What the index returns: at most `limit` hits, and how many there are in all. */
  datatype Response = Response(hits: seq<DocId>, total: nat)

  function Search(q: Query, docs: seq<Doc>, limit: nat): Response {
    var all := Matching(q, docs);
    Response(if |all| <= limit then all else all[..limit], |all|)
  }

  /** The hits without repetition, in order. */
  method Unique(hits: seq<DocId>) returns (unique: seq<DocId>)
    ensures NoRepeats(unique)
    ensures forall d :: d in unique <==> d in hits
  {
    unique := [];
    var seen: set<DocId> := {};
    for i := 0 to |hits|
      invariant NoRepeats(unique)
      invariant forall d :: d in unique <==> d in hits[..i]
      invariant forall d :: d in seen <==> d in unique
    {
      if hits[i] !in seen {
        seen := seen + {hits[i]};
        unique := unique + [hits[i]];
      }
      assert hits[..i + 1] == hits[..i] + [hits[i]];
    }
    assert hits[..|hits|] == hits;
  }

  ghost predicate InKbs(docs: seq<Doc>, kbs: seq<string>) {
    forall j | 0 <= j < |docs| :: docs[j].kb in kbs
  }

  /** The index answers: it is up, the pre-check admits the filters, they can be translated, and
      the hits are not cut off. */
  ghost predicate Answers(env: Env, filters: seq<Filter<Value>>, logic: Logic, kbs: seq<string>, up: bool, limit: nat, docs: seq<Doc>) {
    && up && Supported(filters) && Translatable(env, filters)
    && |Matching(QueryFor(env, filters, logic, kbs), docs)| <= limit
  }

  /** The index path: its answer holds every document the query matches, once, or there is none. */
  method TryPushDown(env: Env, filters: seq<Filter<Value>>, logic: Logic, kbs: seq<string>, up: bool, limit: nat, docs: seq<Doc>)
    returns (r: Option<seq<DocId>>)
    ensures r.Some? <==> Answers(env, filters, logic, kbs, up, limit, docs)
    ensures r.Some? ==> NoRepeats(r.value) && forall d :: d in r.value <==> Matched(QueryFor(env, filters, logic, kbs), docs, d)
  {
    if !up || !Supported(filters) {
      return None;
    }
    var query := PushDown(env, filters, logic, kbs);
    if query.Failed? {
      return None;
    }
    var response := Search(query.value, docs, limit);
    if response.total > limit {
      // The hits are cut off: memory has to answer.
      return None;
    }
    var unique := Unique(response.hits);
    forall d ensures d in unique <==> Matched(query.value, docs, d) {
      MatchingIsMatched(query.value, docs, d);
    }
    r := Some(unique);
  }

  ghost predicate AllDocsFit(env: Env, filters: seq<Filter<Value>>, docs: seq<Doc>) {
    forall j | 0 <= j < |docs| :: AllFit(env, filters, docs[j])
  }

  /** The two paths give the same documents. */
  ghost predicate PathsAgree(env: Env, filters: seq<Filter<Value>>, logic: Logic, docs: seq<Doc>, metas: Metas, q: Query) {
    forall d :: Matched(q, docs, d) <==> Selects(env, metas, filters, logic, d)
  }

  ghost predicate DocsAgree(env: Env, filters: seq<Filter<Value>>, logic: Logic, docs: seq<Doc>, q: Query) {
    forall j | 0 <= j < |docs| :: Holds(q, docs[j]) <==> DocSelected(env, docs[j], filters, logic)
  }

  lemma MatchedHere(q: Query, docs: seq<Doc>, j: nat)
    requires UniqueIds(docs) && j < |docs|
    ensures Matched(q, docs, docs[j].id) <==> Holds(q, docs[j])
  {
    if Matched(q, docs, docs[j].id) {
      var k :| 0 <= k < |docs| && docs[k].id == docs[j].id && Holds(q, docs[k]);
      assert k == j;
    }
  }

  lemma AgreeOnId(env: Env, filters: seq<Filter<Value>>, logic: Logic, docs: seq<Doc>, metas: Metas, q: Query, d: DocId)
    requires UniqueIds(docs) && Flattened(metas, docs) && DocsAgree(env, filters, logic, docs, q)
    ensures Matched(q, docs, d) <==> Selects(env, metas, filters, logic, d)
  {
    SelectsIsDocSelected(env, metas, docs, filters, logic);
    if Matched(q, docs, d) || Selects(env, metas, filters, logic, d) {
      var k :| 0 <= k < |docs| && docs[k].id == d;
      MatchedHere(q, docs, k);
    }
  }

  lemma AgreeOnDoc(env: Env, filters: seq<Filter<Value>>, logic: Logic, docs: seq<Doc>, metas: Metas, q: Query, j: nat)
    requires UniqueIds(docs) && Flattened(metas, docs) && PathsAgree(env, filters, logic, docs, metas, q) && j < |docs|
    ensures Holds(q, docs[j]) <==> DocSelected(env, docs[j], filters, logic)
  {
    SelectsIsDocSelected(env, metas, docs, filters, logic);
    MatchedHere(q, docs, j);
    assert Matched(q, docs, docs[j].id) <==> Selects(env, metas, filters, logic, docs[j].id);
  }

  lemma PathsAgreeByDoc(env: Env, filters: seq<Filter<Value>>, logic: Logic, docs: seq<Doc>, metas: Metas, q: Query)
    requires UniqueIds(docs) && Flattened(metas, docs)
    ensures PathsAgree(env, filters, logic, docs, metas, q) <==> DocsAgree(env, filters, logic, docs, q)
  {
    if DocsAgree(env, filters, logic, docs, q) {
      forall d ensures Matched(q, docs, d) <==> Selects(env, metas, filters, logic, d) {
        AgreeOnId(env, filters, logic, docs, metas, q, d);
      }
    }
    if PathsAgree(env, filters, logic, docs, metas, q) {
      forall j | 0 <= j < |docs| ensures Holds(q, docs[j]) <==> DocSelected(env, docs[j], filters, logic) {
        AgreeOnDoc(env, filters, logic, docs, metas, q, j);
      }
    }
  }

  /** Where every document fits every filter, nobody can tell the paths apart. */
  lemma FittingPathsAgree(env: Env, filters: seq<Filter<Value>>, logic: Logic, kbs: seq<string>, docs: seq<Doc>, metas: Metas)
    requires filters != [] && UniqueIds(docs) && Flattened(metas, docs) && InKbs(docs, kbs)
    requires Translatable(env, filters) && AllDocsFit(env, filters, docs)
    ensures PathsAgree(env, filters, logic, docs, metas, QueryFor(env, filters, logic, kbs))
  {
    var q := QueryFor(env, filters, logic, kbs);
    forall j | 0 <= j < |docs| ensures Holds(q, docs[j]) <==> DocSelected(env, docs[j], filters, logic) {
      QueryAgrees(env, filters, logic, PartsOf(env, filters), kbs, docs[j]);
    }
    PathsAgreeByDoc(env, filters, logic, docs, metas, q);
  }

  /** For a single filter in scope the paths agree exactly when every document fits it. */
  lemma OneFilterPathsAgreeIff(env: Env, f: Filter<Value>, logic: Logic, kbs: seq<string>, docs: seq<Doc>, metas: Metas)
    requires UniqueIds(docs) && Flattened(metas, docs) && InKbs(docs, kbs) && InScope(env, f)
    ensures Translatable(env, [f])
    ensures PathsAgree(env, [f], logic, docs, metas, QueryFor(env, [f], logic, kbs)) <==> forall j | 0 <= j < |docs| :: Fits(f, docs[j])
  {
    FilterAgreesIff(env, f, Doc("", "", map[]));
    assert Translatable(env, [f]) by { assert [f][0] == f; }
    var q := QueryFor(env, [f], logic, kbs);
    PathsAgreeByDoc(env, [f], logic, docs, metas, q);
    forall j | 0 <= j < |docs|
      ensures (Holds(q, docs[j]) <==> DocSelected(env, docs[j], [f], logic)) <==> Fits(f, docs[j])
    {
      OneFilterAgreesIff(env, f, logic, kbs, docs[j]);
    }
  }

  ghost predicate World(docs: seq<Doc>, metas: Metas, kbs: seq<string>) {
    UniqueIds(docs) && Flattened(metas, docs) && InKbs(docs, kbs)
  }

  ghost predicate NeverObserved(env: Env, f: Filter<Value>, logic: Logic, kbs: seq<string>)
    requires Translatable(env, [f])
  {
    Supported([f]) ==> forall docs, metas | World(docs, metas, kbs) :: PathsAgree(env, [f], logic, docs, metas, QueryFor(env, [f], logic, kbs))
  }

  /** The flattened metadata of a single document. */
  ghost function MetasOf(doc: Doc): Metas {
    map key | key in doc.fields :: Buckets(doc.fields[key], doc.id)
  }

  ghost function Buckets(values: seq<string>, d: DocId): (bs: seq<Bucket>)
    ensures |bs| == |values| && forall i | 0 <= i < |values| :: bs[i] == Bucket(values[i], [d])
  {
    seq(|values|, i requires 0 <= i < |values| => Bucket(values[i], [d]))
  }

  lemma OneDocWorld(doc: Doc, kbs: seq<string>)
    requires doc.kb in kbs
    ensures World([doc], MetasOf(doc), kbs)
  {
    var metas := MetasOf(doc);
    forall key, value, d
      ensures Carries(metas, key, value, d) <==> exists j | 0 <= j < 1 :: [doc][j].id == d && value in Values([doc][j], key)
    {
      assert [doc][0] == doc;
      if Carries(metas, key, value, d) {
        var i :| 0 <= i < |metas[key]| && metas[key][i].value == value && d in metas[key][i].docs;
        assert doc.fields[key][i] == value;
      }
      if d == doc.id && value in Values(doc, key) {
        var i :| 0 <= i < |doc.fields[key]| && doc.fields[key][i] == value;
        assert metas[key][i] == Bucket(value, [d]);
      }
    }
  }

  /** Whatever is stored, nobody can tell the paths apart, exactly when the filter is a text
      operator, or `=` or `in` with trimmed texts, or is refused by the pre-check. */
  lemma NeverObservedIff(env: Env, f: Filter<Value>, logic: Logic, kbs: seq<string>)
    requires InScope(env, f) && kbs != []
    ensures Translatable(env, [f]) && (NeverObserved(env, f, logic, kbs) <==> Steady(f) || f.op == Ne || f.op == NotIn)
  {
    FilterAgreesIff(env, f, Doc("", "", map[]));
    assert Translatable(env, [f]) by { assert [f][0] == f; }
    assert Supported([f]) <==> f.op != Ne && f.op != NotIn by { assert [f][0] == f; }
    if !Supported([f]) {
    } else if Steady(f) {
      forall docs, metas | World(docs, metas, kbs)
        ensures PathsAgree(env, [f], logic, docs, metas, QueryFor(env, [f], logic, kbs))
      {
        OneFilterPathsAgreeIff(env, f, logic, kbs, docs, metas);
        assert forall j | 0 <= j < |docs| :: Fits(f, docs[j]);
      }
    } else {
      var doc := DifferingDoc(env, f, kbs[0]);
      OneDocWorld(doc, kbs);
      OneFilterPathsAgreeIff(env, f, logic, kbs, [doc], MetasOf(doc));
      assert !Fits(f, [doc][0]);
    }
  }

  /** Memory answers with the in-memory filter, the index with the documents its query matches;
      the answer is the same whenever every document fits every filter. */
  method FilterDocIds(env: Env, filters: seq<Filter<Value>>, logic: Logic, kbs: seq<string>, up: bool, limit: nat, docs: seq<Doc>, metas: Metas)
    returns (ids: set<DocId>, pushed: bool)
    requires UniqueIds(docs) && Flattened(metas, docs) && InKbs(docs, kbs)
    ensures pushed <==> filters != [] && kbs != [] && Answers(env, filters, logic, kbs, up, limit, docs)
    ensures forall d :: d in ids <==>
              if pushed then Matched(QueryFor(env, filters, logic, kbs), docs, d) else Selects(env, metas, filters, logic, d)
    ensures !pushed || AllDocsFit(env, filters, docs) ==> forall d :: d in ids <==> Selects(env, metas, filters, logic, d)
  {
    pushed := false;
    if filters != [] && kbs != [] {
      var r := TryPushDown(env, filters, logic, kbs, up, limit, docs);
      if r.Some? {
        ids, pushed := set d | d in r.value, true;
        if AllDocsFit(env, filters, docs) {
          FittingPathsAgree(env, filters, logic, kbs, docs, metas);
        }
        return;
      }
    }
    ids := Evaluate(env, metas, filters, logic);
  }

  /** The choice of path can be observed: for the admitted filter `empty` on a document without
      the field, the index finds the document and memory does not. */
  lemma RouteIsObservable(env: Env, logic: Logic, limit: nat)
    requires limit > 0
    ensures var docs := [Doc("1", "kb", map[])];
            var filters := [Filter("tag", Empty, Null)];
            && UniqueIds(docs) && Flattened(map[], docs) && InKbs(docs, ["kb"])
            && Answers(env, filters, logic, ["kb"], true, limit, docs)
            && Matched(QueryFor(env, filters, logic, ["kb"]), docs, "1") && !Selects(env, map[], filters, logic, "1")
  {
    var doc, f := Doc("1", "kb", map[]), Filter("tag", Empty, Null);
    var docs, metas: Metas := [doc], map[];
    assert docs[0] == doc && [f][0] == f && Values(doc, "tag") == [] && "kb" in ["kb"];
    OneFilterAgreesIff(env, f, logic, ["kb"], doc);
    DocSelectedOne(env, doc, f, logic);
    assert !Hit(env, metas, f, "1");
    AtMostAll(QueryFor(env, [f], logic, ["kb"]), docs);
  }

  /** A text with outer space: memory finds the document that carries it, the index does not. */
  lemma UntrimmedSplits(env: Env, key: string, t: string, logic: Logic, kbs: seq<string>, doc: Doc)
    requires key != "" && PlainText(env, t) && !Trimmed(t) && Values(doc, key) == [t] && doc.kb in kbs
    ensures var f := Filter(key, Eq, Scalar(t));
            Translatable(env, [f]) && DocSelected(env, doc, [f], logic) && !Holds(QueryFor(env, [f], logic, kbs), doc)
  {
    var f := Filter(key, Eq, Scalar(t));
    UntrimmedDiffers(t);
    EqMeaning(env, key, t, doc);
    OneFilterAgreesIff(env, f, logic, kbs, doc);
    DocSelectedOne(env, doc, f, logic);
  }

  /** The same can be observed for `=` with a space in front of the text. */
  lemma TrimmingIsObservable(env: Env, logic: Logic, limit: nat)
    requires PlainText(env, " a") && limit > 0
    ensures var doc := Doc("1", "kb", map["tag" := [" a"]]);
            var filters := [Filter("tag", Eq, Scalar(" a"))];
            && World([doc], MetasOf(doc), ["kb"])
            && Answers(env, filters, logic, ["kb"], true, limit, [doc])
            && !Matched(QueryFor(env, filters, logic, ["kb"]), [doc], "1") && Selects(env, MetasOf(doc), filters, logic, "1")
  {
    var doc, f := Doc("1", "kb", map["tag" := [" a"]]), Filter("tag", Eq, Scalar(" a"));
    OneDocWorld(doc, ["kb"]);
    assert [doc][0].id == "1" && [f][0] == f && Space(" a"[0]);
    UntrimmedSplits(env, "tag", " a", logic, ["kb"], doc);
    assert Selects(env, MetasOf(doc), [f], logic, "1") by { SelectsIsDocSelected(env, MetasOf(doc), [doc], [f], logic); }
    MatchedHere(QueryFor(env, [f], logic, ["kb"]), [doc], 0);
    AtMostAll(QueryFor(env, [f], logic, ["kb"]), [doc]);
  }

  lemma {:induction false} AtMostAll(q: Query, docs: seq<Doc>)
    ensures |Matching(q, docs)| <= |docs|
  {
    if docs != [] { AtMostAll(q, docs[..|docs| - 1]); }
  }
}
