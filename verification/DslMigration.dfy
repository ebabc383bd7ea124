/** The migration of legacy chunker names in a canvas DSL (agent/dsl_migration.py). */
module DslMigration {
  import opened Text
  import opened References
  import opened Wrappers

  // ---------------------------------------------------------------- JSON

  datatype Json =
    | Null
    | Bool(b: bool)
    | Number(n: real)
    | Str(s: string)
    | Arr(items: seq<Json>)
    | Obj(fields: seq<Field>)

  datatype Field = Field(key: string, value: Json)

  /** Looking up anything else in a dictionary raises. */
  predicate Hashable(v: Json) {
    !v.Arr? && !v.Obj?
  }

  predicate AllHashable(vs: seq<Json>) {
    forall i | 0 <= i < |vs| :: Hashable(vs[i])
  }

  /** Dictionaries keep their order and have one field per key. */
  predicate Distinct(fs: seq<Field>) {
    forall i, j | 0 <= i < j < |fs| :: fs[i].key != fs[j].key
  }

  function Position(fs: seq<Field>, key: string): (n: nat)
    ensures n <= |fs| && (n < |fs| ==> fs[n].key == key) && forall i | 0 <= i < n :: fs[i].key != key
  {
    if fs == [] || fs[0].key == key then 0
    else
      var n := 1 + Position(fs[1..], key);
      assert forall i | 0 < i < n :: fs[i] == fs[1..][i - 1];
      n
  }

  function Get(fs: seq<Field>, key: string): Option<Json> {
    if Position(fs, key) < |fs| then Some(fs[Position(fs, key)].value) else None
  }

  function Put(fs: seq<Field>, key: string, value: Json): seq<Field> {
    var n := Position(fs, key);
    if n < |fs| then fs[n := Field(key, value)] else fs + [Field(key, value)]
  }

  lemma PutGet(fs: seq<Field>, key: string, value: Json, other: string)
    ensures Get(Put(fs, key, value), other) == if other == key then Some(value) else Get(fs, other)
    ensures Get(fs, key) == Some(value) ==> Put(fs, key, value) == fs
  {
    var gs := Put(fs, key, value);
    var n, p, q := Position(fs, key), Position(fs, other), Position(gs, other);
    assert forall i | 0 <= i < |fs| :: gs[i].key == fs[i].key;
    if other == key {
      assert gs[n].key == key;
      assert q <= n;
      assert q == n;
    } else {
      if p < |fs| {
        assert q <= p && gs[p].key == other;
        assert q == p;
      }
    }
  }

  lemma PutDistinct(fs: seq<Field>, key: string, value: Json)
    requires Distinct(fs)
    ensures Distinct(Put(fs, key, value))
  {
  }

  // ---------------------------------------------------------------- renaming rules

  /** `COMPONENT_RENAMES`. */
  function RenameName(name: string): string {
    if name == "Splitter" then "TokenChunker"
    else if name == "HierarchicalMerger" then "TitleChunker"
    else if name == "PDFGenerator" then "DocGenerator"
    else name
  }

  /** `NODE_TYPE_RENAMES`. */
  function RenameType(t: string): string {
    if t == "splitterNode" then "chunkerNode" else t
  }

  const SPLITTER := "Splitter:"
  const MERGER := "HierarchicalMerger:"
  const GENERATOR := "PDFGenerator:"

  /** A component id with a legacy prefix gets the new one. */
  function Rename(id: string): string {
    if SPLITTER <= id then "TokenChunker:" + id[|SPLITTER|..]
    else if MERGER <= id then "TitleChunker:" + id[|MERGER|..]
    else if GENERATOR <= id then "DocGenerator:" + id[|GENERATOR|..]
    else id
  }

  predicate Legacy(id: string) {
    SPLITTER <= id || MERGER <= id || GENERATOR <= id
  }

  lemma Heads(id: string)
    ensures SPLITTER <= id ==> id[0] == 'S'
    ensures MERGER <= id ==> id[0] == 'H'
    ensures GENERATOR <= id ==> id[0] == 'P'
  {
  }

  lemma NewHeads(id: string)
    requires Legacy(id)
    ensures |Rename(id)| >= 2
    ensures SPLITTER <= id ==> Rename(id)[0] == 'T' && Rename(id)[1] == 'o'
    ensures MERGER <= id ==> Rename(id)[0] == 'T' && Rename(id)[1] == 'i'
    ensures GENERATOR <= id ==> Rename(id)[0] == 'D'
  {
    Heads(id);
  }

  /** New ids are not legacy ids: renaming again changes nothing. */
  lemma RenameTwice(id: string)
    ensures !Legacy(Rename(id)) && Rename(Rename(id)) == Rename(id)
    ensures Legacy(id) <==> Rename(id) != id
  {
    Heads(id);
    Heads(Rename(id));
    if Legacy(id) { NewHeads(id); }
  }

  lemma SamePrefix(p: string, a: string, b: string, q: string)
    requires p <= a && p <= b && q + a[|p|..] == q + b[|p|..]
    ensures a == b
  {
    assert a[|p|..] == (q + a[|p|..])[|q|..] == (q + b[|p|..])[|q|..] == b[|p|..];
    assert a == p + a[|p|..] && b == p + b[|p|..];
  }

  lemma RenameLegacyInjective(a: string, b: string)
    requires Legacy(a) && Legacy(b) && Rename(a) == Rename(b)
    ensures a == b
  {
    Heads(a);
    Heads(b);
    NewHeads(a);
    NewHeads(b);
    if SPLITTER <= a {
      SamePrefix(SPLITTER, a, b, "TokenChunker:");
    } else if MERGER <= a {
      SamePrefix(MERGER, a, b, "TitleChunker:");
    } else {
      SamePrefix(GENERATOR, a, b, "DocGenerator:");
    }
  }

  /** Two ids collide exactly when one is the new name of the other. */
  lemma CollideIff(a: string, b: string)
    requires a != b
    ensures Rename(a) == Rename(b) <==> b == Rename(a) || a == Rename(b)
  {
    RenameTwice(a);
    RenameTwice(b);
    if Rename(a) == Rename(b) && Legacy(a) && Legacy(b) {
      RenameLegacyInjective(a, b);
    }
  }

  lemma RenameKeepsShape(id: string)
    requires id != "" && AllIn(IdChar, id)
    ensures Rename(id) != "" && AllIn(IdChar, Rename(id))
  {
    assert AllIn(IdChar, "TokenChunker:") && AllIn(IdChar, "TitleChunker:") && AllIn(IdChar, "DocGenerator:");
  }

  // ---------------------------------------------------------------- rewriting values

  /** `component_id_map`. */
  function IdMap(components: seq<Field>): Ids {
    map i | 0 <= i < |components| :: components[i].key := Rename(components[i].key)
  }

  method BuildIdMap(components: seq<Field>) returns (ids: Ids)
    ensures ids == IdMap(components)
  {
    ids := map[];
    for n := 0 to |components|
      invariant ids.Keys == set i | 0 <= i < n :: components[i].key
      invariant forall k | k in ids :: ids[k] == Rename(k)
    {
      ids := ids[components[n].key := Rename(components[n].key)];
    }
  }

  /** `rewrite_variable_refs`. */
  function RewriteText(ids: Ids, s: string): string {
    if s in ids then ids[s] else Sub(Finding(), ids, s)
  }

  /** `rewrite_value`. */
  function RewriteValue(ids: Ids, v: Json): Json {
    match v
    case Str(s) => Str(RewriteText(ids, s))
    case Arr(items) => Arr(seq(|items|, i requires 0 <= i < |items| => RewriteValue(ids, items[i])))
    case Obj(fs) => Obj(seq(|fs|, i requires 0 <= i < |fs| => Field(fs[i].key, RewriteValue(ids, fs[i].value))))
    case _ => v
  }

  /** `component_id_map.get(v, v)`, for a value that can be looked up. */
  function Relink(ids: Ids, v: Json): Json {
    if v.Str? then Str(Look(ids, v.s)) else v
  }

  function RelinkAll(ids: Ids, vs: seq<Json>): Result<seq<Json>> {
    if AllHashable(vs) then Done(seq(|vs|, i requires 0 <= i < |vs| => Relink(ids, vs[i]))) else Failed
  }

  /** Replace a list of links, if there is one. */
  function RelinkList(ids: Ids, fs: seq<Field>, key: string): Result<seq<Field>> {
    match Get(fs, key)
    case Some(Arr(vs)) => var links :- RelinkAll(ids, vs); Done(Put(fs, key, Arr(links)))
    case _ => Done(fs)
  }

  /** Replace one link, if it is a text. */
  function RelinkOne(ids: Ids, fs: seq<Field>, key: string): seq<Field> {
    match Get(fs, key)
    case Some(Str(s)) => Put(fs, key, Str(Look(ids, s)))
    case _ => fs
  }

  /** The component's class name; a missing one is written as null. */
  function RenameObj(fs: seq<Field>): Result<seq<Field>> {
    match Get(fs, "obj")
    case Some(Obj(o)) =>
      var name := match Get(o, "component_name") case Some(v) => v case None => Null;
      if !Hashable(name) then Failed
      else Done(Put(fs, "obj", Obj(Put(o, "component_name", if name.Str? then Str(RenameName(name.s)) else name))))
    case _ => Done(fs)
  }

  function RewriteComponent(ids: Ids, component: Json): Result<Json> {
    var v := RewriteValue(ids, component);
    if !v.Obj? then Done(v)
    else
      var a :- RenameObj(v.fields);
      var b :- RelinkList(ids, a, "downstream");
      var c :- RelinkList(ids, b, "upstream");
      Done(Obj(RelinkOne(ids, c, "parent_id")))
  }

  /** How one component is rewritten. */
  type Rewrite = Json -> Result<Json>

  function Rewriter(ids: Ids): Rewrite {
    (component: Json) => RewriteComponent(ids, component)
  }

  /** The components under their new ids; the last one wins where ids collide. */
  function Rebuild(rewrite: Rewrite, ids: Ids, components: seq<Field>): Result<seq<Field>> {
    if components == [] then Done([])
    else
      var n := |components| - 1;
      var init :- Rebuild(rewrite, ids, components[..n]);
      var last :- rewrite(components[n].value);
      Done(Put(init, Look(ids, components[n].key), last))
  }

  function RewriteComponents(ids: Ids, components: seq<Field>): Result<seq<Field>> {
    Rebuild(Rewriter(ids), ids, components)
  }

  // ---------------------------------------------------------------- the graph

  function OnText(fs: seq<Field>, key: string, rename: string -> string): seq<Field> {
    match Get(fs, key)
    case Some(Str(s)) => Put(fs, key, Str(rename(s)))
    case _ => fs
  }

  function RewriteForm(ids: Ids, fs: seq<Field>, key: string): seq<Field> {
    match Get(fs, key)
    case Some(v) => Put(fs, key, RewriteValue(ids, v))
    case None => fs
  }

  function RewriteData(ids: Ids, data: seq<Field>): seq<Field> {
    RewriteForm(ids, OnText(OnText(data, "label", RenameName), "name", RenameName), "form")
  }

  function OnData(ids: Ids, fs: seq<Field>): seq<Field> {
    match Get(fs, "data")
    case Some(Obj(data)) => Put(fs, "data", Obj(RewriteData(ids, data)))
    case _ => fs
  }

  function RewriteNode(ids: Ids, node: Json): Json {
    if !node.Obj? then node
    else Obj(OnData(ids, OnText(RelinkOne(ids, RelinkOne(ids, node.fields, "id"), "parentId"), "type", RenameType)))
  }

  predicate Falling(ids: seq<string>) {
    forall i, j | 0 <= i < j < |ids| :: |ids[i]| >= |ids[j]|
  }

  function InsertByLength(id: string, ids: seq<string>): (r: seq<string>)
    ensures |r| == |ids| + 1 && forall x :: x in r <==> x == id || x in ids
  {
    if ids == [] || |id| > |ids[0]| then [id] + ids else [ids[0]] + InsertByLength(id, ids[1..])
  }

  /** The component ids by falling length, in their order among equals. */
  function ByLength(components: seq<Field>): seq<string> {
    if components == [] then []
    else InsertByLength(components[|components| - 1].key, ByLength(components[..|components| - 1]))
  }

  lemma {:induction false} InsertFalls(id: string, ids: seq<string>)
    requires Falling(ids)
    ensures Falling(InsertByLength(id, ids))
  {
    if ids != [] && |id| <= |ids[0]| {
      var rest := InsertByLength(id, ids[1..]);
      InsertFalls(id, ids[1..]);
      forall j | 0 <= j < |rest| ensures |rest[j]| <= |ids[0]| {
        assert rest[j] in rest;
      }
    }
  }

  /** Longer ids are replaced first, and every component id is replaced. */
  lemma {:induction false} ByLengthSorts(components: seq<Field>)
    ensures Falling(ByLength(components)) && |ByLength(components)| == |components|
    ensures forall i | 0 <= i < |components| :: components[i].key in ByLength(components)
  {
    if components != [] {
      var init := components[..|components| - 1];
      ByLengthSorts(init);
      InsertFalls(components[|components| - 1].key, ByLength(init));
      assert forall i | 0 <= i < |init| :: init[i] == components[i];
    }
  }

  function ReplaceAll(ids: Ids, sorted: seq<string>, s: string): string {
    if sorted == [] then s else ReplaceAll(ids, sorted[1..], Replace(s, sorted[0], Look(ids, sorted[0])))
  }

  function OnEdgeId(ids: Ids, sorted: seq<string>, fs: seq<Field>): seq<Field> {
    match Get(fs, "id")
    case Some(Str(s)) => Put(fs, "id", Str(ReplaceAll(ids, sorted, s)))
    case _ => fs
  }

  function RewriteEdge(ids: Ids, sorted: seq<string>, edge: Json): Json {
    if !edge.Obj? then edge
    else Obj(OnEdgeId(ids, sorted, RelinkOne(ids, RelinkOne(ids, edge.fields, "source"), "target")))
  }

  function RewriteNodes(ids: Ids, fs: seq<Field>): seq<Field> {
    match Get(fs, "nodes")
    case Some(Arr(nodes)) => Put(fs, "nodes", Arr(seq(|nodes|, i requires 0 <= i < |nodes| => RewriteNode(ids, nodes[i]))))
    case _ => fs
  }

  function RewriteEdges(ids: Ids, sorted: seq<string>, fs: seq<Field>): seq<Field> {
    match Get(fs, "edges")
    case Some(Arr(edges)) => Put(fs, "edges", Arr(seq(|edges|, i requires 0 <= i < |edges| => RewriteEdge(ids, sorted, edges[i]))))
    case _ => fs
  }

  function RewriteGraph(ids: Ids, sorted: seq<string>, fs: seq<Field>): seq<Field> {
    match Get(fs, "graph")
    case Some(Obj(g)) => Put(fs, "graph", Obj(RewriteEdges(ids, sorted, RewriteNodes(ids, g))))
    case _ => fs
  }

  /** The conversation state is rewritten as a whole. */
  function Forms(ids: Ids, fs: seq<Field>): seq<Field> {
    RewriteForm(ids, RewriteForm(ids, RewriteForm(ids, fs, "history"), "messages"), "reference")
  }

  /** `normalize_chunker_dsl`. */
  function Normalize(dsl: Json): Result<Json> {
    if !dsl.Obj? then Done(dsl)
    else match Get(dsl.fields, "components")
      case Some(Obj(components)) =>
        var ids := IdMap(components);
        var rewritten :- RewriteComponents(ids, components);
        var top := Put(dsl.fields, "components", Obj(rewritten));
        var linked :- RelinkList(ids, top, "path");
        Done(Obj(Forms(ids, RewriteGraph(ids, ByLength(components), linked))))
      case _ => Done(dsl)
  }

  // ---------------------------------------------------------------- current DSLs

  predicate LinksCurrent(fs: seq<Field>, key: string) {
    match Get(fs, key)
    case Some(Arr(vs)) => AllHashable(vs)
    case _ => true
  }

  predicate NameCurrent(fs: seq<Field>) {
    match Get(fs, "obj")
    case Some(Obj(o)) =>
      (match Get(o, "component_name")
       case Some(name) => Hashable(name) && (name.Str? ==> RenameName(name.s) == name.s)
       case None => false)
    case _ => true
  }

  predicate CurrentComponent(v: Json) {
    v.Obj? ==> NameCurrent(v.fields) && LinksCurrent(v.fields, "downstream") && LinksCurrent(v.fields, "upstream")
  }

  ghost predicate CurrentComponents(components: seq<Field>) {
    && Distinct(components)
    && forall i | 0 <= i < |components| :: !Legacy(components[i].key) && CurrentComponent(components[i].value)
  }

  predicate TextCurrent(fs: seq<Field>, key: string, rename: string -> string) {
    match Get(fs, key)
    case Some(Str(s)) => rename(s) == s
    case _ => true
  }

  predicate CurrentNode(node: Json) {
    node.Obj? ==>
      && TextCurrent(node.fields, "type", RenameType)
      && match Get(node.fields, "data")
         case Some(Obj(data)) => TextCurrent(data, "label", RenameName) && TextCurrent(data, "name", RenameName)
         case _ => true
  }

  ghost predicate CurrentNodes(graph: seq<Field>) {
    match Get(graph, "nodes")
    case Some(Arr(nodes)) => forall i | 0 <= i < |nodes| :: CurrentNode(nodes[i])
    case _ => true
  }

  ghost predicate CurrentGraph(fs: seq<Field>) {
    match Get(fs, "graph")
    case Some(Obj(g)) => CurrentNodes(g)
    case _ => true
  }

  /** No legacy name is left anywhere the runtime looks, and every link can be looked up. */
  ghost predicate Current(dsl: Json) {
    dsl.Obj? ==>
      match Get(dsl.fields, "components")
      case Some(Obj(components)) => CurrentComponents(components) && LinksCurrent(dsl.fields, "path") && CurrentGraph(dsl.fields)
      case _ => true
  }

  // ---------------------------------------------------------------- current DSLs are kept

  lemma RewriteTextFixed(ids: Ids, s: string)
    requires Fixed(ids)
    ensures RewriteText(ids, s) == s
  {
    SubFixed(Finding(), ids, s);
  }

  lemma {:induction false} RewriteValueFixed(ids: Ids, v: Json)
    requires Fixed(ids)
    ensures RewriteValue(ids, v) == v
  {
    match v
    case Str(s) => RewriteTextFixed(ids, s);
    case Arr(items) =>
      forall i | 0 <= i < |items| ensures RewriteValue(ids, items[i]) == items[i] { RewriteValueFixed(ids, items[i]); }
    case Obj(fs) =>
      forall i | 0 <= i < |fs| ensures RewriteValue(ids, fs[i].value) == fs[i].value { RewriteValueFixed(ids, fs[i].value); }
    case _ =>
  }

  lemma RelinkListFixed(ids: Ids, fs: seq<Field>, key: string)
    requires Fixed(ids) && LinksCurrent(fs, key)
    ensures RelinkList(ids, fs, key) == Done(fs)
  {
    match Get(fs, key)
    case Some(Arr(vs)) =>
      assert forall i | 0 <= i < |vs| :: Relink(ids, vs[i]) == vs[i];
      assert RelinkAll(ids, vs).value == vs;
      PutGet(fs, key, Arr(vs), key);
    case _ =>
  }

  lemma RelinkOneFixed(ids: Ids, fs: seq<Field>, key: string)
    requires Fixed(ids)
    ensures RelinkOne(ids, fs, key) == fs
  {
    match Get(fs, key)
    case Some(Str(s)) => PutGet(fs, key, Str(s), key);
    case _ =>
  }

  lemma RenameObjKept(fs: seq<Field>)
    requires NameCurrent(fs)
    ensures RenameObj(fs) == Done(fs)
  {
    match Get(fs, "obj")
    case Some(Obj(o)) =>
      PutGet(o, "component_name", Get(o, "component_name").value, "component_name");
      PutGet(fs, "obj", Obj(o), "obj");
    case _ =>
  }

  lemma ComponentKept(ids: Ids, v: Json)
    requires Fixed(ids) && CurrentComponent(v)
    ensures RewriteComponent(ids, v) == Done(v)
  {
    RewriteValueFixed(ids, v);
    if v.Obj? {
      RenameObjKept(v.fields);
      RelinkListFixed(ids, v.fields, "downstream");
      RelinkListFixed(ids, v.fields, "upstream");
      RelinkOneFixed(ids, v.fields, "parent_id");
    }
  }

  lemma {:induction false} RebuildKept(rewrite: Rewrite, ids: Ids, components: seq<Field>)
    requires Fixed(ids) && Distinct(components)
    requires forall i | 0 <= i < |components| :: rewrite(components[i].value) == Done(components[i].value)
    ensures Rebuild(rewrite, ids, components) == Done(components)
  {
    if components != [] {
      var n := |components| - 1;
      var last := components[n];
      RebuildKept(rewrite, ids, components[..n]);
      assert Look(ids, last.key) == last.key;
      var p := Position(components[..n], last.key);
      assert p == n;
      assert components == components[..n] + [Field(last.key, last.value)];
    }
  }

  lemma ComponentsKept(ids: Ids, components: seq<Field>)
    requires Fixed(ids) && CurrentComponents(components)
    ensures RewriteComponents(ids, components) == Done(components)
  {
    forall i | 0 <= i < |components|
      ensures Rewriter(ids)(components[i].value) == Done(components[i].value)
    {
      ComponentKept(ids, components[i].value);
    }
    RebuildKept(Rewriter(ids), ids, components);
  }

  lemma OnTextKept(fs: seq<Field>, key: string, rename: string -> string)
    requires TextCurrent(fs, key, rename)
    ensures OnText(fs, key, rename) == fs
  {
    match Get(fs, key)
    case Some(Str(s)) => PutGet(fs, key, Str(s), key);
    case _ =>
  }

  lemma RewriteFormFixed(ids: Ids, fs: seq<Field>, key: string)
    requires Fixed(ids)
    ensures RewriteForm(ids, fs, key) == fs
  {
    match Get(fs, key)
    case Some(v) =>
      RewriteValueFixed(ids, v);
      PutGet(fs, key, v, key);
    case None =>
  }

  lemma NodeKept(ids: Ids, node: Json)
    requires Fixed(ids) && CurrentNode(node)
    ensures RewriteNode(ids, node) == node
  {
    if node.Obj? {
      var fs := node.fields;
      RelinkOneFixed(ids, fs, "id");
      RelinkOneFixed(ids, fs, "parentId");
      OnTextKept(fs, "type", RenameType);
      match Get(fs, "data")
      case Some(Obj(data)) =>
        OnTextKept(data, "label", RenameName);
        OnTextKept(data, "name", RenameName);
        RewriteFormFixed(ids, data, "form");
        PutGet(fs, "data", Obj(data), "data");
      case _ =>
    }
  }

  lemma {:induction false} ReplaceAllFixed(ids: Ids, sorted: seq<string>, s: string)
    requires Fixed(ids)
    ensures ReplaceAll(ids, sorted, s) == s
  {
    if sorted != [] {
      if sorted[0] == "" { ReplaceNothing(s); } else { ReplaceBySame(s, sorted[0]); }
      ReplaceAllFixed(ids, sorted[1..], s);
    }
  }

  lemma EdgeFixed(ids: Ids, sorted: seq<string>, edge: Json)
    requires Fixed(ids)
    ensures RewriteEdge(ids, sorted, edge) == edge
  {
    if edge.Obj? {
      RelinkOneFixed(ids, edge.fields, "source");
      RelinkOneFixed(ids, edge.fields, "target");
      match Get(edge.fields, "id")
      case Some(Str(s)) =>
        ReplaceAllFixed(ids, sorted, s);
        PutGet(edge.fields, "id", Str(s), "id");
      case _ =>
    }
  }

  lemma NodesKept(ids: Ids, g: seq<Field>)
    requires Fixed(ids) && CurrentNodes(g)
    ensures RewriteNodes(ids, g) == g
  {
    match Get(g, "nodes")
    case Some(Arr(nodes)) =>
      forall i | 0 <= i < |nodes| ensures RewriteNode(ids, nodes[i]) == nodes[i] { NodeKept(ids, nodes[i]); }
      assert seq(|nodes|, i requires 0 <= i < |nodes| => RewriteNode(ids, nodes[i])) == nodes;
      PutGet(g, "nodes", Arr(nodes), "nodes");
    case _ =>
  }

  lemma EdgesFixed(ids: Ids, sorted: seq<string>, g: seq<Field>)
    requires Fixed(ids)
    ensures RewriteEdges(ids, sorted, g) == g
  {
    match Get(g, "edges")
    case Some(Arr(edges)) =>
      forall i | 0 <= i < |edges| ensures RewriteEdge(ids, sorted, edges[i]) == edges[i] { EdgeFixed(ids, sorted, edges[i]); }
      assert seq(|edges|, i requires 0 <= i < |edges| => RewriteEdge(ids, sorted, edges[i])) == edges;
      PutGet(g, "edges", Arr(edges), "edges");
    case _ =>
  }

  lemma GraphKept(ids: Ids, sorted: seq<string>, fs: seq<Field>)
    requires Fixed(ids) && CurrentGraph(fs)
    ensures RewriteGraph(ids, sorted, fs) == fs
  {
    match Get(fs, "graph")
    case Some(Obj(g)) =>
      NodesKept(ids, g);
      EdgesFixed(ids, sorted, g);
      PutGet(fs, "graph", Obj(g), "graph");
    case _ =>
  }

  lemma CurrentIsKept(dsl: Json)
    requires Current(dsl)
    ensures Normalize(dsl) == Done(dsl)
  {
    if dsl.Obj? {
      match Get(dsl.fields, "components")
      case Some(Obj(components)) =>
        var ids := IdMap(components);
        assert Fixed(ids);
        ComponentsKept(ids, components);
        PutGet(dsl.fields, "components", Obj(components), "components");
        RelinkListFixed(ids, dsl.fields, "path");
        GraphKept(ids, ByLength(components), dsl.fields);
        RewriteFormFixed(ids, dsl.fields, "history");
        RewriteFormFixed(ids, dsl.fields, "messages");
        RewriteFormFixed(ids, dsl.fields, "reference");
      case _ =>
    }
  }

  // ---------------------------------------------------------------- the result is current

  lemma RenameNameTwice(s: string)
    ensures RenameName(RenameName(s)) == RenameName(s) && RenameType(RenameType(s)) == RenameType(s)
  {
  }

  /** A step changes one field only. */
  ghost predicate OnlyAt(fs: seq<Field>, gs: seq<Field>, key: string) {
    forall other | other != key :: Get(gs, other) == Get(fs, other)
  }

  lemma PutOnlyAt(fs: seq<Field>, key: string, v: Json)
    ensures OnlyAt(fs, Put(fs, key, v), key) && Get(Put(fs, key, v), key) == Some(v)
  {
    forall other ensures other != key ==> Get(Put(fs, key, v), other) == Get(fs, other) {
      PutGet(fs, key, v, other);
    }
    PutGet(fs, key, v, key);
  }

  lemma Through(fs: seq<Field>, gs: seq<Field>, key: string, other: string)
    requires OnlyAt(fs, gs, key) && other != key
    ensures Get(gs, other) == Get(fs, other)
  {
  }

  lemma RelinkListMakes(ids: Ids, fs: seq<Field>, key: string)
    requires RelinkList(ids, fs, key).Done?
    ensures var gs := RelinkList(ids, fs, key).value; OnlyAt(fs, gs, key) && LinksCurrent(gs, key)
  {
    match Get(fs, key)
    case Some(Arr(vs)) => PutOnlyAt(fs, key, Arr(RelinkAll(ids, vs).value));
    case _ =>
  }

  lemma RelinkOneMakes(ids: Ids, fs: seq<Field>, key: string)
    ensures OnlyAt(fs, RelinkOne(ids, fs, key), key)
  {
    match Get(fs, key)
    case Some(Str(s)) => PutOnlyAt(fs, key, Str(Look(ids, s)));
    case _ =>
  }

  lemma RenameObjMakes(fs: seq<Field>)
    requires RenameObj(fs).Done?
    ensures OnlyAt(fs, RenameObj(fs).value, "obj") && NameCurrent(RenameObj(fs).value)
  {
    match Get(fs, "obj")
    case Some(Obj(o)) =>
      var name := match Get(o, "component_name") case Some(v) => v case None => Null;
      var renamed := if name.Str? then Str(RenameName(name.s)) else name;
      if name.Str? { RenameNameTwice(name.s); }
      PutGet(o, "component_name", renamed, "component_name");
      PutOnlyAt(fs, "obj", Obj(Put(o, "component_name", renamed)));
    case _ =>
  }

  lemma ComponentMakes(ids: Ids, component: Json)
    requires RewriteComponent(ids, component).Done?
    ensures CurrentComponent(RewriteComponent(ids, component).value)
  {
    var v := RewriteValue(ids, component);
    if v.Obj? {
      var a := RenameObj(v.fields).value;
      RenameObjMakes(v.fields);
      var b := RelinkList(ids, a, "downstream").value;
      RelinkListMakes(ids, a, "downstream");
      NameThrough(a, b, "downstream");
      var c := RelinkList(ids, b, "upstream").value;
      RelinkListMakes(ids, b, "upstream");
      NameThrough(b, c, "upstream");
      LinksThrough(b, c, "upstream", "downstream");
      var d := RelinkOne(ids, c, "parent_id");
      RelinkOneMakes(ids, c, "parent_id");
      NameThrough(c, d, "parent_id");
      LinksThrough(c, d, "parent_id", "downstream");
      LinksThrough(c, d, "parent_id", "upstream");
    }
  }

  lemma NameThrough(fs: seq<Field>, gs: seq<Field>, key: string)
    requires OnlyAt(fs, gs, key) && key != "obj" && NameCurrent(fs)
    ensures NameCurrent(gs)
  {
    assert Get(gs, "obj") == Get(fs, "obj");
  }

  lemma LinksThrough(fs: seq<Field>, gs: seq<Field>, key: string, links: string)
    requires OnlyAt(fs, gs, key) && key != links && LinksCurrent(fs, links)
    ensures LinksCurrent(gs, links)
  {
    assert Get(gs, links) == Get(fs, links);
  }

  ghost predicate Renames(ids: Ids) {
    forall k | k in ids :: ids[k] == Rename(k)
  }

  ghost predicate Covers(ids: Ids, components: seq<Field>) {
    forall i | 0 <= i < |components| :: components[i].key in ids
  }

  ghost predicate Produces(rewrite: Rewrite) {
    forall v | rewrite(v).Done? :: CurrentComponent(rewrite(v).value)
  }

  lemma {:induction false} RebuildMakes(rewrite: Rewrite, ids: Ids, components: seq<Field>)
    requires Renames(ids) && Covers(ids, components) && Produces(rewrite) && Rebuild(rewrite, ids, components).Done?
    ensures CurrentComponents(Rebuild(rewrite, ids, components).value)
  {
    if components != [] {
      var n := |components| - 1;
      RebuildMakes(rewrite, ids, components[..n]);
      RenameTwice(components[n].key);
      PutDistinct(Rebuild(rewrite, ids, components[..n]).value, Rename(components[n].key), rewrite(components[n].value).value);
    }
  }

  lemma ComponentsMake(ids: Ids, components: seq<Field>)
    requires Renames(ids) && Covers(ids, components) && RewriteComponents(ids, components).Done?
    ensures CurrentComponents(RewriteComponents(ids, components).value)
  {
    forall v | Rewriter(ids)(v).Done? ensures CurrentComponent(Rewriter(ids)(v).value) {
      ComponentMakes(ids, v);
    }
    RebuildMakes(Rewriter(ids), ids, components);
  }

  lemma OnTextMakes(fs: seq<Field>, key: string, rename: string -> string)
    requires rename == RenameName || rename == RenameType
    ensures OnlyAt(fs, OnText(fs, key, rename), key) && TextCurrent(OnText(fs, key, rename), key, rename)
  {
    match Get(fs, key)
    case Some(Str(s)) =>
      RenameNameTwice(s);
      PutOnlyAt(fs, key, Str(rename(s)));
    case _ =>
  }

  lemma RewriteFormMakes(ids: Ids, fs: seq<Field>, key: string)
    ensures OnlyAt(fs, RewriteForm(ids, fs, key), key)
  {
    match Get(fs, key)
    case Some(v) => PutOnlyAt(fs, key, RewriteValue(ids, v));
    case None =>
  }

  lemma DataMakes(ids: Ids, data: seq<Field>)
    ensures TextCurrent(RewriteData(ids, data), "label", RenameName) && TextCurrent(RewriteData(ids, data), "name", RenameName)
  {
    var a := OnText(data, "label", RenameName);
    OnTextMakes(data, "label", RenameName);
    OnTextMakes(a, "name", RenameName);
    RewriteFormMakes(ids, OnText(a, "name", RenameName), "form");
  }

  lemma OnDataOnly(ids: Ids, fs: seq<Field>)
    ensures OnlyAt(fs, OnData(ids, fs), "data")
  {
    match Get(fs, "data")
    case Some(Obj(data)) => PutOnlyAt(fs, "data", Obj(RewriteData(ids, data)));
    case _ =>
  }

  lemma OnDataMakes(ids: Ids, fs: seq<Field>)
    requires TextCurrent(fs, "type", RenameType)
    ensures CurrentNode(Obj(OnData(ids, fs)))
  {
    OnDataOnly(ids, fs);
    Through(fs, OnData(ids, fs), "data", "type");
    match Get(fs, "data")
    case Some(Obj(data)) =>
      DataMakes(ids, data);
      PutGet(fs, "data", Obj(RewriteData(ids, data)), "data");
    case _ =>
  }

  lemma NodeMakes(ids: Ids, node: Json)
    ensures CurrentNode(RewriteNode(ids, node))
  {
    if node.Obj? {
      var a := RelinkOne(ids, RelinkOne(ids, node.fields, "id"), "parentId");
      OnTextMakes(a, "type", RenameType);
      OnDataMakes(ids, OnText(a, "type", RenameType));
    }
  }

  lemma NodesMake(ids: Ids, g: seq<Field>)
    ensures OnlyAt(g, RewriteNodes(ids, g), "nodes") && CurrentNodes(RewriteNodes(ids, g))
  {
    match Get(g, "nodes")
    case Some(Arr(nodes)) =>
      var made := seq(|nodes|, i requires 0 <= i < |nodes| => RewriteNode(ids, nodes[i]));
      forall i | 0 <= i < |nodes| ensures CurrentNode(made[i]) { NodeMakes(ids, nodes[i]); }
      PutOnlyAt(g, "nodes", Arr(made));
    case _ =>
  }

  lemma EdgesMake(ids: Ids, sorted: seq<string>, g: seq<Field>)
    ensures OnlyAt(g, RewriteEdges(ids, sorted, g), "edges")
  {
    match Get(g, "edges")
    case Some(Arr(edges)) =>
      PutOnlyAt(g, "edges", Arr(seq(|edges|, i requires 0 <= i < |edges| => RewriteEdge(ids, sorted, edges[i]))));
    case _ =>
  }

  lemma GraphMakes(ids: Ids, sorted: seq<string>, fs: seq<Field>)
    ensures OnlyAt(fs, RewriteGraph(ids, sorted, fs), "graph") && CurrentGraph(RewriteGraph(ids, sorted, fs))
  {
    match Get(fs, "graph")
    case Some(Obj(g)) =>
      NodesMake(ids, g);
      EdgesMake(ids, sorted, RewriteNodes(ids, g));
      PutOnlyAt(fs, "graph", Obj(RewriteEdges(ids, sorted, RewriteNodes(ids, g))));
    case _ =>
  }

  lemma FormsKeep(ids: Ids, fs: seq<Field>, key: string)
    requires key != "history" && key != "messages" && key != "reference"
    ensures Get(Forms(ids, fs), key) == Get(fs, key)
  {
    var a := RewriteForm(ids, fs, "history");
    RewriteFormMakes(ids, fs, "history");
    Through(fs, a, "history", key);
    var b := RewriteForm(ids, a, "messages");
    RewriteFormMakes(ids, a, "messages");
    Through(a, b, "messages", key);
    RewriteFormMakes(ids, b, "reference");
    Through(b, Forms(ids, fs), "reference", key);
  }

  lemma DrawnMakes(ids: Ids, sorted: seq<string>, linked: seq<Field>)
    requires LinksCurrent(linked, "path")
    ensures var out := Forms(ids, RewriteGraph(ids, sorted, linked));
            Get(out, "components") == Get(linked, "components") && LinksCurrent(out, "path") && CurrentGraph(out)
  {
    var drawn := RewriteGraph(ids, sorted, linked);
    GraphMakes(ids, sorted, linked);
    Through(linked, drawn, "graph", "components");
    Through(linked, drawn, "graph", "path");
    FormsKeep(ids, drawn, "components");
    FormsKeep(ids, drawn, "path");
    FormsKeep(ids, drawn, "graph");
  }

  lemma NormalizeMakesCurrent(dsl: Json)
    requires Normalize(dsl).Done?
    ensures Current(Normalize(dsl).value)
  {
    if dsl.Obj? {
      match Get(dsl.fields, "components")
      case Some(Obj(components)) =>
        var ids := IdMap(components);
        ComponentsMake(ids, components);
        var rewritten := RewriteComponents(ids, components).value;
        var top := Put(dsl.fields, "components", Obj(rewritten));
        PutGet(dsl.fields, "components", Obj(rewritten), "components");
        var linked := RelinkList(ids, top, "path").value;
        RelinkListMakes(ids, top, "path");
        Through(top, linked, "path", "components");
        DrawnMakes(ids, ByLength(components), linked);
      case _ =>
    }
  }

  /** Normalising twice is normalising once, for every DSL. */
  lemma NormalizeIsIdempotent(dsl: Json)
    requires Normalize(dsl).Done?
    ensures Normalize(Normalize(dsl).value) == Normalize(dsl)
  {
    NormalizeMakesCurrent(dsl);
    CurrentIsKept(Normalize(dsl).value);
  }

  /** The DSLs left as they are are exactly the current ones. */
  lemma UnchangedIffCurrent(dsl: Json)
    ensures Normalize(dsl) == Done(dsl) <==> Current(dsl)
  {
    if Normalize(dsl) == Done(dsl) { NormalizeMakesCurrent(dsl); }
    if Current(dsl) { CurrentIsKept(dsl); }
  }

  // ---------------------------------------------------------------- the migration as it runs

  method MigrateComponents(ids: Ids, components: seq<Field>) returns (r: Result<seq<Field>>)
    ensures r == RewriteComponents(ids, components)
  {
    var rewritten: seq<Field> := [];
    for n := 0 to |components|
      invariant RewriteComponents(ids, components[..n]) == Done(rewritten)
    {
      var component := RewriteComponent(ids, components[n].value);
      assert components[..n + 1][..n] == components[..n];
      if component.Failed? {
        RaisedPrefix(Rewriter(ids), ids, components, n + 1);
        return Failed;
      }
      rewritten := Put(rewritten, Look(ids, components[n].key), component.value);
    }
    assert components[..|components|] == components;
    return Done(rewritten);
  }

  lemma RebuildInit(rewrite: Rewrite, ids: Ids, components: seq<Field>)
    requires components != [] && Rebuild(rewrite, ids, components[..|components| - 1]).Failed?
    ensures Rebuild(rewrite, ids, components).Failed?
  {
  }

  /** One component that raises fails the migration. */
  lemma {:induction false} RaisedPrefix(rewrite: Rewrite, ids: Ids, components: seq<Field>, n: nat)
    requires n <= |components| && Rebuild(rewrite, ids, components[..n]).Failed?
    ensures Rebuild(rewrite, ids, components).Failed?
  {
    if n == |components| {
      assert components[..n] == components;
    } else {
      var init := components[..|components| - 1];
      assert init[..n] == components[..n];
      RaisedPrefix(rewrite, ids, init, n);
      RebuildInit(rewrite, ids, components);
    }
  }

  method MigrateNodes(ids: Ids, graph: seq<Field>) returns (out: seq<Field>)
    ensures out == RewriteNodes(ids, graph)
  {
    out := graph;
    var found := Get(graph, "nodes");
    if found.Some? && found.value.Arr? {
      var nodes := found.value.items;
      for n := 0 to |nodes|
        invariant |nodes| == |found.value.items|
        invariant forall i | 0 <= i < n :: nodes[i] == RewriteNode(ids, found.value.items[i])
        invariant forall i | n <= i < |nodes| :: nodes[i] == found.value.items[i]
      {
        nodes := nodes[n := RewriteNode(ids, nodes[n])];
      }
      out := Put(graph, "nodes", Arr(nodes));
      assert nodes == seq(|nodes|, i requires 0 <= i < |nodes| => RewriteNode(ids, found.value.items[i]));
    }
  }

  method MigrateEdges(ids: Ids, sorted: seq<string>, graph: seq<Field>) returns (out: seq<Field>)
    ensures out == RewriteEdges(ids, sorted, graph)
  {
    out := graph;
    var found := Get(graph, "edges");
    if found.Some? && found.value.Arr? {
      var edges := found.value.items;
      for n := 0 to |edges|
        invariant |edges| == |found.value.items|
        invariant forall i | 0 <= i < n :: edges[i] == RewriteEdge(ids, sorted, found.value.items[i])
        invariant forall i | n <= i < |edges| :: edges[i] == found.value.items[i]
      {
        edges := edges[n := RewriteEdge(ids, sorted, edges[n])];
      }
      out := Put(graph, "edges", Arr(edges));
      assert edges == seq(|edges|, i requires 0 <= i < |edges| => RewriteEdge(ids, sorted, found.value.items[i]));
    }
  }

  /** `normalize_chunker_dsl` as it runs: what it returns is current, and only a current DSL
      comes back unchanged. */
  method Migrate(dsl: Json) returns (r: Result<Json>)
    ensures r == Normalize(dsl)
    ensures r.Done? ==> Current(r.value) && (r.value == dsl <==> Current(dsl))
  {
    UnchangedIffCurrent(dsl);
    if Normalize(dsl).Done? {
      NormalizeMakesCurrent(dsl);
    }
    if !dsl.Obj? {
      return Done(dsl);
    }
    var found := Get(dsl.fields, "components");
    if found.None? || !found.value.Obj? {
      return Done(dsl);
    }
    var ids := BuildIdMap(found.value.fields);
    var sorted := ByLength(found.value.fields);
    var components := MigrateComponents(ids, found.value.fields);
    if components.Failed? {
      return Failed;
    }
    var linked := RelinkList(ids, Put(dsl.fields, "components", Obj(components.value)), "path");
    if linked.Failed? {
      return Failed;
    }
    var top := linked.value;
    var graph := Get(top, "graph");
    if graph.Some? && graph.value.Obj? {
      var nodes := MigrateNodes(ids, graph.value.fields);
      var edges := MigrateEdges(ids, sorted, nodes);
      top := Put(top, "graph", Obj(edges));
    }
    return Done(Obj(Forms(ids, top)));
  }
}
